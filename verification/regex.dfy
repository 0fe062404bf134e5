/**
 * The regular expressions of the date matcher are fixed sequences of digit
 * runs `\d{n}` (each one a capture group) and literal characters. `re.search`
 * returns the leftmost position at which the expression matches; an
 * expression with a `\d{1,2}` run is written as two patterns, the greedy
 * (longer) one tried first at each position.
 */
module Regex {
  import opened Wrappers
  import opened Text

  datatype Token = Digits(n: nat) | Lit(c: char)

  type Pattern = seq<Token>

  /** The width of each capture group, in order. */
  function Widths(p: Pattern): (ws: seq<nat>)
  {
    if p == [] then [] else (if p[0].Digits? then [p[0].n] else []) + Widths(p[1..])
  }

  /** The groups well-formed for `p`: one digit string of the right width per run. */
  predicate GroupsFit(p: Pattern, gs: seq<string>) {
    |gs| == |Widths(p)| && forall k :: 0 <= k < |gs| ==> |gs[k]| == Widths(p)[k] && AllDigits(gs[k])
  }

  /** The text that `p` matches when its groups are `gs`. */
  function Render(p: Pattern, gs: seq<string>): string
    requires |gs| == |Widths(p)|
  {
    if p == [] then []
    else match p[0]
      case Digits(_) => gs[0] + Render(p[1..], gs[1..])
      case Lit(c) => [c] + Render(p[1..], gs)
  }

  /** Rendering a pattern that opens with a digit run: the first group, then the rest. */
  lemma RenderDigitsFirst(n: nat, rest: Pattern, g: string, gs: seq<string>)
    requires |gs| == |Widths(rest)|
    ensures Widths([Digits(n)] + rest) == [n] + Widths(rest)
    ensures Render([Digits(n)] + rest, [g] + gs) == g + Render(rest, gs)
  {
    var p := [Digits(n)] + rest;
    assert p[1..] == rest;
    assert ([g] + gs)[1..] == gs;
  }

  /** Rendering a pattern that opens with a literal: the literal, then the rest. */
  lemma RenderLitFirst(c: char, rest: Pattern, gs: seq<string>)
    requires |gs| == |Widths(rest)|
    ensures Widths([Lit(c)] + rest) == Widths(rest)
    ensures Render([Lit(c)] + rest, gs) == [c] + Render(rest, gs)
  {
    var p := [Lit(c)] + rest;
    assert p[1..] == rest;
  }

  /** The groups captured when `p` matches `s` at position `i` (Python `re.match(p, s[i:])`). */
  function MatchAt(s: string, i: nat, p: Pattern): (r: Option<seq<string>>)
    ensures r.Some? ==> |r.value| == |Widths(p)|
    decreases p
  {
    if p == [] then Some([])
    else match p[0]
      case Digits(n) =>
        if i + n <= |s| && AllDigits(s[i..i + n]) then
          match MatchAt(s, i + n, p[1..])
          case Some(gs) => Some([s[i..i + n]] + gs)
          case None => None
        else None
      case Lit(c) =>
        if i < |s| && s[i] == c then MatchAt(s, i + 1, p[1..]) else None
  }

  /** The groups of a match are digit strings of the widths the pattern asks for. */
  lemma {:induction false} MatchAtFits(s: string, i: nat, p: Pattern)
    requires MatchAt(s, i, p).Some?
    ensures GroupsFit(p, MatchAt(s, i, p).value)
    decreases p
  {
    var gs := MatchAt(s, i, p).value;
    if p != [] {
      match p[0]
      case Digits(n) =>
        MatchAtDigits(s, i, p, n);
        MatchAtFits(s, i + n, p[1..]);
        var tail := MatchAt(s, i + n, p[1..]).value;
        assert Widths(p) == [n] + Widths(p[1..]);
        forall k | 0 <= k < |gs| ensures |gs[k]| == Widths(p)[k] && AllDigits(gs[k]) {
          if k > 0 { assert gs[k] == tail[k - 1]; }
        }
      case Lit(c) =>
        MatchAtLit(s, i, p, c);
        MatchAtFits(s, i + 1, p[1..]);
        assert Widths(p) == Widths(p[1..]);
    }
  }

  /** One step of a match that opens with a digit run: the run, then the rest of the pattern. */
  lemma MatchAtDigits(s: string, i: nat, p: Pattern, n: nat)
    requires p != [] && p[0] == Digits(n) && MatchAt(s, i, p).Some?
    ensures i + n <= |s| && AllDigits(s[i..i + n]) && MatchAt(s, i + n, p[1..]).Some?
    ensures MatchAt(s, i, p).value == [s[i..i + n]] + MatchAt(s, i + n, p[1..]).value
  {
  }

  /** One step of a match that opens with a literal: the character, then the rest of the pattern. */
  lemma MatchAtLit(s: string, i: nat, p: Pattern, c: char)
    requires p != [] && p[0] == Lit(c) && MatchAt(s, i, p).Some?
    ensures i < |s| && s[i] == c && MatchAt(s, i, p) == MatchAt(s, i + 1, p[1..])
  {
  }

  /** A match at `i` means the text there is `p` rendered with the captured groups. */
  lemma {:induction false} MatchAtRenders(s: string, i: nat, p: Pattern, gs: seq<string>)
    requires i <= |s| && MatchAt(s, i, p) == Some(gs)
    ensures i + |Render(p, gs)| <= |s|
    ensures s[i..i + |Render(p, gs)|] == Render(p, gs)
    decreases p
  {
    if p == [] {
      assert Render(p, gs) == [];
    } else {
      match p[0]
      case Digits(n) =>
        MatchedDigits(s, i, p, gs, n);
        MatchAtRenders(s, i + n, p[1..], gs[1..]);
        SliceJoin(s, i, gs[0], Render(p[1..], gs[1..]));
      case Lit(c) =>
        MatchedLit(s, i, p, gs, c);
        MatchAtRenders(s, i + 1, p[1..], gs);
        SliceJoin(s, i, [c], Render(p[1..], gs));
    }
  }

  /** A match that opens with a digit run captures the run first, then what the rest of the pattern captures. */
  lemma MatchedDigits(s: string, i: nat, p: Pattern, gs: seq<string>, n: nat)
    requires p != [] && p[0] == Digits(n) && MatchAt(s, i, p) == Some(gs)
    ensures i + n <= |s| && gs != [] && gs[0] == s[i..i + n] && MatchAt(s, i + n, p[1..]) == Some(gs[1..])
    ensures |gs[1..]| == |Widths(p[1..])| && Render(p, gs) == gs[0] + Render(p[1..], gs[1..])
  {
    MatchAtDigits(s, i, p, n);
  }

  /** A match that opens with a literal captures what the rest of the pattern captures. */
  lemma MatchedLit(s: string, i: nat, p: Pattern, gs: seq<string>, c: char)
    requires p != [] && p[0] == Lit(c) && MatchAt(s, i, p) == Some(gs)
    ensures i < |s| && s[i..i + 1] == [c] && MatchAt(s, i + 1, p[1..]) == Some(gs)
    ensures |gs| == |Widths(p[1..])| && Render(p, gs) == [c] + Render(p[1..], gs)
  {
    MatchAtLit(s, i, p, c);
  }

  /** Two pieces found one after the other in `s` make up their concatenation there. */
  lemma SliceJoin(s: string, i: nat, a: string, b: string)
    requires i + |a| + |b| <= |s| && s[i..i + |a|] == a && s[i + |a|..i + |a| + |b|] == b
    ensures s[i..i + |a + b|] == a + b
  {
    SliceSplit(s, i, i + |a|, i + |a| + |b|);
  }

  /** Conversely, wherever the text is `p` rendered with fitting groups, `p` matches and captures them. */
  lemma {:induction false} RenderMatches(s: string, i: nat, p: Pattern, gs: seq<string>)
    requires GroupsFit(p, gs)
    requires i + |Render(p, gs)| <= |s| && s[i..i + |Render(p, gs)|] == Render(p, gs)
    ensures MatchAt(s, i, p) == Some(gs)
    decreases p
  {
    if p != [] {
      var whole := Render(p, gs);
      match p[0]
      case Digits(n) =>
        RenderedDigits(s, i, p, gs, n);
        RenderMatches(s, i + n, p[1..], gs[1..]);
        MatchDigitsStep(s, i, p, n);
        assert [gs[0]] + gs[1..] == gs;
      case Lit(c) =>
        RenderedLit(s, i, p, gs, c);
        RenderMatches(s, i + 1, p[1..], gs);
    }
  }

  /** A rendering that opens with a digit run: the first group, then a rendering of the rest. */
  lemma RenderedDigits(s: string, i: nat, p: Pattern, gs: seq<string>, n: nat)
    requires p != [] && p[0] == Digits(n) && GroupsFit(p, gs)
    requires i + |Render(p, gs)| <= |s| && s[i..i + |Render(p, gs)|] == Render(p, gs)
    ensures GroupsFit(p[1..], gs[1..]) && i + n <= |s| && s[i..i + n] == gs[0] && AllDigits(s[i..i + n])
    ensures i + n + |Render(p[1..], gs[1..])| <= |s| && s[i + n..i + n + |Render(p[1..], gs[1..])|] == Render(p[1..], gs[1..])
  {
    var whole := Render(p, gs);
    var rest := Render(p[1..], gs[1..]);
    GroupsFitDigits(p, gs);
    assert s[i..i + n] == whole[..n] == gs[0];
    assert s[i + n..i + n + |rest|] == whole[n..] == rest;
  }

  /** A rendering that opens with a literal: the literal, then a rendering of the rest. */
  lemma RenderedLit(s: string, i: nat, p: Pattern, gs: seq<string>, c: char)
    requires p != [] && p[0] == Lit(c) && GroupsFit(p, gs)
    requires i + |Render(p, gs)| <= |s| && s[i..i + |Render(p, gs)|] == Render(p, gs)
    ensures GroupsFit(p[1..], gs) && i < |s| && s[i] == c
    ensures i + 1 + |Render(p[1..], gs)| <= |s| && s[i + 1..i + 1 + |Render(p[1..], gs)|] == Render(p[1..], gs)
  {
    var whole := Render(p, gs);
    var rest := Render(p[1..], gs);
    assert Widths(p) == Widths(p[1..]);
    assert s[i] == whole[0] == c;
    assert s[i + 1..i + 1 + |rest|] == whole[1..] == rest;
  }

  /** Groups that fit a pattern opening with a digit run: a first group of that width, the rest fitting the rest. */
  lemma GroupsFitDigits(p: Pattern, gs: seq<string>)
    requires p != [] && p[0].Digits? && GroupsFit(p, gs)
    ensures |gs[0]| == p[0].n && GroupsFit(p[1..], gs[1..])
    ensures Render(p, gs) == gs[0] + Render(p[1..], gs[1..])
  {
    assert Widths(p) == [p[0].n] + Widths(p[1..]);
    forall k | 0 <= k < |gs[1..]| ensures |gs[1..][k]| == Widths(p[1..])[k] && AllDigits(gs[1..][k]) {
      assert gs[1..][k] == gs[k + 1];
    }
  }

  /** A digit run in the text followed by a match of the rest of the pattern is a match of the whole. */
  lemma MatchDigitsStep(s: string, i: nat, p: Pattern, n: nat)
    requires p != [] && p[0] == Digits(n) && i + n <= |s| && AllDigits(s[i..i + n])
    requires MatchAt(s, i + n, p[1..]).Some?
    ensures MatchAt(s, i, p) == Some([s[i..i + n]] + MatchAt(s, i + n, p[1..]).value)
  {
  }

  datatype Found = Found(pos: nat, alt: nat, groups: seq<string>)

  /** No alternative matches at `i`. */
  predicate NoMatchAt(s: string, i: nat, alts: seq<Pattern>) {
    forall k :: 0 <= k < |alts| ==> MatchAt(s, i, alts[k]).None?
  }

  /** The first alternative that matches at `i`. */
  function MatchAny(s: string, i: nat, alts: seq<Pattern>): Option<(nat, seq<string>)>
  {
    if alts == [] then None
    else match MatchAt(s, i, alts[0])
      case Some(gs) => Some((0, gs))
      case None =>
        match MatchAny(s, i, alts[1..])
        case None => None
        case Some((k, gs)) => Some((k + 1, gs))
  }

  /** `MatchAny` finds nothing exactly when no alternative matches, and otherwise the first one that does. */
  lemma {:induction false} MatchAnyFirst(s: string, i: nat, alts: seq<Pattern>)
    ensures var r := MatchAny(s, i, alts);
            (r.None? <==> NoMatchAt(s, i, alts))
            && (r.Some? ==> r.value.0 < |alts| && MatchAt(s, i, alts[r.value.0]) == Some(r.value.1)
                            && forall k :: 0 <= k < r.value.0 ==> MatchAt(s, i, alts[k]).None?)
  {
    if alts != [] && MatchAt(s, i, alts[0]).None? {
      MatchAnyFirst(s, i, alts[1..]);
      var r := MatchAny(s, i, alts);
      if r.Some? {
        forall k | 0 <= k < r.value.0 ensures MatchAt(s, i, alts[k]).None? {
          if k > 0 { assert alts[k] == alts[1..][k - 1]; }
        }
      } else {
        forall k | 0 <= k < |alts| ensures MatchAt(s, i, alts[k]).None? {
          if k > 0 { assert alts[k] == alts[1..][k - 1]; }
        }
      }
    }
  }

  /** Python `re.search`: the leftmost match at or after `start`. */
  function Search(s: string, start: nat, alts: seq<Pattern>): Option<Found>
    decreases |s| + 1 - start
  {
    if start > |s| then None
    else match MatchAny(s, start, alts)
      case Some((k, gs)) => Some(Found(start, k, gs))
      case None => Search(s, start + 1, alts)
  }

  /**
   * What `Search` finds is a match of the first alternative that matches at
   * the leftmost position that has one; it finds nothing only when no
   * alternative matches anywhere from `start` on.
   */
  lemma {:induction false} SearchLeftmost(s: string, start: nat, alts: seq<Pattern>)
    ensures var r := Search(s, start, alts);
            r.Some? ==> var f := r.value;
              start <= f.pos <= |s| && f.alt < |alts|
              && MatchAt(s, f.pos, alts[f.alt]) == Some(f.groups)
              && (forall k :: 0 <= k < f.alt ==> MatchAt(s, f.pos, alts[k]).None?)
              && (forall j :: start <= j < f.pos ==> NoMatchAt(s, j, alts))
    ensures Search(s, start, alts).None? ==> forall j :: start <= j <= |s| ==> NoMatchAt(s, j, alts)
    decreases |s| + 1 - start
  {
    if start <= |s| {
      MatchAnyFirst(s, start, alts);
      if MatchAny(s, start, alts).None? {
        SearchLeftmost(s, start + 1, alts);
      }
    }
  }

  /** The groups of Python `re.search(p, s)`, None when nothing matches. */
  function SearchGroups(s: string, p: Pattern): (r: Option<seq<string>>)
    ensures r.None? <==> Search(s, 0, [p]).None?
    ensures r.Some? ==> r.value == Search(s, 0, [p]).value.groups && GroupsFit(p, r.value)
  {
    match Search(s, 0, [p])
    case None => None
    case Some(f) =>
      SearchLeftmost(s, 0, [p]);
      MatchAtFits(s, f.pos, p);
      Some(f.groups)
  }

  /**
   * A pattern that opens with a digit run, in a text whose characters from
   * `start` up to `at` are not digits and which holds a rendering of the
   * pattern at `at`, is first found at `at`.
   */
  lemma {:induction false} SearchAfterPrefix(s: string, start: nat, at: nat, p: Pattern, gs: seq<string>)
    requires p != [] && p[0].Digits? && p[0].n >= 1
    requires GroupsFit(p, gs) && start <= at
    requires at + |Render(p, gs)| <= |s| && s[at..at + |Render(p, gs)|] == Render(p, gs)
    requires forall j :: start <= j < at ==> !IsDigit(s[j])
    ensures Search(s, start, [p]) == Some(Found(at, 0, gs))
    decreases at - start
  {
    if start < at {
      var n := p[0].n;
      if start + n <= |s| {
        assert s[start..start + n][0] == s[start];
      }
      assert MatchAny(s, start, [p]).None?;
      SearchAfterPrefix(s, start + 1, at, p, gs);
    } else {
      RenderMatches(s, at, p, gs);
      assert MatchAny(s, at, [p]) == Some((0, gs));
    }
  }

  /** The `n` characters of `s` from `j` on are all digits. */
  predicate DigitRunAt(s: string, j: nat, n: nat) {
    j + n <= |s| && AllDigits(s[j..j + n])
  }

  /** No `n` characters in a row of `s` are all digits. */
  predicate NoDigitRun(s: string, n: nat) {
    forall j: nat :: j <= |s| ==> !DigitRunAt(s, j, n)
  }

  /** A pattern that opens with a run of `n` digits is not found in a text without such a run. */
  lemma {:induction false} SearchNoRun(s: string, start: nat, p: Pattern)
    requires p != [] && p[0].Digits? && NoDigitRun(s, p[0].n)
    ensures Search(s, start, [p]).None?
    decreases |s| + 1 - start
  {
    if start <= |s| {
      assert !DigitRunAt(s, start, p[0].n);
      assert MatchAny(s, start, [p]).None?;
      SearchNoRun(s, start + 1, p);
    }
  }

  /** A pattern holding the literal `c` matches only where the text holds `c` too. */
  lemma {:induction false} MatchNeedsLit(s: string, i: nat, p: Pattern, c: char)
    requires Lit(c) in p && Lacks(s, c)
    ensures MatchAt(s, i, p).None?
    decreases p
  {
    if p[0] != Lit(c) {
      assert Lit(c) in p[1..];
      match p[0]
      case Digits(n) =>
        if i + n <= |s| { MatchNeedsLit(s, i + n, p[1..], c); }
      case Lit(d) =>
        if i < |s| { MatchNeedsLit(s, i + 1, p[1..], c); }
    }
  }

  /** A pattern holding the literal `c` is not found in a text without `c`. */
  lemma {:induction false} SearchNeedsLit(s: string, start: nat, p: Pattern, c: char)
    requires Lit(c) in p && Lacks(s, c)
    ensures Search(s, start, [p]).None?
    decreases |s| + 1 - start
  {
    if start <= |s| {
      MatchNeedsLit(s, start, p, c);
      assert MatchAny(s, start, [p]).None?;
      SearchNeedsLit(s, start + 1, p, c);
    }
  }

  /** Every alternative opens with a run of at least one digit. */
  predicate OpensWithDigits(alts: seq<Pattern>) {
    forall q :: 0 <= q < |alts| ==> alts[q] != [] && alts[q][0].Digits? && alts[q][0].n >= 1
  }

  /** No character of `s` from `start` up to `at` is a digit. */
  predicate NoDigitBetween(s: string, start: nat, at: nat)
    requires start <= at <= |s|
  {
    forall j :: start <= j < at ==> !IsDigit(s[j])
  }

  /**
   * Alternatives that all open with a digit run, in a text with no digit from
   * `start` up to `at`, are first found at `at` when one of them matches there.
   */
  lemma SearchAnyAfterPrefix(s: string, start: nat, at: nat, alts: seq<Pattern>, k: nat, gs: seq<string>)
    requires OpensWithDigits(alts) && start <= at <= |s|
    requires MatchAny(s, at, alts) == Some((k, gs))
    requires NoDigitBetween(s, start, at)
    ensures Search(s, start, alts) == Some(Found(at, k, gs))
  {
    SearchSkipTo(s, start, at, alts);
    SearchHit(s, at, alts);
  }

  /** Alternatives that all open with a digit run are searched for from the first digit on. */
  lemma SearchSkipTo(s: string, start: nat, at: nat, alts: seq<Pattern>)
    requires OpensWithDigits(alts) && start <= at <= |s|
    requires NoDigitBetween(s, start, at)
    ensures Search(s, start, alts) == Search(s, at, alts)
  {
    var j := start;
    while j < at
      invariant start <= j <= at && Search(s, start, alts) == Search(s, j, alts)
    {
      assert !IsDigit(s[j]);
      SkipNonDigit(s, j, alts);
      j := j + 1;
    }
  }

  /** Where no alternative matches, the search goes on at the next position. */
  lemma SearchSkip(s: string, start: nat, alts: seq<Pattern>)
    requires start <= |s| && MatchAny(s, start, alts).None?
    ensures Search(s, start, alts) == Search(s, start + 1, alts)
  {
  }

  /** Alternatives that all open with a digit run are searched for past a character that is not a digit. */
  lemma SkipNonDigit(s: string, start: nat, alts: seq<Pattern>)
    requires OpensWithDigits(alts) && start < |s| && !IsDigit(s[start])
    ensures Search(s, start, alts) == Search(s, start + 1, alts)
  {
    NoDigitNoMatch(s, start, alts);
    SearchSkip(s, start, alts);
  }

  /** Where an alternative matches, the search stops there. */
  lemma SearchHit(s: string, start: nat, alts: seq<Pattern>)
    requires start <= |s| && MatchAny(s, start, alts).Some?
    ensures Search(s, start, alts) == Some(Found(start, MatchAny(s, start, alts).value.0, MatchAny(s, start, alts).value.1))
  {
  }

  /** Alternatives that all open with a digit run match nowhere a digit is not. */
  lemma NoDigitNoMatch(s: string, start: nat, alts: seq<Pattern>)
    requires OpensWithDigits(alts) && start < |s| && !IsDigit(s[start])
    ensures MatchAny(s, start, alts).None?
  {
    forall q | 0 <= q < |alts| ensures MatchAt(s, start, alts[q]).None? {
      NoDigitNoMatchOne(s, start, alts[q]);
    }
  }

  lemma NoDigitNoMatchOne(s: string, start: nat, p: Pattern)
    requires p != [] && p[0].Digits? && p[0].n >= 1 && start < |s| && !IsDigit(s[start])
    ensures MatchAt(s, start, p).None?
  {
    var n := p[0].n;
    if start + n <= |s| {
      assert s[start..start + n][0] == s[start];
    }
  }

  /** Alternatives that all hold the literal `c` are not found in a text without `c`. */
  lemma {:induction false} SearchAnyNeedsLit(s: string, start: nat, alts: seq<Pattern>, c: char)
    requires forall q :: 0 <= q < |alts| ==> Lit(c) in alts[q]
    requires Lacks(s, c)
    ensures Search(s, start, alts).None?
    decreases |s| + 1 - start
  {
    if start <= |s| {
      forall q | 0 <= q < |alts| ensures MatchAt(s, start, alts[q]).None? {
        MatchNeedsLit(s, start, alts[q], c);
      }
      MatchAnyFirst(s, start, alts);
      SearchAnyNeedsLit(s, start + 1, alts, c);
    }
  }
}
