/**
 * The month a roster file belongs to, read from its name, and the roster
 * chosen for the month of a travel file when no roster has exactly that month.
 */
module RosterMonth {
  import opened Wrappers
  import opened Text
  import opened Dicts
  import opened Sorting
  import opened Regex
  import opened Calendar

  // ------------------------------------------------------ roster file months

  /** `(\d{4})年(\d{1,2})月`: the greedy two-digit month is tried before the one-digit month. */
  const YearMonthCn: seq<Pattern> := [[Digits(4), Lit('年'), Digits(2), Lit('月')],
                                      [Digits(4), Lit('年'), Digits(1), Lit('月')]]
  /** `(\d{6})`. */
  const SixDigits: Pattern := [Digits(6)]

  /** `f'{year}-{month:02d}'` for the integers written in `year` and `month`. */
  function MonthLabel(year: string, month: string): (r: string)
    requires AllDigits(year) && AllDigits(month)
    ensures MonthShaped(r)
  {
    var y, m := NatStr(Value(year)), ZeroPad2(Value(month));
    DigitsLack(y, '-');
    DigitsLack(m, '-');
    SplitTwo(y, m, '-');
    y + "-" + m
  }

  /** A string of digits holds no `c` that is not a digit. */
  lemma DigitsLack(s: string, c: char)
    requires AllDigits(s) && !IsDigit(c)
    ensures Lacks(s, c)
  {
  }

  /**
   * `extract_roster_month`: the first `YYYY年M月` or `YYYY年MM月`, else the
   * first six digits in a row read as `YYYYMM`; the month is not checked.
   */
  function ExtractRosterMonth(name: string): (r: Option<string>)
    ensures r.Some? ==> MonthShaped(r.value)
  {
    match Search(name, 0, YearMonthCn)
    case Some(f) =>
      SearchLeftmost(name, 0, YearMonthCn);
      var p := YearMonthCn[f.alt];
      MatchAtFits(name, f.pos, p);
      assert Widths(p) == [4] + Widths(p[1..]);
      Some(MonthLabel(f.groups[0], f.groups[1]))
    case None =>
      match SearchGroups(name, SixDigits)
      case Some(gs) =>
        assert Widths(SixDigits) == [6];
        var g := gs[0];
        Some(MonthLabel(g[..4], g[4..6]))
      case None => None
  }

  // --------------------------------------------------------- roster fallback

  /** What `map(int, month.split('-'))` accepts: two digit strings around one `-`. */
  predicate MonthShaped(t: string) {
    var parts := Split(t, '-');
    |parts| == 2 && IsDigitString(parts[0]) && IsDigitString(parts[1])
  }

  /** The index of the first key not after `t`, Python's `for m in ks: if m <= t: return`. */
  function FirstAtMost(ks: seq<string>, t: string): (r: Option<nat>)
    ensures r.Some? ==> r.value < |ks| && Le(ks[r.value], t)
                        && forall i :: 0 <= i < r.value ==> !Le(ks[i], t)
    ensures r.None? ==> forall i :: 0 <= i < |ks| ==> !Le(ks[i], t)
  {
    if ks == [] then None
    else if Le(ks[0], t) then Some(0)
    else match FirstAtMost(ks[1..], t)
      case None => None
      case Some(i) => Some(i + 1)
  }

  /** Python `sorted(rosters.keys())`: the months in ascending order. */
  function SortedMonths<V>(rosters: Dict<string, V>): (ks: seq<string>)
    ensures multiset(ks) == multiset(Keys(rosters)) && |ks| == |rosters|
    ensures forall i, j :: 0 <= i < j < |ks| ==> Le(ks[i], ks[j])
  {
    var ks := SortBy(Keys(rosters), k => k, Le);
    assert TotalPreorder(Le) by {
      LeTotalOrder();
    }
    SortBySorted(Keys(rosters), k => k, Le);
    ks
  }

  /** The last two tiers: the first sorted month not after `t`, else the last sorted month. */
  function NearestKey(t: string, rosters: Dict<string, string>): (k: string)
    requires rosters != []
    ensures k in Keys(rosters)
  {
    var ks := SortedMonths(rosters);
    var k := match FirstAtMost(ks, t) case Some(i) => ks[i] case None => ks[|ks| - 1];
    assert k in multiset(Keys(rosters));
    k
  }

  /** The neighbouring month `f'{year}-{month:02d}'` built by the source. */
  function Neighbour(y: nat, m: nat): string {
    NatStr(y) + "-" + ZeroPad2(m)
  }

  /**
   * `find_matching_roster_file`: the roster of the month itself, else of the
   * month before or after it in the same year, else the first month in
   * ascending order that is not after it, else the last month.
   */
  function FindMatchingRoster(t: string, rosters: Dict<string, string>): (r: Option<string>)
    requires t in Keys(rosters) || MonthShaped(t)
    ensures r.None? <==> rosters == []
    ensures r.Some? ==> r.value in Values(rosters)
  {
    match Get(rosters, t)
    case Some(f) =>
      GetInValues(rosters, t);
      Some(f)
    case None =>
      var parts := Split(t, '-');
      Fallback(t, Value(parts[0]), Value(parts[1]), rosters)
  }

  /** The tiers after the exact match, for a target whose parts read as year `y` and month `m`. */
  function Fallback(t: string, y: nat, m: nat, rosters: Dict<string, string>): (r: Option<string>)
    ensures r.None? <==> rosters == []
    ensures r.Some? ==> r.value in Values(rosters)
  {
    if m > 1 && Get(rosters, Neighbour(y, m - 1)).Some? then
      GetInValues(rosters, Neighbour(y, m - 1));
      Get(rosters, Neighbour(y, m - 1))
    else if m < 12 && Get(rosters, Neighbour(y, m + 1)).Some? then
      GetInValues(rosters, Neighbour(y, m + 1));
      Get(rosters, Neighbour(y, m + 1))
    else if rosters == [] then None
    else
      var k := NearestKey(t, rosters);
      GetInValues(rosters, k);
      Get(rosters, k)
  }

  // ------------------------------------------------------- what the tiers do

  /**
   * The fourth tier takes the EARLIEST month not after `t`, not the nearest
   * one; when every month is after `t`, the fifth tier takes the latest.
   */
  lemma NearestIsEarliestOrLatest(t: string, rosters: Dict<string, string>)
    requires rosters != []
    ensures var k, ks := NearestKey(t, rosters), Keys(rosters);
            (exists i :: 0 <= i < |ks| && Le(ks[i], t)) ==>
              Le(k, t) && forall i :: 0 <= i < |ks| ==> Le(k, ks[i])
    ensures var k, ks := NearestKey(t, rosters), Keys(rosters);
            (forall i :: 0 <= i < |ks| ==> !Le(ks[i], t)) ==>
              forall i :: 0 <= i < |ks| ==> Le(ks[i], k)
  {
    var ks, sorted := Keys(rosters), SortedMonths(rosters);
    SortedEnds(rosters, ks, sorted);
    if exists i :: 0 <= i < |ks| && Le(ks[i], t) {
      var i :| 0 <= i < |ks| && Le(ks[i], t);
      LeTransitive(sorted[0], ks[i], t);
      assert FirstAtMost(sorted, t) == Some(0);
      assert NearestKey(t, rosters) == sorted[0];
    } else {
      forall j | 0 <= j < |sorted| ensures !Le(sorted[j], t) {
        assert sorted[j] in multiset(ks);
      }
      assert FirstAtMost(sorted, t).None?;
      assert NearestKey(t, rosters) == sorted[|sorted| - 1];
    }
  }

  /** The first sorted month is not after any month, the last is not before any. */
  lemma SortedEnds(rosters: Dict<string, string>, ks: seq<string>, sorted: seq<string>)
    requires rosters != [] && ks == Keys(rosters) && sorted == SortedMonths(rosters)
    ensures forall i :: 0 <= i < |ks| ==> Le(sorted[0], ks[i]) && Le(ks[i], sorted[|sorted| - 1])
  {
    forall i | 0 <= i < |ks| ensures Le(sorted[0], ks[i]) && Le(ks[i], sorted[|sorted| - 1]) {
      assert ks[i] in multiset(sorted);
      var j :| 0 <= j < |sorted| && sorted[j] == ks[i];
      if 0 < j {
        assert Le(sorted[0], sorted[j]);
      }
      if j < |sorted| - 1 {
        assert Le(sorted[j], sorted[|sorted| - 1]);
      }
    }
  }

  /** A month key splits into its year and month digits, so it is a valid target. */
  lemma MonthKeyParts(d: Date)
    requires Keyable(d)
    ensures Split(MonthKey(d), '-') == [Fixed(d.year, 4), Fixed(d.month, 2)]
    ensures MonthShaped(MonthKey(d))
  {
    DigitsLack(Fixed(d.year, 4), '-');
    DigitsLack(Fixed(d.month, 2), '-');
    SplitTwo(Fixed(d.year, 4), Fixed(d.month, 2), '-');
  }

  /** For a four-digit year the month the source builds is the month's key. */
  lemma NeighbourKey(y: int, m: int)
    requires 1000 <= y <= 9999 && 1 <= m <= 12
    ensures Neighbour(y, m) == MonthKey(Date(y, m, 1))
  {
    assert Pow10(3) == 1000 && Pow10(4) == 10000;
    NatStrFixed(y, 4);
  }

  /**
   * The tiers in calendar terms: the month itself, the month before in the
   * same year, the month after in the same year (January never falls back to
   * December of the year before, nor December forward to January), then the
   * last two tiers.
   */
  lemma FindTiers(y: int, m: int, rosters: Dict<string, string>)
    requires 1000 <= y <= 9999 && 1 <= m <= 12
    ensures var t, ks := MonthKey(Date(y, m, 1)), Keys(rosters);
            var prev, next := MonthKey(Date(y, if m > 1 then m - 1 else 1, 1)),
                              MonthKey(Date(y, if m < 12 then m + 1 else 12, 1));
            MonthShaped(t)
            && FindMatchingRoster(t, rosters)
               == if t in ks then Get(rosters, t)
                  else if m > 1 && prev in ks then Get(rosters, prev)
                  else if m < 12 && next in ks then Get(rosters, next)
                  else if rosters == [] then None
                  else Get(rosters, NearestKey(t, rosters))
  {
    var t, ks := MonthKey(Date(y, m, 1)), Keys(rosters);
    TargetParts(y, m);
    NeighbourKeys(y, m);
    if t in ks {
      assert Get(rosters, t).Some?;
    } else {
      assert Get(rosters, t).None?;
      assert FindMatchingRoster(t, rosters) == Fallback(t, y, m, rosters);
    }
  }

  /** A month key reads back as its year and month. */
  lemma TargetParts(y: int, m: int)
    requires 1000 <= y <= 9999 && 1 <= m <= 12
    ensures var parts := Split(MonthKey(Date(y, m, 1)), '-');
            MonthShaped(MonthKey(Date(y, m, 1))) && Value(parts[0]) == y && Value(parts[1]) == m
  {
    MonthKeyParts(Date(y, m, 1));
    assert Pow10(4) == 10000 && Pow10(2) == 100;
    ValueFixed(y, 4);
    ValueFixed(m, 2);
  }

  /** The month before, as the source builds it, is that month's key. */
  lemma PrevNeighbourKey(y: int, m: int)
    requires 1000 <= y <= 9999 && 2 <= m <= 12
    ensures Neighbour(y, m - 1) == MonthKey(Date(y, m - 1, 1))
  {
    NeighbourKey(y, m - 1);
  }

  /** The month after, as the source builds it, is that month's key. */
  lemma NextNeighbourKey(y: int, m: int)
    requires 1000 <= y <= 9999 && 1 <= m <= 11
    ensures Neighbour(y, m + 1) == MonthKey(Date(y, m + 1, 1))
  {
    NeighbourKey(y, m + 1);
  }

  /** The neighbouring months the source builds are the month keys of the same year. */
  lemma NeighbourKeys(y: int, m: int)
    requires 1000 <= y <= 9999 && 1 <= m <= 12
    ensures m > 1 ==> Neighbour(y, m - 1) == MonthKey(Date(y, m - 1, 1))
    ensures m < 12 ==> Neighbour(y, m + 1) == MonthKey(Date(y, m + 1, 1))
  {
    if m > 1 {
      PrevNeighbourKey(y, m);
    }
    if m < 12 {
      NextNeighbourKey(y, m);
    }
  }

  // ------------------------------------------------ what roster names yield

  /** `YYYY年MM月` is rendered from its two groups. */
  lemma RenderYearMonth(k: nat, year: string, month: string)
    requires k < 2 && |year| == 4 && AllDigits(year) && |month| == 2 - k && AllDigits(month)
    ensures GroupsFit(YearMonthCn[k], [year, month])
    ensures Render(YearMonthCn[k], [year, month]) == year + "年" + month + "月"
  {
    var p, n := YearMonthCn[k], 2 - k;
    var q3: Pattern := [Lit('月')];
    var q2 := [Digits(n)] + q3;
    var q1 := [Lit('年')] + q2;
    assert p == [Digits(4)] + q1;
    assert q3 == [Lit('月')] + [];
    RenderLitFirst('月', [], []);
    assert [month] == [month] + [];
    RenderDigitsFirst(n, q3, month, []);
    RenderLitFirst('年', q2, [month]);
    RenderDigitsFirst(4, q1, year, [month]);
    assert [year, month] == [year] + [month];
  }

  /** `YYYY年M月` does not match the two-digit alternative: its month is followed by `月`. */
  lemma OneDigitMonthNotTwo(name: string, at: nat)
    requires at + 7 <= |name| && name[at + 6] == '月' && name[at + 4] == '年'
    ensures MatchAt(name, at, YearMonthCn[0]).None?
  {
    var p := YearMonthCn[0];
    assert p[1..] == [Lit('年'), Digits(2), Lit('月')] && p[1..][1..] == [Digits(2), Lit('月')];
    assert !AllDigits(name[at + 5..at + 7]) by {
      assert name[at + 5..at + 7][1] == name[at + 6];
    }
    assert MatchAt(name, at + 5, p[1..][1..]).None?;
    assert MatchAt(name, at + 4, p[1..]).None?;
  }

  /**
   * A name with no digit before `YYYY年M月` or `YYYY年MM月` belongs to the
   * month written there, read as integers and printed as `YYYY-MM`.
   */
  lemma RosterMonthCn(prefix: string, year: string, month: string, suffix: string)
    requires |year| == 4 && AllDigits(year) && 1 <= |month| <= 2 && AllDigits(month)
    requires forall j :: 0 <= j < |prefix| ==> !IsDigit(prefix[j])
    ensures ExtractRosterMonth(prefix + year + "年" + month + "月" + suffix) == Some(MonthLabel(year, month))
  {
    var name := prefix + year + "年" + month + "月" + suffix;
    var at := |prefix|;
    var text := year + "年" + month + "月";
    assert name[at..at + |text|] == text;
    CnMatchAt(name, at, year, month);
    assert OpensWithDigits(YearMonthCn);
    SearchAnyAfterPrefix(name, 0, at, YearMonthCn, 2 - |month|, [year, month]);
  }

  /** `YYYY年M月` or `YYYY年MM月` written at `at` is matched there by the pattern for its month width. */
  lemma CnMatchAt(name: string, at: nat, year: string, month: string)
    requires |year| == 4 && AllDigits(year) && 1 <= |month| <= 2 && AllDigits(month)
    requires at + |year + "年" + month + "月"| <= |name|
    requires name[at..at + |year + "年" + month + "月"|] == year + "年" + month + "月"
    ensures MatchAny(name, at, YearMonthCn) == Some((2 - |month|, [year, month]))
  {
    var gs := [year, month];
    var k := 2 - |month|;
    var p := YearMonthCn[k];
    RenderYearMonth(k, year, month);
    RenderMatches(name, at, p, gs);
    if k == 1 {
      assert name[at + 4] == '年' && name[at + 6] == '月';
      OneDigitMonthNotTwo(name, at);
    }
  }

  /**
   * Without `年`, a name with no digit before six digits in a row belongs to
   * the month they spell as `YYYYMM`, whatever that month number is.
   */
  lemma RosterMonthSix(prefix: string, g: string, suffix: string)
    requires |g| == 6 && AllDigits(g)
    requires forall j :: 0 <= j < |prefix| ==> !IsDigit(prefix[j])
    requires Lacks(prefix + g + suffix, '年')
    ensures ExtractRosterMonth(prefix + g + suffix) == Some(MonthLabel(g[..4], g[4..]))
  {
    var name := prefix + g + suffix;
    SearchAnyNeedsLit(name, 0, YearMonthCn, '年');
    assert Widths(SixDigits) == [6];
    assert Render(SixDigits, [g]) == g + Render([], []);
    assert name[|prefix|..|prefix| + 6] == g;
    SearchAfterPrefix(name, 0, |prefix|, SixDigits, [g]);
  }

  /**
   * No month is read exactly when neither form is found: a name without `年`
   * and without six digits in a row yields none, and a name that yields none
   * holds no six digits in a row.
   */
  lemma RosterMonthNone(name: string)
    ensures Lacks(name, '年') && NoDigitRun(name, 6) ==> ExtractRosterMonth(name).None?
    ensures ExtractRosterMonth(name).None? ==> NoDigitRun(name, 6)
  {
    if Lacks(name, '年') && NoDigitRun(name, 6) {
      SearchAnyNeedsLit(name, 0, YearMonthCn, '年');
      SearchNoRun(name, 0, SixDigits);
    }
    if ExtractRosterMonth(name).None? {
      assert Search(name, 0, [SixDigits]).None?;
      SearchLeftmost(name, 0, [SixDigits]);
      forall j: nat | j <= |name| ensures !DigitRunAt(name, j, 6) {
        assert NoMatchAt(name, j, [SixDigits]);
        assert MatchAt(name, j, SixDigits).None?;
      }
    }
  }

  /** `YYYY年M月` or `YYYY年MM月` with a four-digit year gives that month's key. */
  lemma RosterKeyCn(prefix: string, y: int, m: int, month: string, suffix: string)
    requires 1000 <= y <= 9999 && 1 <= m <= 12
    requires 1 <= |month| <= 2 && AllDigits(month) && Value(month) == m
    requires forall j :: 0 <= j < |prefix| ==> !IsDigit(prefix[j])
    ensures ExtractRosterMonth(prefix + Fixed(y, 4) + "年" + month + "月" + suffix) == Some(MonthKey(Date(y, m, 1)))
  {
    RosterMonthCn(prefix, Fixed(y, 4), month, suffix);
    assert Pow10(3) == 1000 && Pow10(4) == 10000;
    ValueFixed(y, 4);
    NatStrFixed(y, 4);
  }

  /**
   * Six digits `YYYYMM` with a four-digit year give `YYYY-MM` for ANY two-digit
   * month, 00 and 13 to 99 included: the month is not validated.
   */
  lemma RosterKeySix(prefix: string, y: int, m: int, suffix: string)
    requires 1000 <= y <= 9999 && 0 <= m <= 99
    requires forall j :: 0 <= j < |prefix| ==> !IsDigit(prefix[j])
    requires Lacks(prefix + Fixed(y, 4) + Fixed(m, 2) + suffix, '年')
    ensures ExtractRosterMonth(prefix + Fixed(y, 4) + Fixed(m, 2) + suffix) == Some(Fixed(y, 4) + "-" + Fixed(m, 2))
    ensures 1 <= m <= 12 ==> ExtractRosterMonth(prefix + Fixed(y, 4) + Fixed(m, 2) + suffix) == Some(MonthKey(Date(y, m, 1)))
  {
    var g := Fixed(y, 4) + Fixed(m, 2);
    assert prefix + Fixed(y, 4) + Fixed(m, 2) + suffix == prefix + g + suffix;
    RosterMonthSix(prefix, g, suffix);
    assert g[..4] == Fixed(y, 4) && g[4..] == Fixed(m, 2);
    assert Pow10(2) == 100 && Pow10(3) == 1000 && Pow10(4) == 10000;
    ValueFixed(y, 4);
    ValueFixed(m, 2);
    NatStrFixed(y, 4);
  }

  // ---------------------------------------------------------------- examples

  /** A roster named in the Chinese form. */
  lemma RosterNameCn(name: string)
    requires name == "2025年12月花名册.xlsx"
    ensures ExtractRosterMonth(name) == Some("2025-12")
  {
    RosterCnPieces(name);
    FixedYear2025();
    assert Value("12") == 12;
    RosterKeyCn("", 2025, 12, "12", "花名册.xlsx");
    assert name == "" + Fixed(2025, 4) + "年" + "12" + "月" + "花名册.xlsx";
    assert ExtractRosterMonth(name) == Some(MonthKey(Date(2025, 12, 1)));
    KeyDec2025();
  }

  lemma KeyDec2025()
    ensures MonthKey(Date(2025, 12, 1)) == "2025-12"
  {
    MonthKey2025(Date(2025, 12, 1));
  }

  lemma RosterCnPieces(name: string)
    requires name == "2025年12月花名册.xlsx"
    ensures name == "" + "2025" + "年" + "12" + "月" + "花名册.xlsx"
  {
  }

  /** A roster named `花名册YYYYMM` with month 13 still yields a key, `2025-13`. */
  lemma RosterNameMonth13(name: string)
    requires name == "花名册202513.xlsx"
    ensures ExtractRosterMonth(name) == Some("2025-13")
  {
    RosterSixPieces(name);
    Key13Of2025();
    assert name == "花名册" + Fixed(2025, 4) + Fixed(13, 2) + ".xlsx";
    assert forall j :: 0 <= j < |"花名册"| ==> !IsDigit("花名册"[j]);
    RosterKeySix("花名册", 2025, 13, ".xlsx");
    assert ExtractRosterMonth(name) == Some(Fixed(2025, 4) + "-" + Fixed(13, 2));
  }

  lemma Key13Of2025()
    ensures Fixed(2025, 4) == "2025" && Fixed(13, 2) == "13"
    ensures Fixed(2025, 4) + "-" + Fixed(13, 2) == "2025-13"
  {
    FixedYear2025();
    FixedTwo(13);
  }

  lemma RosterSixPieces(name: string)
    requires name == "花名册202513.xlsx"
    ensures name == "花名册" + "2025" + "13" + ".xlsx" && Lacks(name, '年')
  {
  }

  // ------------------------------------------------ what the fallback picks

  /** Of two months, the last tiers take the earlier when it is not after `t`, else the later. */
  lemma NearestOfTwo(t: string, ke: string, kl: string, a: string, b: string, rosters: Dict<string, string>)
    requires Lt(ke, kl) && rosters == [(kl, b), (ke, a)]
    ensures NearestKey(t, rosters) == if Le(ke, t) then ke else kl
  {
    var ks, k := Keys(rosters), NearestKey(t, rosters);
    KeysAt(rosters);
    assert ks == [kl, ke];
    NearestIsEarliestOrLatest(t, rosters);
    LtAsymmetric(ke, kl);
    if Le(ke, t) {
      assert Le(k, ks[1]);
    } else {
      if Le(kl, t) { LtTransitive(ke, kl, t); }
      assert Le(ks[1], k);
    }
  }

  /** With no roster for month `m` nor its two neighbours, the last tiers decide. */
  lemma FallbackBeyondNeighbours(y: int, m: int, rosters: Dict<string, string>)
    requires 1000 <= y <= 9999 && 1 <= m <= 12 && rosters != []
    requires forall k :: k in Keys(rosters) ==> !(exists n :: m - 1 <= n <= m + 1 && 1 <= n <= 12 && k == MonthKey(Date(y, n, 1)))
    ensures MonthShaped(MonthKey(Date(y, m, 1)))
            && FindMatchingRoster(MonthKey(Date(y, m, 1)), rosters)
               == Get(rosters, NearestKey(MonthKey(Date(y, m, 1)), rosters))
  {
    FindTiers(y, m, rosters);
    var ks := Keys(rosters);
    assert MonthKey(Date(y, m, 1)) !in ks;
    if m > 1 { assert MonthKey(Date(y, m - 1, 1)) !in ks; }
    if m < 12 { assert MonthKey(Date(y, m + 1, 1)) !in ks; }
  }

  /**
   * With rosters only for two months `e < l` before `m`, neither of them the
   * month just before, month `m` takes the EARLIER one, not the nearer.
   */
  lemma FallbackEarliest(y: int, m: int, e: int, l: int, a: string, b: string, rosters: Dict<string, string>)
    requires 1000 <= y <= 9999 && 1 <= e < l && l + 1 < m <= 12
    requires rosters == [(MonthKey(Date(y, l, 1)), b), (MonthKey(Date(y, e, 1)), a)]
    ensures MonthShaped(MonthKey(Date(y, m, 1)))
            && FindMatchingRoster(MonthKey(Date(y, m, 1)), rosters) == Some(a)
  {
    var t, early, late := Date(y, m, 1), Date(y, e, 1), Date(y, l, 1);
    assert Keys(rosters) == [MonthKey(late), MonthKey(early)];
    forall n | 1 <= n <= 12 && n != e ensures MonthKey(Date(y, n, 1)) != MonthKey(early) {
      MonthKeySame(Date(y, n, 1), early);
    }
    forall n | 1 <= n <= 12 && n != l ensures MonthKey(Date(y, n, 1)) != MonthKey(late) {
      MonthKeySame(Date(y, n, 1), late);
    }
    FallbackBeyondNeighbours(y, m, rosters);
    MonthKeyOrder(early, late);
    MonthKeyOrder(early, t);
    NearestOfTwo(MonthKey(t), MonthKey(early), MonthKey(late), a, b, rosters);
  }

  /**
   * With rosters only for two months `e < l` beyond the month after `m`,
   * month `m` takes the LATER one, not the nearer.
   */
  lemma FallbackLatest(y: int, m: int, e: int, l: int, a: string, b: string, rosters: Dict<string, string>)
    requires 1000 <= y <= 9999 && 1 <= m && m + 1 < e < l <= 12
    requires rosters == [(MonthKey(Date(y, l, 1)), b), (MonthKey(Date(y, e, 1)), a)]
    ensures MonthShaped(MonthKey(Date(y, m, 1)))
            && FindMatchingRoster(MonthKey(Date(y, m, 1)), rosters) == Some(b)
  {
    var t, early, late := Date(y, m, 1), Date(y, e, 1), Date(y, l, 1);
    assert Keys(rosters) == [MonthKey(late), MonthKey(early)];
    forall n | 1 <= n <= 12 && n != e ensures MonthKey(Date(y, n, 1)) != MonthKey(early) {
      MonthKeySame(Date(y, n, 1), early);
    }
    forall n | 1 <= n <= 12 && n != l ensures MonthKey(Date(y, n, 1)) != MonthKey(late) {
      MonthKeySame(Date(y, n, 1), late);
    }
    FallbackBeyondNeighbours(y, m, rosters);
    MonthKeyOrder(early, late);
    MonthKeyOrder(t, early);
    LtAsymmetric(MonthKey(t), MonthKey(early));
    LtIrreflexive(MonthKey(t));
    NearestOfTwo(MonthKey(t), MonthKey(early), MonthKey(late), a, b, rosters);
  }

  /**
   * With no roster for month `m` nor the month before, the month after wins
   * over an earlier month of the same year.
   */
  lemma FallbackNextBeforeEarlier(y: int, m: int, e: int, a: string, b: string, rosters: Dict<string, string>)
    requires 1000 <= y <= 9999 && 1 <= e && e + 1 < m && m < 12
    requires rosters == [(MonthKey(Date(y, e, 1)), a), (MonthKey(Date(y, m + 1, 1)), b)]
    ensures MonthShaped(MonthKey(Date(y, m, 1)))
            && FindMatchingRoster(MonthKey(Date(y, m, 1)), rosters) == Some(b)
  {
    var t, early, prev, next := Date(y, m, 1), Date(y, e, 1), Date(y, m - 1, 1), Date(y, m + 1, 1);
    FindTiers(y, m, rosters);
    assert Keys(rosters) == [MonthKey(early), MonthKey(next)];
    MonthKeySame(t, early);
    MonthKeySame(t, next);
    MonthKeySame(prev, early);
    MonthKeySame(prev, next);
    MonthKeySame(next, early);
  }
}
