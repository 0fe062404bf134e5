/**
 * What the three vendor extractors share: reading one spreadsheet row, the
 * passenger column with its fallback, the checks that tell a passenger from
 * a date, a header or a total line, amounts with their fallback columns,
 * route splitting and the roster lookup of a department.
 *
 * A row is the list of its cells in column order (pandas `row.iloc[k]`); an
 * empty cell (NaN) is `None`, any other cell is the text `str()` gives for
 * it. Amounts are whole cents; `num` stands for Python's `float()` applied to
 * a cell's text, `None` where it raises.
 */
module Rows {
  import opened Wrappers
  import opened Text
  import opened Dicts
  import Roster

  type Row = seq<Option<string>>

  /** The cell in column `k` is present and not NaN (`len(row) > k and pd.notna(row.iloc[k])`). */
  predicate Present(row: Row, k: nat) { k < |row| && row[k].Some? }

  /** `str(row.iloc[k]) if len(row) > k and pd.notna(row.iloc[k]) else ''`. */
  function TextAt(row: Row, k: nat): string {
    if Present(row, k) then row[k].value else ""
  }

  /** The cell in column `k`, None when it is NaN or the row is shorter (the optional `orderNo` key). */
  function CellAt(row: Row, k: nat): Option<string> {
    if k < |row| then row[k] else None
  }

  /** A text the extractors accept as a value: neither empty nor the text of a NaN cell. */
  predicate Given(s: string) { s != "" && s != "nan" }

  // ------------------------------------------------------------ people

  /** The cell in column `k` holds a name: it is present and not blank (`pd.isna(x) or str(x).strip() == ''` fails). */
  predicate Filled(row: Row, k: nat) { Present(row, k) && Strip(row[k].value) != "" }

  /** A name as the extractors keep it: not empty and with no white space at either end. */
  predicate Trimmed(s: string) { s != "" && Strip(s) == s }

  /**
   * The stripped name in column `first`, or in column `second` when `first`
   * is blank; None when both are blank.
   */
  function NameFrom(row: Row, first: nat, second: nat): (r: Option<string>)
    ensures r.Some? <==> Filled(row, first) || Filled(row, second)
    ensures r.Some? ==> Trimmed(r.value)
    ensures Filled(row, first) ==> r == Some(Strip(row[first].value))
    ensures !Filled(row, first) && Filled(row, second) ==> r == Some(Strip(row[second].value))
  {
    if Filled(row, first) then
      StripIdempotent(row[first].value);
      Some(Strip(row[first].value))
    else if Filled(row, second) then
      StripIdempotent(row[second].value);
      Some(Strip(row[second].value))
    else None
  }

  /** The header and total words every flight extractor refuses as a passenger. */
  const TotalWords: seq<string> := ["小计", "合计", "总计", "汇总", "平均值"]

  /**
   * The flight extractors' test that a passenger text is not a person: it
   * starts with "202" or "20" or holds two hyphens (a date), it is one of
   * `words`, or it is made of digits only.
   */
  predicate NotAPassenger(p: string, words: seq<string>) {
    StartsWith(p, "202") || StartsWith(p, "20") || CountChar(p, '-') >= 2 || p in words || IsDigitString(p)
  }

  /** The "202" test adds nothing: every text it catches starts with "20". */
  lemma DatePrefix(p: string, words: seq<string>)
    ensures NotAPassenger(p, words) <==> StartsWith(p, "20") || CountChar(p, '-') >= 2 || p in words || IsDigitString(p)
  {
    if StartsWith(p, "202") {
      assert p[..2] == p[..3][..2];
    }
  }

  /** A text in which a hyphen occurs counts at least one hyphen. */
  lemma {:induction false} CountCharPositive(s: string, c: char)
    requires c in s
    ensures CountChar(s, c) >= 1
  {
    if s[0] != c {
      assert c in s[1..];
      CountCharPositive(s[1..], c);
    }
  }

  /** A date in ISO form, "YYYY-MM-DD", is never taken for a passenger, whatever the word list. */
  lemma IsoDateNotAPassenger(p: string, words: seq<string>)
    requires |p| == 10 && p[4] == '-' && p[7] == '-'
    ensures NotAPassenger(p, words)
  {
    CountCharSplit(p, 5, '-');
    assert '-' in p[..5] by { assert p[..5][4] == '-'; }
    assert '-' in p[5..] by { assert p[5..][2] == '-'; }
    CountCharPositive(p[..5], '-');
    CountCharPositive(p[5..], '-');
  }

  // ------------------------------------------------------------ amounts

  /** `float(row.iloc[k])` when the cell is present and parses; None otherwise. */
  function ParsedAt(row: Row, k: nat, num: string -> Option<int>): Option<int> {
    if Present(row, k) then num(row[k].value) else None
  }

  /** `x = 0; if present: try x = float(row.iloc[k]) except: pass`. */
  function AmountAt(row: Row, k: nat, num: string -> Option<int>): int {
    ParsedAt(row, k, num).GetOr(0)
  }

  /**
   * The amount in column `first`; only when that cell is present but does not
   * parse, the amount in column `second`; 0 when `first` is empty.
   */
  function AmountOrFallback(row: Row, first: nat, second: nat, num: string -> Option<int>): int {
    if !Present(row, first) then 0
    else match num(row[first].value)
      case Some(v) => v
      case None => AmountAt(row, second, num)
  }

  /**
   * The fallback column is consulted only when the first column is present and
   * fails to parse; otherwise the amount is that of the first column alone.
   */
  lemma FallbackOnlyOnParseFailure(row: Row, first: nat, second: nat, num: string -> Option<int>)
    ensures Present(row, first) && num(row[first].value).None? ==> AmountOrFallback(row, first, second, num) == AmountAt(row, second, num)
    ensures !(Present(row, first) && num(row[first].value).None?) ==> AmountOrFallback(row, first, second, num) == AmountAt(row, first, num)
    ensures !Present(row, first) ==> AmountOrFallback(row, first, second, num) == 0
  {
  }

  /** Python `abs`. */
  function Abs(x: int): (a: int)
    ensures a >= 0 && (a == x || a == -x)
  {
    if x < 0 then -x else x
  }

  // ------------------------------------------------------------ routes

  /**
   * The two cities of a route such as "深圳-北京": the stripped texts before the
   * first hyphen and between the first and the second; both '' when the route
   * has no hyphen.
   */
  function RouteCities(route: string): (cities: (string, string))
    ensures '-' !in route ==> cities == ("", "")
    ensures '-' in route ==> cities.0 == Strip(TextBefore(route, '-'))
  {
    if '-' in route then
      TextBeforeIsFirstPart(route, '-');
      var parts := Split(route, '-');
      CountCharPositive(route, '-');
      (if |parts| > 0 then Strip(parts[0]) else "", if |parts| > 1 then Strip(parts[1]) else "")
    else ("", "")
  }

  /** A route written as two names around one hyphen gives back those two names, stripped. */
  lemma RouteOfTwo(a: string, b: string)
    requires '-' !in a && '-' !in b
    ensures RouteCities(a + "-" + b) == (Strip(a), Strip(b))
  {
    assert a + "-" + b == a + ['-'] + b;
    assert Lacks(a, '-') && Lacks(b, '-');
    SplitTwo(a, b, '-');
    assert '-' in a + "-" + b by { assert (a + "-" + b)[|a|] == '-'; }
  }

  /** Both cities of a split route are free of hyphens and of white space at their ends. */
  lemma RouteCitiesTrimmed(route: string)
    ensures '-' !in RouteCities(route).0 && '-' !in RouteCities(route).1
    ensures Strip(RouteCities(route).0) == RouteCities(route).0 && Strip(RouteCities(route).1) == RouteCities(route).1
  {
    if '-' in route {
      var parts := Split(route, '-');
      CountCharPositive(route, '-');
      StripIdempotent(parts[0]);
      StripIdempotent(parts[1]);
      StripLacks(parts[0], '-');
      StripLacks(parts[1], '-');
    }
  }

  /** A text that neither starts nor ends with white space is left as it is by stripping. */
  lemma StripUnpadded(s: string)
    requires s != [] && !IsSpace(s[0]) && !IsSpace(s[|s| - 1])
    ensures Strip(s) == s
  {
    assert SpaceEnd(s, 0) == 0;
    assert SpaceStart(s, 0, |s|) == |s|;
    assert s[0..|s|] == s;
  }

  /** `f'{date} {time}'.strip()`: a date and a time joined by one space, stripped. */
  function Joined(date: string, time: string): string {
    Strip(date + " " + time)
  }

  /**
   * Joining keeps a trimmed date and time as they are with one space between
   * them, and a trimmed date alone when the time is empty.
   */
  lemma JoinedParts(date: string, time: string)
    requires Trimmed(date)
    ensures Trimmed(time) ==> Joined(date, time) == date + " " + time
    ensures time == "" ==> Joined(date, time) == date
  {
    var r := Strip(date);
    assert !IsSpace(date[0]) && !IsSpace(date[|date| - 1]);
    var s := date + " " + time;
    if Trimmed(time) {
      var t := Strip(time);
      assert !IsSpace(time[|time| - 1]);
      assert s[|s| - 1] == time[|time| - 1];
      StripUnpadded(s);
    }
    if time == "" {
      OneOfIn(' ', SpaceChars);
      assert SpaceEnd(s, 0) == 0;
      assert SpaceStart(s, 0, |s|) == SpaceStart(s, 0, |date|) == |date|;
      assert s[0..|date|] == date;
    }
  }

  /** Stripping cannot bring in a character that was not there. */
  lemma StripLacks(s: string, c: char)
    requires Lacks(s, c)
    ensures c !in Strip(s)
  {
    var r := Strip(s);
    var i: nat, j: nat :| SpaceOutside(s, i, j) && r == s[i..j];
    assert forall k :: 0 <= k < |r| ==> r[k] == s[i + k];
  }

  // ------------------------------------------------------------ roster

  /** The department levels an extractor copies into a record. */
  datatype Dept = Dept(level1: string, level2: string)

  /**
   * `roster_index.get(name, {})` read for `deptLevel1` and `deptLevel2`, on
   * either view `load_employee_index` returns; '' for both when the name is
   * not on the roster.
   */
  function DeptOf(index: Roster.Loaded, name: string): Dept
  {
    match index
    case ByMonth(emps) =>
      (match Get(emps, name)
       case Some(info) => Dept(info.dept1, info.dept2)
       case None => Dept("", ""))
    case Cumulative(all) =>
      if name in all then Dept(all[name].dept1, all[name].dept2) else Dept("", "")
  }

  /** A name the roster does not list gets empty department levels, not a missing key. */
  lemma UnlistedDept(index: Roster.Loaded, name: string)
    requires (index.ByMonth? && name !in Keys(index.employees)) || (index.Cumulative? && name !in index.all)
    ensures DeptOf(index, name) == Dept("", "")
  {
  }
}
