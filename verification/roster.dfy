/**
 * Monthly rosters: the active-employee rows of one roster spreadsheet, the
 * per-month employee index built from them, and the cumulative roster index
 * that every processed month updates (scripts/process_roster.py).
 *
 * A spreadsheet cell is an `Option<string>`, `None` standing for an empty
 * cell (pandas NaN). The JSON files are values: `IndexFile` is the content
 * of the roster index file and `MonthFile` that of one month's snapshot.
 */
module Roster {
  import opened Wrappers
  import opened Text
  import opened Dicts

  // ------------------------------------------------------------ rows

  /** One roster row: name, English name, departments 1-3, position, status. */
  datatype RosterRow = RosterRow(
    name: Option<string>, englishName: Option<string>,
    dept1: Option<string>, dept2: Option<string>, dept3: Option<string>,
    position: Option<string>, status: Option<string>)

  datatype EmployeeRecord = EmployeeRecord(
    name: string, englishName: string,
    dept1: string, dept2: string, dept3: string,
    position: string, status: string)

  /** The statuses that count as employed. */
  const ActiveStatuses: seq<string> := ["在职", "试用期", "正式", "实习", "contractor"]

  /** A status containing this word counts as employed as well. */
  const OnDuty: string := "在职"

  /** The row filter on the raw status cell: a listed status, or one containing `在职`; an empty cell never passes. */
  predicate IsActive(status: Option<string>) {
    status.Some? && (status.value in ActiveStatuses || Contains(status.value, OnDuty))
  }

  /** `str(cell).strip()`: an empty cell reads as the text "nan". */
  function CellText(c: Option<string>): string {
    Strip(if c.Some? then c.value else "nan")
  }

  /** `str(cell).strip()` for a filled cell, "" for an empty one. */
  function OptionalText(c: Option<string>): string {
    if c.Some? then Strip(c.value) else ""
  }

  /** The record built from a row. */
  function ToRecord(row: RosterRow): EmployeeRecord {
    EmployeeRecord(CellText(row.name), OptionalText(row.englishName),
      CellText(row.dept1), OptionalText(row.dept2), OptionalText(row.dept3),
      OptionalText(row.position), CellText(row.status))
  }

  /** A record is kept only when its name is neither empty nor "nan". */
  predicate Named(rec: EmployeeRecord) {
    rec.name != "" && rec.name != "nan"
  }

  /** The rows that contribute a record. */
  predicate Kept(row: RosterRow) {
    IsActive(row.status) && Named(ToRecord(row))
  }

  /** `rec` is named and is the record of an active row of `rows`. */
  predicate FromActive(rows: seq<RosterRow>, rec: EmployeeRecord) {
    Named(rec) && exists row :: row in rows && IsActive(row.status) && rec == ToRecord(row)
  }

  /** The records of the active, named rows, in row order. */
  function ActiveRecords(rows: seq<RosterRow>): (records: seq<EmployeeRecord>)
    ensures |records| <= |rows|
    ensures forall r :: r in records ==> FromActive(rows, r)
  {
    if rows == [] then []
    else
      var init := ActiveRecords(rows[..|rows| - 1]);
      var last := rows[|rows| - 1];
      FromActiveSnoc(rows);
      init + (if Kept(last) then [ToRecord(last)] else [])
  }

  /** A record of the rows before the last is one of all the rows, and so is the last row's if it is kept. */
  lemma FromActiveSnoc(rows: seq<RosterRow>)
    requires rows != []
    ensures forall r :: FromActive(rows[..|rows| - 1], r) ==> FromActive(rows, r)
    ensures Kept(rows[|rows| - 1]) ==> FromActive(rows, ToRecord(rows[|rows| - 1]))
  {
    assert forall row :: row in rows[..|rows| - 1] ==> row in rows;
  }

  /** Every active, named row contributes its record. */
  lemma {:induction false} ActiveRecordsComplete(rows: seq<RosterRow>, row: RosterRow)
    requires row in rows && Kept(row)
    ensures ToRecord(row) in ActiveRecords(rows)
  {
    var init := rows[..|rows| - 1];
    if row != rows[|rows| - 1] {
      assert row in init;
      ActiveRecordsComplete(init, row);
    }
  }

  /** A row whose name cell is empty reads as "nan" and is dropped. */
  lemma EmptyNameDropped(row: RosterRow)
    requires row.name.None?
    ensures !Kept(row)
  {
    NanStrip();
  }

  lemma NanStrip()
    ensures Strip("nan") == "nan"
  {
    LetterNotSpace('n');
    LetterNotSpace('a');
    assert SpaceEnd("nan", 0) == 0;
    assert SpaceStart("nan", 0, 3) == 3;
    assert "nan"[0..3] == "nan";
  }

  /** The listed statuses pass the filter as they are. */
  lemma ListedStatusesActive(s: string)
    requires s in ActiveStatuses
    ensures IsActive(Some(s))
  {
  }

  /** Filtering the rows and building their records, one row at a time. */
  method ActiveEmployeeRecords(rows: seq<RosterRow>) returns (records: seq<EmployeeRecord>)
    ensures records == ActiveRecords(rows)
  {
    records := [];
    for i := 0 to |rows|
      invariant records == ActiveRecords(rows[..i])
    {
      assert rows[..i + 1][..i] == rows[..i];
      if IsActive(rows[i].status) {
        var rec := ToRecord(rows[i]);
        if Named(rec) {
          records := records + [rec];
        }
      }
    }
    assert rows[..|rows|] == rows;
  }

  // ------------------------------------------------------------ employee index

  /** What the employee index keeps of a record. */
  datatype EmployeeInfo = EmployeeInfo(dept1: string, dept2: string, dept3: string, position: string, status: string)

  function InfoOf(rec: EmployeeRecord): EmployeeInfo {
    EmployeeInfo(rec.dept1, rec.dept2, rec.dept3, rec.position, rec.status)
  }

  /** The index `{name: info}` written record by record. */
  function IndexOf(records: seq<EmployeeRecord>): Dict<string, EmployeeInfo> {
    if records == [] then []
    else
      var last := records[|records| - 1];
      Put(IndexOf(records[..|records| - 1]), last.name, InfoOf(last))
  }

  function NameSet(records: seq<EmployeeRecord>): set<string> {
    set r | r in records :: r.name
  }

  /** The info of the last record carrying `name`, None when no record does. */
  function LastInfo(records: seq<EmployeeRecord>, name: string): (r: Option<EmployeeInfo>)
    ensures r.None? <==> name !in NameSet(records)
    ensures r.Some? ==> exists rec :: rec in records && rec.name == name && r.value == InfoOf(rec)
  {
    if records == [] then None
    else
      var last := records[|records| - 1];
      var init := records[..|records| - 1];
      assert records == init + [last];
      if last.name == name then Some(InfoOf(last)) else LastInfo(init, name)
  }

  /** The index has exactly the records' names as keys, once each, and every name maps to its last record. */
  lemma {:induction false} IndexLastWins(records: seq<EmployeeRecord>)
    ensures DistinctKeys(IndexOf(records))
    ensures forall n :: n in Keys(IndexOf(records)) <==> n in NameSet(records)
    ensures forall n :: Get(IndexOf(records), n) == LastInfo(records, n)
  {
    if records != [] {
      var last := records[|records| - 1];
      var init := records[..|records| - 1];
      assert records == init + [last];
      IndexLastWins(init);
      var d := IndexOf(init);
      PutDistinct(d, last.name, InfoOf(last));
      PutKeys(d, last.name, InfoOf(last));
      assert NameSet(records) == NameSet(init) + {last.name};
      forall n | n != last.name
        ensures Get(IndexOf(records), n) == LastInfo(records, n)
      {
        PutOther(d, last.name, InfoOf(last), n);
      }
    }
  }

  /** The index has one entry per distinct name. */
  lemma {:induction false} IndexCount(records: seq<EmployeeRecord>)
    ensures |IndexOf(records)| == |NameSet(records)|
  {
    if records != [] {
      var last := records[|records| - 1];
      var init := records[..|records| - 1];
      assert records == init + [last];
      IndexCount(init);
      IndexLastWins(init);
      var d := IndexOf(init);
      PutKeys(d, last.name, InfoOf(last));
      assert NameSet(records) == NameSet(init) + {last.name};
      assert |Keys(IndexOf(records))| == |IndexOf(records)|;
    }
  }

  /** Python `build_employee_index`: one assignment `index[name] = info` per record. */
  method BuildEmployeeIndex(records: seq<EmployeeRecord>) returns (index: Dict<string, EmployeeInfo>)
    ensures index == IndexOf(records)
  {
    index := [];
    for i := 0 to |records|
      invariant index == IndexOf(records[..i])
    {
      assert records[..i + 1][..i] == records[..i];
      index := Put(index, records[i].name, InfoOf(records[i]));
    }
    assert records[..|records|] == records;
  }

  // ------------------------------------------------------------ roster index

  /** The roster index's entry for one month; the processing time is not modelled. */
  datatype MonthEntry = MonthEntry(file: string, count: nat)

  /** A cumulative employee entry; `latestRecord` may be missing from a stored file. */
  datatype Employee = Employee(dept1: string, dept2: string, dept3: string, latestRecord: Option<string>)

  /** The roster index file: either top-level key may be missing. */
  datatype IndexFile = IndexFile(months: Option<map<string, MonthEntry>>, allEmployees: Option<map<string, Employee>>)

  /** One month's snapshot file; its `employees` key may be missing. */
  datatype MonthFile = MonthFile(employees: Option<Dict<string, EmployeeInfo>>)

  /** The month an entry was last refreshed from, "" when it is not recorded. */
  function Latest(e: Employee): string {
    e.latestRecord.GetOr("")
  }

  /** A snapshot entry for `name` applied to the cumulative view: new names are inserted, known ones refreshed only by a month not older than theirs. */
  function Merge(all: map<string, Employee>, name: string, info: EmployeeInfo, month: string): map<string, Employee> {
    if name !in all then all[name := Employee(info.dept1, info.dept2, info.dept3, Some(month))]
    else if Le(Latest(all[name]), month) then
      all[name := all[name].(dept1 := info.dept1, dept2 := info.dept2, dept3 := info.dept3, latestRecord := Some(month))]
    else all
  }

  /** The snapshot's entries merged in iteration order: no name is removed and the snapshot's names are added. */
  function MergeAll(all: map<string, Employee>, snapshot: Dict<string, EmployeeInfo>, month: string): (r: map<string, Employee>)
    ensures r.Keys == all.Keys + set i | 0 <= i < |snapshot| :: snapshot[i].0
  {
    if snapshot == [] then all
    else
      var init := snapshot[..|snapshot| - 1];
      var last := snapshot[|snapshot| - 1];
      assert (set i | 0 <= i < |snapshot| :: snapshot[i].0) == (set i | 0 <= i < |init| :: init[i].0) + {last.0} by {
        assert forall i :: 0 <= i < |init| ==> init[i] == snapshot[i];
      }
      Merge(MergeAll(all, init, month), last.0, last.1, month)
  }

  /** The new entry of a name of the snapshot, from its old entry alone. */
  function Refreshed(old_: Option<Employee>, info: EmployeeInfo, month: string): (e: Employee)
    ensures old_.Some? && !Le(Latest(old_.value), month) ==> e == old_.value
    ensures (old_.None? || Le(Latest(old_.value), month)) ==>
      e.latestRecord == Some(month) && (e.dept1, e.dept2, e.dept3) == (info.dept1, info.dept2, info.dept3)
  {
    if old_.None? then Employee(info.dept1, info.dept2, info.dept3, Some(month))
    else if Le(Latest(old_.value), month) then
      old_.value.(dept1 := info.dept1, dept2 := info.dept2, dept3 := info.dept3, latestRecord := Some(month))
    else old_.value
  }

  function Lookup(all: map<string, Employee>, name: string): Option<Employee> {
    if name in all then Some(all[name]) else None
  }

  /** One merge step: the merged name gets its refreshed entry, every other name keeps its own. */
  lemma MergeLookup(all: map<string, Employee>, name: string, info: EmployeeInfo, month: string, n: string)
    ensures Lookup(Merge(all, name, info, month), n) == if n == name then Some(Refreshed(Lookup(all, n), info, month)) else Lookup(all, n)
  {
  }

  /** A name the snapshot does not list keeps its entry, or stays absent. */
  lemma {:induction false} MergeAllOutside(all: map<string, Employee>, snapshot: Dict<string, EmployeeInfo>, month: string, n: string)
    requires forall i :: 0 <= i < |snapshot| ==> snapshot[i].0 != n
    ensures Lookup(MergeAll(all, snapshot, month), n) == Lookup(all, n)
  {
    if snapshot != [] {
      var init := snapshot[..|snapshot| - 1];
      assert forall i :: 0 <= i < |init| ==> init[i] == snapshot[i];
      MergeAllOutside(all, init, month, n);
      var last := snapshot[|snapshot| - 1];
      MergeLookup(MergeAll(all, init, month), last.0, last.1, month, n);
    }
  }

  /** With distinct names, each snapshot name ends with the entry `Refreshed` computes from its old one. */
  lemma {:induction false} MergeAllAt(all: map<string, Employee>, snapshot: Dict<string, EmployeeInfo>, month: string, i: nat)
    requires DistinctKeys(snapshot) && i < |snapshot|
    ensures Lookup(MergeAll(all, snapshot, month), snapshot[i].0) == Some(Refreshed(Lookup(all, snapshot[i].0), snapshot[i].1, month))
  {
    var init := snapshot[..|snapshot| - 1];
    var last := snapshot[|snapshot| - 1];
    assert forall k :: 0 <= k < |init| ==> init[k] == snapshot[k];
    var n := snapshot[i].0;
    MergeLookup(MergeAll(all, init, month), last.0, last.1, month, n);
    if i == |snapshot| - 1 {
      MergeAllOutside(all, init, month, last.0);
    } else {
      assert DistinctKeys(init);
      MergeAllAt(all, init, month, i);
      assert n != last.0;
    }
  }

  /** After merging, every snapshot name's latest month is recorded and not older than `month`. */
  lemma LatestAtLeastMonth(all: map<string, Employee>, snapshot: Dict<string, EmployeeInfo>, month: string, i: nat)
    requires DistinctKeys(snapshot) && i < |snapshot|
    ensures var e := MergeAll(all, snapshot, month)[snapshot[i].0];
      e.latestRecord.Some? && Le(month, e.latestRecord.value)
  {
    MergeAllAt(all, snapshot, month, i);
    var o := Lookup(all, snapshot[i].0);
    if o.Some? && !Le(Latest(o.value), month) {
      LtTotal(Latest(o.value), month);
    }
  }

  /**
   * Two monthly snapshots that both list a name reach the same entry for it in
   * either order: the newer month's departments and the newer month.
   */
  lemma NewerMonthWins(all: map<string, Employee>, older: Dict<string, EmployeeInfo>, newer: Dict<string, EmployeeInfo>,
                       a: string, b: string, i: nat, j: nat)
    requires DistinctKeys(older) && DistinctKeys(newer) && Lt(a, b)
    requires i < |older| && j < |newer| && older[i].0 == newer[j].0
    requires older[i].0 !in all || Le(Latest(all[older[i].0]), a)
    ensures MergeAll(MergeAll(all, older, a), newer, b)[newer[j].0] == MergeAll(MergeAll(all, newer, b), older, a)[newer[j].0]
    ensures var e := MergeAll(MergeAll(all, older, a), newer, b)[newer[j].0];
      e.latestRecord == Some(b) && (e.dept1, e.dept2, e.dept3) == (newer[j].1.dept1, newer[j].1.dept2, newer[j].1.dept3)
  {
    MergeAllAt(all, older, a, i);
    MergeAllAt(MergeAll(all, older, a), newer, b, j);
    MergeAllAt(all, newer, b, j);
    MergeAllAt(MergeAll(all, newer, b), older, a, i);
    assert Le(a, b);
    assert !Le(b, a) by { LtAsymmetric(a, b); LtIrreflexive(a); }
    if older[i].0 in all {
      LeTransitive(Latest(all[older[i].0]), a, b);
    }
  }

  /** The roster index being updated: its `months` and `allEmployees` maps. */
  class RosterIndex {
    var months: map<string, MonthEntry>
    var allEmployees: map<string, Employee>

    /** The index as read: empty when the file is missing or unreadable, a missing key read as `{}`. */
    constructor (stored: Option<IndexFile>)
      ensures stored.None? ==> months == map[] && allEmployees == map[]
      ensures stored.Some? ==> months == stored.value.months.GetOr(map[]) && allEmployees == stored.value.allEmployees.GetOr(map[])
    {
      if stored.Some? {
        months := stored.value.months.GetOr(map[]);
        allEmployees := stored.value.allEmployees.GetOr(map[]);
      } else {
        months := map[];
        allEmployees := map[];
      }
    }

    /** What is written back to the index file. */
    function Saved(): (f: IndexFile)
      reads this
      ensures f.months == Some(months) && f.allEmployees == Some(allEmployees)
    {
      IndexFile(Some(months), Some(allEmployees))
    }

    /**
     * Python `update_roster_index`, without the file round trip: records the
     * month's file and head count, then merges the month's employee index
     * into `allEmployees`, name by name.
     */
    method UpdateRosterIndex(month: string, filename: string, employeeIndex: Dict<string, EmployeeInfo>)
      requires DistinctKeys(employeeIndex)
      modifies this
      ensures months == old(months)[month := MonthEntry(filename, |employeeIndex|)]
      ensures allEmployees == MergeAll(old(allEmployees), employeeIndex, month)
    {
      months := months[month := MonthEntry(filename, |employeeIndex|)];
      for i := 0 to |employeeIndex|
        invariant months == old(months)[month := MonthEntry(filename, |employeeIndex|)]
        invariant allEmployees == MergeAll(old(allEmployees), employeeIndex[..i], month)
      {
        assert employeeIndex[..i + 1][..i] == employeeIndex[..i];
        var (name, info) := employeeIndex[i];
        if name !in allEmployees {
          allEmployees := allEmployees[name := Employee(info.dept1, info.dept2, info.dept3, Some(month))];
        } else if Le(Latest(allEmployees[name]), month) {
          var e := allEmployees[name];
          allEmployees := allEmployees[name := e.(dept1 := info.dept1, dept2 := info.dept2, dept3 := info.dept3, latestRecord := Some(month))];
        }
      }
      assert employeeIndex[..|employeeIndex|] == employeeIndex;
    }
  }

  /** The month count recorded for an index built from records is their number of distinct names. */
  lemma MonthCount(records: seq<EmployeeRecord>)
    ensures DistinctKeys(IndexOf(records)) && |IndexOf(records)| == |NameSet(records)|
  {
    IndexLastWins(records);
    IndexCount(records);
  }

  // ------------------------------------------------------------ loading

  /** What `load_employee_index` returns: one month's snapshot or the cumulative view. */
  datatype Loaded = ByMonth(employees: Dict<string, EmployeeInfo>) | Cumulative(all: map<string, Employee>)

  /**
   * Python `load_employee_index`: nothing without an index file; a non-empty
   * month with a snapshot file gives that snapshot's employees; otherwise the
   * index's `allEmployees`, `{}` when the key is missing.
   */
  function LoadEmployeeIndex(index: Option<IndexFile>, month: Option<string>, monthFiles: map<string, MonthFile>): (r: Loaded)
    ensures index.None? ==> r == Cumulative(map[])
    ensures index.Some? && month.Some? && month.value != "" && month.value in monthFiles ==>
      r == ByMonth(monthFiles[month.value].employees.GetOr([]))
    ensures index.Some? && (month.None? || month.value == "" || month.value !in monthFiles) ==>
      r == Cumulative(index.value.allEmployees.GetOr(map[]))
  {
    if index.None? then Cumulative(map[])
    else if month.Some? && month.value != "" && month.value in monthFiles then
      ByMonth(monthFiles[month.value].employees.GetOr([]))
    else Cumulative(index.value.allEmployees.GetOr(map[]))
  }
}
