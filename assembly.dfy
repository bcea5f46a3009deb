/**
  * The post-solve assembly of the weekly timetable (optimize.py, lines
  * 116-171): a raw (weekday, timeslot, room) -> department table built from
  * the solved X, row blocks cut from it with merged "Mon & Wed" and
  * "Tue & Thur" rows, and the final sort by label and timeslot.
  *
  * A department is shown by its position in the department order, a
  * timeslot by its position in the timeslot sequence, and the columns of
  * every row are the classrooms in their input order.
  */
module Assembly {
  import opened Wrappers
  import opened Formulation

  /** The row labels of the timetable. */
  datatype Label = MonWed | Mon | Wed | TueThur | Tue | Thur | Fri

  /** The category order the rows are sorted by (line 157). */
  const LabelOrder: seq<string> := ["Mon & Wed", "Mon", "Wed", "Tue & Thur", "Tue", "Thur", "Fri"]

  /** The text written into the label column (lines 132-152). */
  function LabelText(l: Label): string {
    match l
    case MonWed => "Mon & Wed"
    case Mon => "Mon"
    case Wed => "Wed"
    case TueThur => "Tue & Thur"
    case Tue => "Tue"
    case Thur => "Thur"
    case Fri => "Fri"
  }

  /** The position of a label among the categories of line 157. */
  function Rank(l: Label): nat {
    match l
    case MonWed => 0
    case Mon => 1
    case Wed => 2
    case TueThur => 3
    case Tue => 4
    case Thur => 5
    case Fri => 6
  }

  /** Rank is the position of the label's text in the category list, and no two labels share it. */
  lemma RankIsCategoryPosition(l: Label)
    ensures Rank(l) < |LabelOrder| && LabelOrder[Rank(l)] == LabelText(l)
    ensures forall m: Label :: LabelOrder[Rank(l)] == LabelText(m) ==> m == l
  {
  }

  /** The weekday whose raw-table row a label shows. */
  function SourceDay(l: Label): (c: int)
    ensures IsWeekday(c)
  {
    match l
    case MonWed => 1
    case Mon => 1
    case TueThur => 2
    case Tue => 2
    case Wed => 3
    case Thur => 4
    case Fri => 5
  }

  /** Whether the timetable for nSlots timeslots has a row (l, t). */
  predicate Displayed(l: Label, t: int, nSlots: int) {
    0 <= t < nSlots &&
    match l
    case MonWed => t < nSlots - 1
    case TueThur => t < nSlots - 1
    case Fri => true
    case _ => t == nSlots - 1
  }

  /** One timetable row: its label, its timeslot and one cell per classroom. */
  datatype Row = Row(weekday: Label, slot: int, cells: seq<Option<int>>)

  /** The raw table: (weekday, timeslot, room) -> department; an absent key is an empty cell. */
  type RawTable = map<(int, int, int), int>

  function Lookup(raw: RawTable, c: int, t: int, r: int): Option<int> {
    if (c, t, r) in raw then Some(raw[(c, t, r)]) else None
  }

  /**
    * What the loop at lines 117-123 leaves in cell (c, t, r) after the first
    * n departments: the last of them assigned there, or empty.
    */
  function RawCell(X: Assignment, n: int, c: int, t: int, r: int): (o: Option<int>)
    ensures o.Some? ==> 0 <= o.value < n && X(o.value, t, r, c)
    ensures o.Some? ==> forall d :: o.value < d < n ==> !X(d, t, r, c)
    ensures o.None? <==> forall d :: 0 <= d < n ==> !X(d, t, r, c)
    decreases n
  {
    if n <= 0 then None
    else if X(n - 1, t, r, c) then Some(n - 1)
    else RawCell(X, n - 1, c, t, r)
  }

  /** The raw-table row of weekday c and timeslot t, over all classrooms. */
  function RawCells(inst: Instance, X: Assignment, c: int, t: int): seq<Option<int>> {
    seq(|inst.isBig|, r => RawCell(X, inst.nDepts, c, t, r))
  }

  predicate InTable(inst: Instance, c: int, t: int, r: int) {
    IsWeekday(c) && IsSlot(inst, t) && IsRoom(inst, r)
  }

  /** Whether cell (c', t', r') comes before (c, t, r) in the loop order t, c, r. */
  ghost predicate Before(t': int, c': int, r': int, t: int, c: int, r: int) {
    t' < t || (t' == t && (c' < c || (c' == c && r' < r)))
  }

  /** Cells before (c, t, r) already hold department d's pass; the others still the previous one. */
  ghost predicate FilledUpTo(inst: Instance, X: Assignment, raw: RawTable, d: int, t: int, c: int, r: int) {
    (forall k :: k in raw ==> InTable(inst, k.0, k.1, k.2)) &&
    forall c', t', r' :: InTable(inst, c', t', r') ==>
      Lookup(raw, c', t', r') == RawCell(X, if Before(t', c', r', t, c, r) then d + 1 else d, c', t', r')
  }

  /** Filling cell (c, t, r) for department d moves the frontier one room on. */
  lemma FillCell(inst: Instance, X: Assignment, raw: RawTable, d: int, t: int, c: int, r: int)
    requires FilledUpTo(inst, X, raw, d, t, c, r)
    requires 0 <= d && InTable(inst, c, t, r)
    ensures X(d, t, r, c) ==> FilledUpTo(inst, X, raw[(c, t, r) := d], d, t, c, r + 1)
    ensures !X(d, t, r, c) ==> FilledUpTo(inst, X, raw, d, t, c, r + 1)
  {
  }

  /** Two frontiers that split the table into the same visited and unvisited cells are interchangeable. */
  lemma MoveFrontier(inst: Instance, X: Assignment, raw: RawTable,
                     d: int, t: int, c: int, r: int, d2: int, t2: int, c2: int, r2: int)
    requires FilledUpTo(inst, X, raw, d, t, c, r)
    requires forall c', t', r' :: InTable(inst, c', t', r') ==>
      (if Before(t', c', r', t, c, r) then d + 1 else d) == (if Before(t', c', r', t2, c2, r2) then d2 + 1 else d2)
    ensures FilledUpTo(inst, X, raw, d2, t2, c2, r2)
  {
  }

  /** Lines 117-123: every true X[d, t, r, c] writes d into cell (c, t, r), in department order. */
  method BuildRawTable(inst: Instance, X: Assignment) returns (raw: RawTable)
    ensures forall k :: k in raw ==> InTable(inst, k.0, k.1, k.2)
    ensures forall c, t, r :: InTable(inst, c, t, r) ==> Lookup(raw, c, t, r) == RawCell(X, inst.nDepts, c, t, r)
  {
    raw := map[];
    var d := 0;
    while d < inst.nDepts
      invariant 0 <= d <= inst.nDepts
      invariant FilledUpTo(inst, X, raw, d, 0, FirstWeekday, 0)
    {
      var t := 0;
      while t < inst.nSlots
        invariant 0 <= t <= inst.nSlots
        invariant FilledUpTo(inst, X, raw, d, t, FirstWeekday, 0)
      {
        var c := FirstWeekday;
        while c <= LastWeekday
          invariant FirstWeekday <= c <= LastWeekday + 1
          invariant FilledUpTo(inst, X, raw, d, t, c, 0)
        {
          var r := 0;
          while r < |inst.isBig|
            invariant 0 <= r <= |inst.isBig|
            invariant FilledUpTo(inst, X, raw, d, t, c, r)
          {
            FillCell(inst, X, raw, d, t, c, r);
            if X(d, t, r, c) {
              raw := raw[(c, t, r) := d];
            }
            r := r + 1;
          }
          MoveFrontier(inst, X, raw, d, t, c, r, d, t, c + 1, 0);
          c := c + 1;
        }
        MoveFrontier(inst, X, raw, d, t, c, 0, d, t + 1, FirstWeekday, 0);
        t := t + 1;
      }
      MoveFrontier(inst, X, raw, d, t, FirstWeekday, 0, d + 1, 0, FirstWeekday, 0);
      d := d + 1;
    }
  }

  /** The raw-table row of weekday c and timeslot t, read from the table. */
  function RawRow(raw: RawTable, c: int, t: int, nRooms: nat): seq<Option<int>> {
    seq(nRooms, r => Lookup(raw, c, t, r))
  }

  /** The rows of weekday c for timeslots lo..hi-1 of the raw table, labelled `lab` (lines 130, 151). */
  function SliceRows(raw: RawTable, lab: Label, c: int, lo: int, hi: int, nRooms: nat): seq<Row>
    requires lo <= hi
  {
    seq(hi - lo, i => Row(lab, lo + i, RawRow(raw, c, lo + i, nRooms)))
  }

  predicate SameKey(a: Row, b: Row) {
    a.weekday == b.weekday && a.slot == b.slot
  }

  /** No (label, timeslot) pair occurs twice. */
  predicate DistinctKeys(s: seq<Row>) {
    forall i, j :: 0 <= i < j < |s| ==> !SameKey(s[i], s[j])
  }

  /** How many rows the block of weekday c contributes (lines 129-153). */
  function BlockSize(c: int, nSlots: int): int {
    (if c in [1, 2] then nSlots - 1 else 0) + (if c in [1, 2, 3, 4] then 1 else 0) + (if c in [5] then nSlots else 0)
  }

  function RowsBefore(c: int, nSlots: int): int
    decreases c
  {
    if c <= FirstWeekday then 0 else RowsBefore(c - 1, nSlots) + BlockSize(c - 1, nSlots)
  }

  /** The five weekday blocks hold 3 * nSlots + 2 rows together. */
  lemma AllBlocksSize(nSlots: int)
    ensures RowsBefore(LastWeekday + 1, nSlots) == 3 * nSlots + 2
  {
  }

  /** What the storage list holds once the blocks of the weekdays before c are appended. */
  ghost predicate CollectedBefore(raw: RawTable, nSlots: nat, nRooms: nat, c: int, storage: seq<Row>) {
    |storage| == RowsBefore(c, nSlots) &&
    DistinctKeys(storage) &&
    (forall row :: row in storage ==>
       SourceDay(row.weekday) < c && Displayed(row.weekday, row.slot, nSlots) &&
       row.cells == RawRow(raw, SourceDay(row.weekday), row.slot, nRooms)) &&
    (forall l, t :: Displayed(l, t, nSlots) && SourceDay(l) < c ==>
       Row(l, t, RawRow(raw, SourceDay(l), t, nRooms)) in storage)
  }

  /** Appending a block whose keys are new keeps the keys distinct. */
  lemma AppendBlock(storage: seq<Row>, block: seq<Row>)
    requires DistinctKeys(storage) && DistinctKeys(block)
    requires forall a, b :: a in storage && b in block ==> !SameKey(a, b)
    ensures DistinctKeys(storage + block)
  {
    var s := storage + block;
    forall i, j | 0 <= i < j < |s| ensures !SameKey(s[i], s[j]) {
      if i < |storage| <= j {
        assert s[i] in storage && s[j] in block;
      }
    }
  }

  /** The rows of one slice have distinct timeslots. */
  lemma SliceRowsFacts(raw: RawTable, lab: Label, c: int, lo: int, hi: int, nRooms: nat)
    requires lo <= hi
    ensures DistinctKeys(SliceRows(raw, lab, c, lo, hi, nRooms))
    ensures forall row :: row in SliceRows(raw, lab, c, lo, hi, nRooms) ==>
      row.weekday == lab && lo <= row.slot < hi && row.cells == RawRow(raw, c, row.slot, nRooms)
    ensures forall t :: lo <= t < hi ==> Row(lab, t, RawRow(raw, c, t, nRooms)) in SliceRows(raw, lab, c, lo, hi, nRooms)
  {
    var s := SliceRows(raw, lab, c, lo, hi, nRooms);
    forall t | lo <= t < hi ensures Row(lab, t, RawRow(raw, c, t, nRooms)) in s {
      assert s[t - lo] == Row(lab, t, RawRow(raw, c, t, nRooms));
    }
  }

  /** The label of the merged rows of Monday (line 132) and Tuesday (line 134). */
  function MergedLabel(c: int): Label {
    if c == 1 then MonWed else TueThur
  }

  /** The label of a weekday's own last-timeslot row (lines 141-148). */
  function OwnLabel(c: int): Label {
    if c == 1 then Mon else if c == 2 then Tue else if c == 3 then Wed else Thur
  }

  /** The rows one pass of the weekday loop appends for weekday c. */
  function Block(raw: RawTable, c: int, nSlots: nat, nRooms: nat): seq<Row>
    requires 1 <= nSlots
  {
    (if c in [1, 2] then SliceRows(raw, MergedLabel(c), c, 0, nSlots - 1, nRooms) else []) +
    (if c in [1, 2, 3, 4] then [Row(OwnLabel(c), nSlots - 1, RawRow(raw, c, nSlots - 1, nRooms))] else []) +
    (if c in [5] then SliceRows(raw, Fri, c, 0, nSlots, nRooms) else [])
  }

  /** The facts `BlockShape` states, for one block. */
  ghost predicate WellShaped(raw: RawTable, c: int, nSlots: nat, nRooms: nat, b: seq<Row>) {
    DistinctKeys(b) &&
    forall row :: row in b ==>
      SourceDay(row.weekday) == c && Displayed(row.weekday, row.slot, nSlots) &&
      row.cells == RawRow(raw, c, row.slot, nRooms)
  }

  /** Monday's and Tuesday's blocks: the merged rows, then the last timeslot's own row. */
  lemma MergedBlockShape(raw: RawTable, c: int, nSlots: nat, nRooms: nat)
    requires (c == 1 || c == 2) && 1 <= nSlots
    ensures |Block(raw, c, nSlots, nRooms)| == nSlots
    ensures WellShaped(raw, c, nSlots, nRooms, Block(raw, c, nSlots, nRooms))
  {
    var m := SliceRows(raw, MergedLabel(c), c, 0, nSlots - 1, nRooms);
    var own := [Row(OwnLabel(c), nSlots - 1, RawRow(raw, c, nSlots - 1, nRooms))];
    SliceRowsFacts(raw, MergedLabel(c), c, 0, nSlots - 1, nRooms);
    assert Block(raw, c, nSlots, nRooms) == m + own;
    AppendBlock(m, own);
  }

  /** Wednesday's and Thursday's blocks: the last timeslot's own row only. */
  lemma OwnBlockShape(raw: RawTable, c: int, nSlots: nat, nRooms: nat)
    requires (c == 3 || c == 4) && 1 <= nSlots
    ensures |Block(raw, c, nSlots, nRooms)| == 1
    ensures WellShaped(raw, c, nSlots, nRooms, Block(raw, c, nSlots, nRooms))
  {
  }

  /** Friday's block: one row per timeslot. */
  lemma FridayBlockShape(raw: RawTable, nSlots: nat, nRooms: nat)
    requires 1 <= nSlots
    ensures |Block(raw, LastWeekday, nSlots, nRooms)| == nSlots
    ensures WellShaped(raw, LastWeekday, nSlots, nRooms, Block(raw, LastWeekday, nSlots, nRooms))
  {
  }

  /** Weekday c's block: its size, distinct keys, and only displayed rows of weekday c. */
  lemma BlockShape(raw: RawTable, c: int, nSlots: nat, nRooms: nat)
    requires FirstWeekday <= c <= LastWeekday && 1 <= nSlots
    ensures |Block(raw, c, nSlots, nRooms)| == BlockSize(c, nSlots)
    ensures WellShaped(raw, c, nSlots, nRooms, Block(raw, c, nSlots, nRooms))
  {
    if c == 1 || c == 2 {
      MergedBlockShape(raw, c, nSlots, nRooms);
    } else if c == 3 || c == 4 {
      OwnBlockShape(raw, c, nSlots, nRooms);
    } else {
      FridayBlockShape(raw, nSlots, nRooms);
    }
  }

  /** Every displayed row of weekday c is in weekday c's block. */
  lemma BlockCovers(raw: RawTable, c: int, nSlots: nat, nRooms: nat, l: Label, t: int)
    requires FirstWeekday <= c <= LastWeekday && 1 <= nSlots
    requires Displayed(l, t, nSlots) && SourceDay(l) == c
    ensures Row(l, t, RawRow(raw, c, t, nRooms)) in Block(raw, c, nSlots, nRooms)
  {
    var b := Block(raw, c, nSlots, nRooms);
    var row := Row(l, t, RawRow(raw, c, t, nRooms));
    if l == MonWed || l == TueThur {
      var m := SliceRows(raw, MergedLabel(c), c, 0, nSlots - 1, nRooms);
      assert m[t] == row;
      assert b[t] == m[t];
    } else if l == Fri {
      var all := SliceRows(raw, Fri, c, 0, nSlots, nRooms);
      assert all[t] == row;
      assert b == all;
    } else {
      var k := if c <= 2 then nSlots - 1 else 0;
      assert b[k] == row;
    }
  }

  /** One pass of the weekday loop keeps `CollectedBefore`. */
  lemma CollectStep(raw: RawTable, nSlots: nat, nRooms: nat, c: int, storage: seq<Row>)
    requires FirstWeekday <= c <= LastWeekday && 1 <= nSlots
    requires CollectedBefore(raw, nSlots, nRooms, c, storage)
    ensures CollectedBefore(raw, nSlots, nRooms, c + 1, storage + Block(raw, c, nSlots, nRooms))
  {
    var b := Block(raw, c, nSlots, nRooms);
    BlockShape(raw, c, nSlots, nRooms);
    AppendBlock(storage, b);
    forall l, t | Displayed(l, t, nSlots) && SourceDay(l) < c + 1
      ensures Row(l, t, RawRow(raw, SourceDay(l), t, nRooms)) in storage + b
    {
      if SourceDay(l) == c {
        BlockCovers(raw, c, nSlots, nRooms, l, t);
      }
    }
  }

  /** Before the first weekday nothing is collected. */
  lemma CollectedNone(raw: RawTable, nSlots: nat, nRooms: nat)
    ensures CollectedBefore(raw, nSlots, nRooms, FirstWeekday, [])
  {
  }

  /** After the last weekday every displayed row is collected, once. */
  lemma CollectedAll(raw: RawTable, nSlots: nat, nRooms: nat, storage: seq<Row>)
    requires CollectedBefore(raw, nSlots, nRooms, LastWeekday + 1, storage)
    ensures |storage| == 3 * nSlots + 2
    ensures DistinctKeys(storage)
    ensures forall row :: row in storage ==>
      Displayed(row.weekday, row.slot, nSlots) && row.cells == RawRow(raw, SourceDay(row.weekday), row.slot, nRooms)
    ensures forall l, t :: Displayed(l, t, nSlots) ==> Row(l, t, RawRow(raw, SourceDay(l), t, nRooms)) in storage
  {
    AllBlocksSize(nSlots);
  }

  /**
    * One pass of the weekday loop body (lines 128-153): appends weekday c's
    * rows. `Block` is its specification; `BlockShape` and `BlockCovers`
    * prove what that block holds.
    */
  method AppendWeekday(raw: RawTable, c: int, nSlots: nat, nRooms: nat, storage: seq<Row>) returns (storage': seq<Row>)
    requires 1 <= nSlots
    ensures storage' == storage + Block(raw, c, nSlots, nRooms)
  {
    storage' := storage;
    var merged: seq<Row> := [];
    var own: seq<Row> := [];
    var all: seq<Row> := [];
    if c in [1, 2] {
      merged := SliceRows(raw, MergedLabel(c), c, 0, nSlots - 1, nRooms);
      storage' := storage' + merged;
    }
    if c in [1, 2, 3, 4] {
      own := [Row(OwnLabel(c), nSlots - 1, RawRow(raw, c, nSlots - 1, nRooms))];
      storage' := storage' + own;
    }
    if c in [5] {
      all := SliceRows(raw, Fri, c, 0, nSlots, nRooms);
      storage' := storage' + all;
    }
    assert storage' == storage + (merged + own + all);
  }

  /**
    * Lines 126-153: for each weekday, append the merged rows of every
    * timeslot but the last (Mon, Tue), the last timeslot's own row
    * (Mon..Thu), and every timeslot (Fri).
    */
  method CollectRows(raw: RawTable, nSlots: nat, nRooms: nat) returns (storage: seq<Row>)
    requires 1 <= nSlots
    ensures |storage| == 3 * nSlots + 2
    ensures DistinctKeys(storage)
    ensures forall row :: row in storage ==>
      Displayed(row.weekday, row.slot, nSlots) && row.cells == RawRow(raw, SourceDay(row.weekday), row.slot, nRooms)
    ensures forall l, t :: Displayed(l, t, nSlots) ==> Row(l, t, RawRow(raw, SourceDay(l), t, nRooms)) in storage
  {
    storage := [];
    var c := FirstWeekday;
    CollectedNone(raw, nSlots, nRooms);
    while c <= LastWeekday
      invariant FirstWeekday <= c <= LastWeekday + 1
      invariant CollectedBefore(raw, nSlots, nRooms, c, storage)
    {
      ghost var before := storage;
      storage := AppendWeekday(raw, c, nSlots, nRooms, storage);
      CollectStep(raw, nSlots, nRooms, c, before);
      c := c + 1;
    }
    CollectedAll(raw, nSlots, nRooms, storage);
  }

  /** The sort key order of lines 157-170: label category first, then timeslot position. */
  predicate RowLe(a: Row, b: Row) {
    Rank(a.weekday) < Rank(b.weekday) || (Rank(a.weekday) == Rank(b.weekday) && a.slot <= b.slot)
  }

  /** Strictly before in the sort key order. */
  predicate RowBefore(a: Row, b: Row) {
    Rank(a.weekday) < Rank(b.weekday) || (Rank(a.weekday) == Rank(b.weekday) && a.slot < b.slot)
  }

  predicate SortedRows(s: seq<Row>) {
    forall i, j :: 0 <= i < j < |s| ==> RowLe(s[i], s[j])
  }

  /** Inserts a row before the first row it does not follow. */
  function InsertRow(x: Row, s: seq<Row>): (r: seq<Row>)
    ensures multiset(r) == multiset(s) + multiset{x}
    decreases |s|
  {
    if |s| == 0 then [x]
    else if RowLe(x, s[0]) then [x] + s
    else
      assert s == [s[0]] + s[1..];
      [s[0]] + InsertRow(x, s[1..])
  }

  /** Inserting into a sorted sequence keeps it sorted. */
  lemma {:induction false} InsertRowSorted(x: Row, s: seq<Row>)
    requires SortedRows(s)
    ensures SortedRows(InsertRow(x, s))
    decreases |s|
  {
    if |s| > 0 && !RowLe(x, s[0]) {
      var rest := InsertRow(x, s[1..]);
      InsertRowSorted(x, s[1..]);
      var r := [s[0]] + rest;
      assert r == InsertRow(x, s);
      forall k | 0 <= k < |rest| ensures RowLe(s[0], rest[k]) {
        assert rest[k] in multiset(rest);
        if rest[k] != x {
          assert rest[k] in multiset(s[1..]);
          var m :| 0 <= m < |s[1..]| && s[1..][m] == rest[k];
          assert s[m + 1] == rest[k];
        }
      }
      forall i, j | 0 <= i < j < |r| ensures RowLe(r[i], r[j]) {
        if i == 0 {
          assert r[j] == rest[j - 1];
        } else {
          assert r[i] == rest[i - 1] && r[j] == rest[j - 1];
        }
      }
    }
  }

  /**
    * The in-place sort of line 170 by label category, then timeslot: the
    * rows in key order, with the same rows as before.
    */
  function SortRows(s: seq<Row>): (r: seq<Row>)
    ensures SortedRows(r)
    ensures multiset(r) == multiset(s)
  {
    if |s| == 0 then []
    else
      assert s == [s[0]] + s[1..];
      var rest := SortRows(s[1..]);
      InsertRowSorted(s[0], rest);
      InsertRow(s[0], rest)
  }

  /** Without repeated keys no row occurs twice. */
  lemma {:induction false} DistinctRowsOnce(s: seq<Row>, v: Row)
    requires DistinctKeys(s)
    ensures multiset(s)[v] <= 1
  {
    if |s| > 0 {
      assert s == [s[0]] + s[1..];
      assert DistinctKeys(s[1..]) by {
        forall i, j | 0 <= i < j < |s[1..]| ensures !SameKey(s[1..][i], s[1..][j]) {
          assert s[1..][i] == s[i + 1] && s[1..][j] == s[j + 1];
        }
      }
      DistinctRowsOnce(s[1..], v);
      if v == s[0] {
        forall j | 0 <= j < |s[1..]| ensures s[1..][j] != v {
          assert s[1..][j] == s[j + 1] && !SameKey(s[0], s[j + 1]);
        }
        assert v !in s[1..];
      }
    }
  }

  /** A row at two positions occurs at least twice. */
  lemma TwiceAtTwoPositions(s: seq<Row>, i: int, j: int)
    requires 0 <= i < j < |s| && s[i] == s[j]
    ensures multiset(s)[s[i]] >= 2
  {
    assert s == s[..j] + [s[j]] + s[j + 1..];
    assert s[i] in s[..j];
  }

  /** Reordering keeps keys distinct. */
  lemma PermutationKeepsDistinctKeys(s: seq<Row>, r: seq<Row>)
    requires DistinctKeys(s) && multiset(r) == multiset(s)
    ensures DistinctKeys(r)
  {
    forall i, j | 0 <= i < j < |r| ensures !SameKey(r[i], r[j]) {
      if r[i] == r[j] {
        TwiceAtTwoPositions(r, i, j);
        DistinctRowsOnce(s, r[i]);
      } else {
        assert r[i] in multiset(s) && r[j] in multiset(s);
        var i' :| 0 <= i' < |s| && s[i'] == r[i];
        var j' :| 0 <= j' < |s| && s[j'] == r[j];
        if i' < j' {
          assert !SameKey(s[i'], s[j']);
        } else {
          assert !SameKey(s[j'], s[i']);
        }
      }
    }
  }

  /** Sorted with distinct keys means strictly increasing keys. */
  lemma SortedDistinctIsStrict(s: seq<Row>)
    requires SortedRows(s) && DistinctKeys(s)
    ensures forall i, j :: 0 <= i < j < |s| ==> RowBefore(s[i], s[j])
  {
  }

  /** A displayed row's cells, read off the raw table, are the raw cells of its source weekday. */
  lemma ReadRawRow(inst: Instance, X: Assignment, raw: RawTable, l: Label, t: int)
    requires forall c, t, r :: InTable(inst, c, t, r) ==> Lookup(raw, c, t, r) == RawCell(X, inst.nDepts, c, t, r)
    requires Displayed(l, t, inst.nSlots)
    ensures RawRow(raw, SourceDay(l), t, |inst.isBig|) == RawCells(inst, X, SourceDay(l), t)
  {
    var c := SourceDay(l);
    forall r | 0 <= r < |inst.isBig|
      ensures RawRow(raw, c, t, |inst.isBig|)[r] == RawCells(inst, X, c, t)[r]
    {
      assert InTable(inst, c, t, r);
    }
  }

  /**
    * Lines 116-171: the timetable after a solve. Every displayed (label,
    * timeslot) pair has exactly one row, in label-category then timeslot
    * order, and each row shows the raw cells of the weekday it stands for.
    * With no timeslot at all the formulation already stops at lines 80/88
    * (a zero-over-zero fairness ratio), and these lines on their own would
    * stop at line 130 or, at the latest, at line 138, which reads the last
    * timeslot: None.
    */
  method AssembleSchedule(inst: Instance, X: Assignment) returns (table: Option<seq<Row>>)
    ensures table.None? <==> inst.nSlots == 0
    ensures table.Some? ==> |table.value| == 3 * inst.nSlots + 2
    ensures table.Some? ==> forall i, j :: 0 <= i < j < |table.value| ==> RowBefore(table.value[i], table.value[j])
    ensures table.Some? ==> forall row :: row in table.value ==>
      Displayed(row.weekday, row.slot, inst.nSlots) && row.cells == RawCells(inst, X, SourceDay(row.weekday), row.slot)
    ensures table.Some? ==> forall l, t :: Displayed(l, t, inst.nSlots) ==>
      Row(l, t, RawCells(inst, X, SourceDay(l), t)) in table.value
  {
    var raw := BuildRawTable(inst, X);
    if inst.nSlots == 0 {
      return None;
    }
    var storage := CollectRows(raw, inst.nSlots, |inst.isBig|);
    var sorted := SortRows(storage);
    PermutationKeepsDistinctKeys(storage, sorted);
    SortedDistinctIsStrict(sorted);
    assert |sorted| == |storage| by {
      assert |multiset(sorted)| == |multiset(storage)|;
    }
    forall row | row in sorted
      ensures Displayed(row.weekday, row.slot, inst.nSlots) && row.cells == RawCells(inst, X, SourceDay(row.weekday), row.slot)
    {
      assert row in multiset(storage);
      ReadRawRow(inst, X, raw, row.weekday, row.slot);
    }
    forall l, t | Displayed(l, t, inst.nSlots)
      ensures Row(l, t, RawCells(inst, X, SourceDay(l), t)) in sorted
    {
      ReadRawRow(inst, X, raw, l, t);
      assert Row(l, t, RawCells(inst, X, SourceDay(l), t)) in multiset(storage);
    }
    table := Some(sorted);
  }

  /**
    * Under room exclusivity (lines 73-76) a cell shows department d exactly
    * when d holds that room: the "last one wins" overwrite never hides anybody.
    */
  lemma ExclusiveCellShowsTheOnlyDepartment(inst: Instance, X: Assignment, c: int, t: int, r: int, d: int)
    requires RoomsExclusive(inst, X) && InTable(inst, c, t, r)
    ensures RawCell(X, inst.nDepts, c, t, r) == Some(d) <==> IsDept(inst, d) && X(d, t, r, c)
  {
    ExclusiveMeansAtMostOneDepartment(inst, X);
    var o := RawCell(X, inst.nDepts, c, t, r);
    if IsDept(inst, d) && X(d, t, r, c) {
      assert o.Some?;
      assert X(o.value, t, r, c) && IsDept(inst, o.value);
    }
  }

  /** A cell of weekday c and one of weekday c + 2 agree when no department tells the two days apart. */
  lemma {:induction false} RawCellMirrored(X: Assignment, n: int, c: int, t: int, r: int)
    requires forall d :: 0 <= d < n ==> X(d, t, r, c) == X(d, t, r, c + 2)
    ensures RawCell(X, n, c, t, r) == RawCell(X, n, c + 2, t, r)
    decreases n
  {
    if n > 0 && !X(n - 1, t, r, c) {
      RawCellMirrored(X, n - 1, c, t, r);
    }
  }

  /**
    * Under the day-pair constraints (lines 66-70), the Monday row shown as
    * "Mon & Wed" equals Wednesday's and the Tuesday row shown as
    * "Tue & Thur" equals Thursday's, for every timeslot but the last.
    */
  lemma MergedRowsShowBothDays(inst: Instance, X: Assignment, t: int)
    requires DaySymmetric(inst, X) && 0 <= t < inst.nSlots - 1
    ensures RawCells(inst, X, 1, t) == RawCells(inst, X, 3, t)
    ensures RawCells(inst, X, 2, t) == RawCells(inst, X, 4, t)
  {
    forall r | 0 <= r < |inst.isBig|
      ensures RawCell(X, inst.nDepts, 1, t, r) == RawCell(X, inst.nDepts, 3, t, r)
      ensures RawCell(X, inst.nDepts, 2, t, r) == RawCell(X, inst.nDepts, 4, t, r)
    {
      RawCellMirrored(X, inst.nDepts, 1, t, r);
      RawCellMirrored(X, inst.nDepts, 2, t, r);
    }
  }

}
