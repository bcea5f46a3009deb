/**
  * The integer program built by `optimize()` (optimize.py, lines 56-100).
  *
  * The solver is outside the model: what is modelled is the condition an
  * answer (X, U, L) must meet, `Feasible`, and the value it is ranked by,
  * `Objective`. Departments, timeslots and classrooms are their positions in
  * the input's order; weekdays are the integers 1..5 the code computes with
  * (`c + 2`, `c in [1, 2]`).
  */
module Formulation {
  import opened Sums

  /** Weekdays are the integers FirstWeekday..LastWeekday (Monday..Friday). */
  const FirstWeekday: int := 1
  const LastWeekday: int := 5

  /** The binary decision X[d, t, r, c]: department d holds room r in timeslot t on weekday c. */
  type Assignment = (int, int, int, int) -> bool

  /**
    * The loaded data: department count, timeslot count (the last timeslot is
    * position nSlots - 1), the big/small flag of each classroom, the score
    * pref(d, t, c), the clock-hours hours(t, c) and the required hours of each
    * department.
    */
  datatype Instance = Instance(
    nDepts: nat,
    nSlots: nat,
    isBig: seq<bool>,
    pref: (int, int, int) -> real,
    hours: (int, int) -> real,
    hoursRequired: int -> real)

  predicate IsDept(inst: Instance, d: int) { 0 <= d < inst.nDepts }
  predicate IsSlot(inst: Instance, t: int) { 0 <= t < inst.nSlots }
  predicate IsRoom(inst: Instance, r: int) { 0 <= r < |inst.isBig| }
  predicate IsWeekday(c: int) { FirstWeekday <= c <= LastWeekday }

  predicate Big(inst: Instance, r: int) { IsRoom(inst, r) && inst.isBig[r] }

  /** br[r] as a number. */
  function BigWeight(inst: Instance, r: int): real { if Big(inst, r) then 1.0 else 0.0 }

  /** Sum of g(t, r, c) over the weekdays c. */
  function DaySum(g: (int, int, int) -> real, t: int, r: int): real {
    Sum(FirstWeekday, LastWeekday + 1, c => g(t, r, c))
  }

  /** Sum of g(t, r, c) over the rooms r and weekdays c. */
  function RoomSum(inst: Instance, g: (int, int, int) -> real, t: int): real {
    Sum(0, |inst.isBig|, r => DaySum(g, t, r))
  }

  /** Sum of g(t, r, c) over every timeslot t, room r and weekday c, in that nesting order. */
  function CellSum(inst: Instance, g: (int, int, int) -> real): real {
    Sum(0, inst.nSlots, t => RoomSum(inst, g, t))
  }

  /** The coefficient of X in the objective and fairness sums: pref[d][t][c]. */
  function PrefCells(inst: Instance, d: int): (int, int, int) -> real {
    (t, r, c) => inst.pref(d, t, c)
  }

  /** The coefficient of X in the big-room constraint: br[r]. */
  function BigCells(inst: Instance): (int, int, int) -> real {
    (t, r, c) => BigWeight(inst, r)
  }

  /** The coefficient of X in the hour-demand constraint: hours[t][c]. */
  function HourCells(inst: Instance): (int, int, int) -> real {
    (t, r, c) => inst.hours(t, c)
  }

  /** The product X[d, t, r, c] * w(t, r, c) as a function of the cell. */
  function Weighted(X: Assignment, d: int, w: (int, int, int) -> real): (int, int, int) -> real {
    (t, r, c) => Ind(X(d, t, r, c), w(t, r, c))
  }

  /** The achieved preference of department d (the numerator at lines 84 and 92). */
  function Achieved(inst: Instance, X: Assignment, d: int): real {
    CellSum(inst, Weighted(X, d, PrefCells(inst, d)))
  }

  /**
    * The fairness denominator at lines 86 and 94, as written: a sum over
    * timeslots and rooms whose weekday is the one the loop at line 74 left
    * behind, the last weekday.
    */
  function Denominator(inst: Instance, d: int): real {
    Sum(0, inst.nSlots, t => Sum(0, |inst.isBig|, r => inst.pref(d, t, LastWeekday)))
  }

  /** The number of big-room sessions of department d (line 80). */
  function BigRoomCount(inst: Instance, X: Assignment, d: int): real {
    CellSum(inst, Weighted(X, d, BigCells(inst)))
  }

  /** The clock-hours scheduled for department d (line 100). */
  function ScheduledHours(inst: Instance, X: Assignment, d: int): real {
    CellSum(inst, Weighted(X, d, HourCells(inst)))
  }

  /** How many departments hold room r in timeslot t on weekday c (line 76). */
  function Occupancy(inst: Instance, X: Assignment, t: int, c: int, r: int): real {
    Sum(0, inst.nDepts, d => Ind(X(d, t, r, c), 1.0))
  }

  /** How many rooms department d holds in timeslot t on weekday c. */
  function RoomsHeld(inst: Instance, X: Assignment, d: int, t: int, c: int): real {
    Sum(0, |inst.isBig|, r => Ind(X(d, t, r, c), 1.0))
  }

  /** The maximised objective of line 62, summed in its own order d, t, c, r. */
  function Objective(inst: Instance, X: Assignment, U: real, L: real): real {
    Sum(0, inst.nDepts, d =>
      Sum(0, inst.nSlots, t =>
        Sum(FirstWeekday, LastWeekday + 1, c =>
          Sum(0, |inst.isBig|, r => Ind(X(d, t, r, c), inst.pref(d, t, c)))))) - (U - L)
  }

  /** The achieved preference summed over all departments. */
  function TotalAchieved(inst: Instance, X: Assignment): real {
    Sum(0, inst.nDepts, d => Achieved(inst, X, d))
  }

  /** Lines 66-70: Monday mirrors Wednesday and Tuesday mirrors Thursday, except in the last timeslot. */
  predicate DaySymmetric(inst: Instance, X: Assignment) {
    forall d, t, r, c ::
      0 <= d < inst.nDepts && 0 <= t < inst.nSlots - 1 && 0 <= r < |inst.isBig| && FirstWeekday <= c <= FirstWeekday + 1 ==>
        X(d, t, r, c) == X(d, t, r, c + 2)
  }

  /** Lines 73-76: the departments holding one (timeslot, weekday, room) add up to at most one. */
  predicate RoomsExclusive(inst: Instance, X: Assignment) {
    forall t, c, r :: 0 <= t < inst.nSlots && FirstWeekday <= c <= LastWeekday && 0 <= r < |inst.isBig| ==> Occupancy(inst, X, t, c, r) <= 1.0
  }

  /** Lines 79-80. */
  predicate EveryDeptHasBigRoom(inst: Instance, X: Assignment) {
    forall d :: 0 <= d < inst.nDepts ==> BigRoomCount(inst, X, d) >= 1.0
  }

  /** Lines 99-100. */
  predicate HourDemandMet(inst: Instance, X: Assignment) {
    forall d :: 0 <= d < inst.nDepts ==> ScheduledHours(inst, X, d) >= inst.hoursRequired(d)
  }

  /** The fairness constraints divide by the denominator, so it must not vanish. */
  predicate DenominatorsNonzero(inst: Instance) {
    forall d :: 0 <= d < inst.nDepts ==> Denominator(inst, d) != 0.0
  }

  /** Lines 58-59 (U, L >= 0) and 83-96 (L <= ratio <= U for every department). */
  predicate FairnessBand(inst: Instance, X: Assignment, U: real, L: real)
    requires DenominatorsNonzero(inst)
  {
    0.0 <= U && 0.0 <= L &&
    forall d :: 0 <= d < inst.nDepts ==>
      L <= Achieved(inst, X, d) / Denominator(inst, d) <= U
  }

  /** The whole constraint set an answer of the solver satisfies. */
  predicate Feasible(inst: Instance, X: Assignment, U: real, L: real)
    requires DenominatorsNonzero(inst)
  {
    DaySymmetric(inst, X) && RoomsExclusive(inst, X) && EveryDeptHasBigRoom(inst, X) &&
    FairnessBand(inst, X, U, L) && HourDemandMet(inst, X)
  }

  // ---------------------------------------------------------------------------
  // Algebra of CellSum
  // ---------------------------------------------------------------------------

  lemma CellSumExt(inst: Instance, f: (int, int, int) -> real, g: (int, int, int) -> real)
    requires forall t, r, c :: IsSlot(inst, t) && IsRoom(inst, r) && IsWeekday(c) ==> f(t, r, c) == g(t, r, c)
    ensures CellSum(inst, f) == CellSum(inst, g)
  {
    forall t | IsSlot(inst, t) ensures RoomSum(inst, f, t) == RoomSum(inst, g, t) {
      forall r | IsRoom(inst, r) ensures DaySum(f, t, r) == DaySum(g, t, r) {
        SumExt(FirstWeekday, LastWeekday + 1, c => f(t, r, c), c => g(t, r, c));
      }
      SumExt(0, |inst.isBig|, r => DaySum(f, t, r), r => DaySum(g, t, r));
    }
    SumExt(0, inst.nSlots, t => RoomSum(inst, f, t), t => RoomSum(inst, g, t));
  }

  lemma CellSumMono(inst: Instance, f: (int, int, int) -> real, g: (int, int, int) -> real)
    requires forall t, r, c :: IsSlot(inst, t) && IsRoom(inst, r) && IsWeekday(c) ==> f(t, r, c) <= g(t, r, c)
    ensures CellSum(inst, f) <= CellSum(inst, g)
  {
    forall t | IsSlot(inst, t) ensures RoomSum(inst, f, t) <= RoomSum(inst, g, t) {
      forall r | IsRoom(inst, r) ensures DaySum(f, t, r) <= DaySum(g, t, r) {
        SumMono(FirstWeekday, LastWeekday + 1, c => f(t, r, c), c => g(t, r, c));
      }
      SumMono(0, |inst.isBig|, r => DaySum(f, t, r), r => DaySum(g, t, r));
    }
    SumMono(0, inst.nSlots, t => RoomSum(inst, f, t), t => RoomSum(inst, g, t));
  }

  /** CellSums add termwise: h is f + g on every cell. */
  lemma CellSumAdd(inst: Instance, f: (int, int, int) -> real, g: (int, int, int) -> real, h: (int, int, int) -> real)
    requires forall t, r, c :: IsSlot(inst, t) && IsRoom(inst, r) && IsWeekday(c) ==> h(t, r, c) == f(t, r, c) + g(t, r, c)
    ensures CellSum(inst, f) + CellSum(inst, g) == CellSum(inst, h)
  {
    forall t | IsSlot(inst, t) ensures RoomSum(inst, f, t) + RoomSum(inst, g, t) == RoomSum(inst, h, t) {
      forall r | IsRoom(inst, r) ensures DaySum(f, t, r) + DaySum(g, t, r) == DaySum(h, t, r) {
        SumAdd(FirstWeekday, LastWeekday + 1, c => f(t, r, c), c => g(t, r, c), c => h(t, r, c));
      }
      SumAdd(0, |inst.isBig|, r => DaySum(f, t, r), r => DaySum(g, t, r), r => DaySum(h, t, r));
    }
    SumAdd(0, inst.nSlots, t => RoomSum(inst, f, t), t => RoomSum(inst, g, t), t => RoomSum(inst, h, t));
  }

  lemma CellSumNonneg(inst: Instance, g: (int, int, int) -> real)
    requires forall t, r, c :: IsSlot(inst, t) && IsRoom(inst, r) && IsWeekday(c) ==> 0.0 <= g(t, r, c)
    ensures forall t, r :: IsSlot(inst, t) && IsRoom(inst, r) ==> 0.0 <= DaySum(g, t, r)
    ensures forall t :: IsSlot(inst, t) ==> 0.0 <= RoomSum(inst, g, t)
    ensures 0.0 <= CellSum(inst, g)
  {
    forall t, r | IsSlot(inst, t) && IsRoom(inst, r) ensures 0.0 <= DaySum(g, t, r) {
      SumNonneg(FirstWeekday, LastWeekday + 1, c => g(t, r, c));
    }
    forall t | IsSlot(inst, t) ensures 0.0 <= RoomSum(inst, g, t) {
      SumNonneg(0, |inst.isBig|, r => DaySum(g, t, r));
    }
    SumNonneg(0, inst.nSlots, t => RoomSum(inst, g, t));
  }

  /** With non-negative terms, each single term is at most the whole CellSum. */
  lemma CellSumGeTerm(inst: Instance, g: (int, int, int) -> real, t: int, r: int, c: int)
    requires forall t, r, c :: IsSlot(inst, t) && IsRoom(inst, r) && IsWeekday(c) ==> 0.0 <= g(t, r, c)
    requires IsSlot(inst, t) && IsRoom(inst, r) && IsWeekday(c)
    ensures g(t, r, c) <= CellSum(inst, g)
  {
    CellSumNonneg(inst, g);
    SumGeTerm(FirstWeekday, LastWeekday + 1, c' => g(t, r, c'), c);
    SumGeTerm(0, |inst.isBig|, r' => DaySum(g, t, r'), r);
    SumGeTerm(0, inst.nSlots, t' => RoomSum(inst, g, t'), t);
  }

  /** A positive CellSum has a positive term. */
  lemma CellSumPositiveHasPositiveTerm(inst: Instance, g: (int, int, int) -> real)
    requires 0.0 < CellSum(inst, g)
    ensures exists t, r, c :: IsSlot(inst, t) && IsRoom(inst, r) && IsWeekday(c) && 0.0 < g(t, r, c)
  {
    SumPositiveHasPositiveTerm(0, inst.nSlots, t => RoomSum(inst, g, t));
    var t :| IsSlot(inst, t) && 0.0 < RoomSum(inst, g, t);
    SumPositiveHasPositiveTerm(0, |inst.isBig|, r => DaySum(g, t, r));
    var r :| IsRoom(inst, r) && 0.0 < DaySum(g, t, r);
    SumPositiveHasPositiveTerm(FirstWeekday, LastWeekday + 1, c => g(t, r, c));
    var c :| IsWeekday(c) && 0.0 < g(t, r, c);
  }

  lemma CellSumZero(inst: Instance, g: (int, int, int) -> real)
    requires forall t, r, c :: IsSlot(inst, t) && IsRoom(inst, r) && IsWeekday(c) ==> g(t, r, c) == 0.0
    ensures CellSum(inst, g) == 0.0
  {
    forall t, r | IsSlot(inst, t) && IsRoom(inst, r) ensures DaySum(g, t, r) == 0.0 {
      SumConst(FirstWeekday, LastWeekday + 1, c => g(t, r, c), 0.0);
    }
    forall t | IsSlot(inst, t) ensures RoomSum(inst, g, t) == 0.0 {
      SumConst(0, |inst.isBig|, r => DaySum(g, t, r), 0.0);
    }
    SumConst(0, inst.nSlots, t => RoomSum(inst, g, t), 0.0);
  }

  /** Summing CellSums over departments is the CellSum of the per-cell department sums. */
  lemma {:induction false} SumOfCellSums(inst: Instance, lo: int, hi: int, G: int -> ((int, int, int) -> real))
    ensures Sum(lo, hi, d => CellSum(inst, G(d)))
         == CellSum(inst, (t, r, c) => Sum(lo, hi, d => G(d)(t, r, c)))
    decreases hi - lo
  {
    var total := (t, r, c) => Sum(lo, hi, d => G(d)(t, r, c));
    if hi <= lo {
      CellSumZero(inst, total);
    } else {
      var before := (t, r, c) => Sum(lo, hi - 1, d => G(d)(t, r, c));
      SumOfCellSums(inst, lo, hi - 1, G);
      CellSumAdd(inst, before, G(hi - 1), total);
    }
  }

  // ---------------------------------------------------------------------------
  // Properties of the formulation
  // ---------------------------------------------------------------------------

  /**
    * The denominator of lines 86/94 does not range over weekdays: it is the
    * number of rooms times the department's last-weekday scores.
    */
  lemma {:induction false} DenominatorUsesLastWeekdayOnly(inst: Instance, d: int)
    ensures Denominator(inst, d)
         == (|inst.isBig| as real) * Sum(0, inst.nSlots, t => inst.pref(d, t, LastWeekday))
  {
    var p := t => inst.pref(d, t, LastWeekday);
    SumRepeated(inst.nSlots, |inst.isBig|, p);
    forall t | 0 <= t < inst.nSlots
      ensures Sum(0, |inst.isBig|, r => inst.pref(d, t, LastWeekday)) == Sum(0, |inst.isBig|, r => p(t))
    {
      SumExt(0, |inst.isBig|, r => inst.pref(d, t, LastWeekday), r => p(t));
    }
    SumExt(0, inst.nSlots, t => Sum(0, |inst.isBig|, r => inst.pref(d, t, LastWeekday)), t => Sum(0, |inst.isBig|, r => p(t)));
  }

  /**
    * A department whose last-weekday scores are all zero makes its fairness
    * denominator zero, whatever its scores on the other weekdays.
    */
  lemma {:induction false} ZeroLastWeekdayScoresZeroDenominator(inst: Instance, d: int)
    requires IsDept(inst, d)
    requires forall t :: IsSlot(inst, t) ==> inst.pref(d, t, LastWeekday) == 0.0
    ensures Denominator(inst, d) == 0.0 && !DenominatorsNonzero(inst)
  {
    DenominatorUsesLastWeekdayOnly(inst, d);
    SumConst(0, inst.nSlots, t => inst.pref(d, t, LastWeekday), 0.0);
  }

  /** Lines 73-76: the sum constraint says exactly that no two departments share a room at one time. */
  lemma {:induction false} ExclusiveMeansAtMostOneDepartment(inst: Instance, X: Assignment)
    ensures RoomsExclusive(inst, X) <==>
      forall t, c, r, d1, d2 ::
        (IsSlot(inst, t) && IsWeekday(c) && IsRoom(inst, r) && IsDept(inst, d1) && IsDept(inst, d2) &&
         X(d1, t, r, c) && X(d2, t, r, c)) ==> d1 == d2
  {
    forall t, c, r | IsSlot(inst, t) && IsWeekday(c) && IsRoom(inst, r)
      ensures Occupancy(inst, X, t, c, r) <= 1.0 <==>
        forall d1, d2 :: (IsDept(inst, d1) && IsDept(inst, d2) && X(d1, t, r, c) && X(d2, t, r, c)) ==> d1 == d2
    {
      var f := d => Ind(X(d, t, r, c), 1.0);
      forall d | 0 <= d < inst.nDepts ensures (f(d) == 0.0 || f(d) == 1.0) && (f(d) == 1.0 <==> X(d, t, r, c)) {
        assert f(d) == Ind(X(d, t, r, c), 1.0);
      }
      ZeroOneSumAtMostOne(0, inst.nDepts, f);
    }
  }

  /** Lines 79-80: the big-room sum reaches one exactly when some session is in a big room. */
  lemma {:induction false} BigRoomIffBigSession(inst: Instance, X: Assignment, d: int)
    ensures BigRoomCount(inst, X, d) >= 1.0 <==>
      exists t, r, c :: IsSlot(inst, t) && IsRoom(inst, r) && IsWeekday(c) && X(d, t, r, c) && inst.isBig[r]
  {
    var g := Weighted(X, d, BigCells(inst));
    forall t, r, c | IsSlot(inst, t) && IsRoom(inst, r) && IsWeekday(c)
      ensures 0.0 <= g(t, r, c) && (0.0 < g(t, r, c) <==> X(d, t, r, c) && inst.isBig[r])
      ensures X(d, t, r, c) && inst.isBig[r] ==> g(t, r, c) == 1.0
    {
      assert g(t, r, c) == Ind(X(d, t, r, c), BigWeight(inst, r));
    }
    if exists t, r, c :: IsSlot(inst, t) && IsRoom(inst, r) && IsWeekday(c) && X(d, t, r, c) && inst.isBig[r] {
      var t, r, c :| IsSlot(inst, t) && IsRoom(inst, r) && IsWeekday(c) && X(d, t, r, c) && inst.isBig[r];
      CellSumGeTerm(inst, g, t, r, c);
    } else if BigRoomCount(inst, X, d) >= 1.0 {
      CellSumPositiveHasPositiveTerm(inst, g);
    }
  }

  /** Within one (timeslot, weekday), a department scores once per room it holds (line 62). */
  lemma {:induction false} ObjectiveCountsEveryHeldRoom(inst: Instance, X: Assignment, d: int, t: int, c: int)
    ensures Sum(0, |inst.isBig|, r => Ind(X(d, t, r, c), inst.pref(d, t, c)))
         == RoomsHeld(inst, X, d, t, c) * inst.pref(d, t, c)
  {
    var held := r => Ind(X(d, t, r, c), 1.0);
    var scored := r => Ind(X(d, t, r, c), inst.pref(d, t, c));
    forall r | 0 <= r < |inst.isBig| ensures scored(r) == inst.pref(d, t, c) * held(r) {
      assert held(r) == Ind(X(d, t, r, c), 1.0);
      assert scored(r) == Ind(X(d, t, r, c), inst.pref(d, t, c));
    }
    SumScale(0, |inst.isBig|, held, inst.pref(d, t, c), scored);
  }

  /** For one department and timeslot, the objective's (weekday, room) order sums the same as (room, weekday). */
  lemma {:induction false} ObjectiveSlotTerm(inst: Instance, X: Assignment, d: int, t: int)
    ensures Sum(FirstWeekday, LastWeekday + 1, c => Sum(0, |inst.isBig|, r => Ind(X(d, t, r, c), inst.pref(d, t, c))))
         == RoomSum(inst, Weighted(X, d, PrefCells(inst, d)), t)
  {
    var G := Weighted(X, d, PrefCells(inst, d));
    var F := (c, r) => G(t, r, c);
    SumSwap(FirstWeekday, LastWeekday + 1, 0, |inst.isBig|, F);
    forall c | FirstWeekday <= c < LastWeekday + 1
      ensures Sum(0, |inst.isBig|, r => Ind(X(d, t, r, c), inst.pref(d, t, c))) == Sum(0, |inst.isBig|, j => F(c, j))
    {
      forall j | 0 <= j < |inst.isBig| ensures Ind(X(d, t, j, c), inst.pref(d, t, c)) == F(c, j) {
        assert F(c, j) == G(t, j, c) == Ind(X(d, t, j, c), PrefCells(inst, d)(t, j, c));
      }
      SumExt(0, |inst.isBig|, r => Ind(X(d, t, r, c), inst.pref(d, t, c)), j => F(c, j));
    }
    SumExt(FirstWeekday, LastWeekday + 1,
      c => Sum(0, |inst.isBig|, r => Ind(X(d, t, r, c), inst.pref(d, t, c))),
      i => Sum(0, |inst.isBig|, j => F(i, j)));
    forall r | 0 <= r < |inst.isBig|
      ensures Sum(FirstWeekday, LastWeekday + 1, i => F(i, r)) == DaySum(G, t, r)
    {
      SumExt(FirstWeekday, LastWeekday + 1, i => F(i, r), c => G(t, r, c));
    }
    SumExt(0, |inst.isBig|, j => Sum(FirstWeekday, LastWeekday + 1, i => F(i, j)), r => DaySum(G, t, r));
  }

  /** Line 62: the objective is the total achieved preference minus the fairness gap U - L. */
  lemma {:induction false} ObjectiveIsAchievedMinusGap(inst: Instance, X: Assignment, U: real, L: real)
    ensures Objective(inst, X, U, L) == TotalAchieved(inst, X) - (U - L)
  {
    forall d | 0 <= d < inst.nDepts
      ensures Sum(0, inst.nSlots, t =>
                Sum(FirstWeekday, LastWeekday + 1, c =>
                  Sum(0, |inst.isBig|, r => Ind(X(d, t, r, c), inst.pref(d, t, c)))))
           == Achieved(inst, X, d)
    {
      forall t | 0 <= t < inst.nSlots
        ensures Sum(FirstWeekday, LastWeekday + 1, c => Sum(0, |inst.isBig|, r => Ind(X(d, t, r, c), inst.pref(d, t, c))))
             == RoomSum(inst, Weighted(X, d, PrefCells(inst, d)), t)
      {
        ObjectiveSlotTerm(inst, X, d, t);
      }
      SumExt(0, inst.nSlots,
        t => Sum(FirstWeekday, LastWeekday + 1, c => Sum(0, |inst.isBig|, r => Ind(X(d, t, r, c), inst.pref(d, t, c)))),
        t => RoomSum(inst, Weighted(X, d, PrefCells(inst, d)), t));
    }
    SumExt(0, inst.nDepts,
      d => Sum(0, inst.nSlots, t =>
             Sum(FirstWeekday, LastWeekday + 1, c =>
               Sum(0, |inst.isBig|, r => Ind(X(d, t, r, c), inst.pref(d, t, c))))),
      d => Achieved(inst, X, d));
  }

  /**
    * With at least one department the fairness constraints alone force
    * L <= U, so the objective never exceeds the total achieved preference.
    */
  lemma {:induction false} FeasibleBandIsOrdered(inst: Instance, X: Assignment, U: real, L: real)
    requires DenominatorsNonzero(inst)
    requires FairnessBand(inst, X, U, L)
    requires inst.nDepts >= 1
    ensures L <= U
    ensures Objective(inst, X, U, L) <= TotalAchieved(inst, X)
  {
    assert L <= Achieved(inst, X, 0) / Denominator(inst, 0) <= U;
    ObjectiveIsAchievedMinusGap(inst, X, U, L);
  }

  /** In one exclusive cell, the departments' weighted sessions add up to at most the cell's weight. */
  lemma {:induction false} ExclusiveCellLoad(inst: Instance, X: Assignment, w: (int, int, int) -> real, t: int, r: int, c: int)
    requires IsSlot(inst, t) && IsRoom(inst, r) && IsWeekday(c)
    requires Occupancy(inst, X, t, c, r) <= 1.0
    requires 0.0 <= w(t, r, c)
    ensures Sum(0, inst.nDepts, d => Weighted(X, d, w)(t, r, c)) <= w(t, r, c)
  {
    var occ := d => Ind(X(d, t, r, c), 1.0);
    var load := d => Weighted(X, d, w)(t, r, c);
    var k := w(t, r, c);
    forall d | 0 <= d < inst.nDepts ensures load(d) == k * occ(d) && 0.0 <= occ(d) {
      assert occ(d) == Ind(X(d, t, r, c), 1.0);
      assert load(d) == Weighted(X, d, w)(t, r, c) == Ind(X(d, t, r, c), k);
    }
    SumScale(0, inst.nDepts, occ, k, load);
    SumNonneg(0, inst.nDepts, occ);
    assert Sum(0, inst.nDepts, occ) == Occupancy(inst, X, t, c, r);
    ScaledFractionAtMost(k, Sum(0, inst.nDepts, occ));
    SumExt(0, inst.nDepts, load, d => Weighted(X, d, w)(t, r, c));
  }

  /**
    * Under room exclusivity, the weighted sessions of all departments add up
    * to at most the total weight of the cells.
    */
  lemma {:induction false} ExclusiveLoadBounded(inst: Instance, X: Assignment, w: (int, int, int) -> real)
    requires RoomsExclusive(inst, X)
    requires forall t, r, c :: IsSlot(inst, t) && IsRoom(inst, r) && IsWeekday(c) ==> 0.0 <= w(t, r, c)
    ensures Sum(0, inst.nDepts, d => CellSum(inst, Weighted(X, d, w))) <= CellSum(inst, w)
  {
    var G := d => Weighted(X, d, w);
    var load := (t, r, c) => Sum(0, inst.nDepts, d => G(d)(t, r, c));
    SumOfCellSums(inst, 0, inst.nDepts, G);
    SumExt(0, inst.nDepts, d => CellSum(inst, G(d)), d => CellSum(inst, Weighted(X, d, w)));
    forall t, r, c | IsSlot(inst, t) && IsRoom(inst, r) && IsWeekday(c)
      ensures load(t, r, c) <= w(t, r, c)
    {
      ExclusiveCellLoad(inst, X, w, t, r, c);
      SumExt(0, inst.nDepts, d => G(d)(t, r, c), d => Weighted(X, d, w)(t, r, c));
    }
    CellSumMono(inst, load, w);
  }

  /**
    * Lines 73-80 together: a feasible answer needs at least as many
    * (timeslot, weekday, big room) cells as there are departments.
    */
  lemma {:induction false} BigCellsBoundDepartments(inst: Instance, X: Assignment, U: real, L: real)
    requires DenominatorsNonzero(inst)
    requires Feasible(inst, X, U, L)
    ensures inst.nDepts as real <= CellSum(inst, BigCells(inst))
  {
    forall t, r, c | IsSlot(inst, t) && IsRoom(inst, r) && IsWeekday(c) ensures 0.0 <= BigCells(inst)(t, r, c) {
    }
    forall d | 0 <= d < inst.nDepts ensures 1.0 <= CellSum(inst, Weighted(X, d, BigCells(inst))) {
      assert BigRoomCount(inst, X, d) >= 1.0;
    }
    SumConst(0, inst.nDepts, _ => 1.0, 1.0);
    SumMono(0, inst.nDepts, _ => 1.0, d => CellSum(inst, Weighted(X, d, BigCells(inst))));
    ExclusiveLoadBounded(inst, X, BigCells(inst));
  }

  /**
    * Lines 73-76 and 99-100 together: with non-negative clock-hours, a
    * feasible answer needs the total required hours to fit in the hours of
    * all (timeslot, weekday, room) cells.
    */
  lemma {:induction false} HourCapacityBoundsDemand(inst: Instance, X: Assignment, U: real, L: real)
    requires DenominatorsNonzero(inst)
    requires Feasible(inst, X, U, L)
    requires forall t, c :: IsSlot(inst, t) && IsWeekday(c) ==> 0.0 <= inst.hours(t, c)
    ensures Sum(0, inst.nDepts, d => inst.hoursRequired(d)) <= CellSum(inst, HourCells(inst))
  {
    forall d | 0 <= d < inst.nDepts ensures inst.hoursRequired(d) <= CellSum(inst, Weighted(X, d, HourCells(inst))) {
      assert ScheduledHours(inst, X, d) >= inst.hoursRequired(d);
    }
    SumMono(0, inst.nDepts, d => inst.hoursRequired(d), d => CellSum(inst, Weighted(X, d, HourCells(inst))));
    ExclusiveLoadBounded(inst, X, HourCells(inst));
  }

}
