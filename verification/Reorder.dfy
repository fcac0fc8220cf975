/**
 Moving one channel after another (`ChannelViewSet.reorder`), on whole channel numbers.
 */
module Reorder {
  import opened ByteStrings

  type Rows = map<nat, Option<int>>

  datatype Outcome = TargetNotFound | NoNumber | AlreadyThere | Moved

  /** The number wanted: one past the target's, a target without a number counting as 0; 1 for no target. */
  function Desired(rows: Rows, target: Option<nat>): int
    requires target.Some? ==> target.value in rows
  {
    if target.None? then 1
    else (if rows[target.value].Some? then rows[target.value].value else 0) + 1
  }

  /** `filter(channel_number__gte=lo, channel_number__lt=hi).update(channel_number=F(...) + by)` */
  function Shift(rows: Rows, lo: int, hi: int, step: int): Rows {
    map id | id in rows :: if rows[id].Some? && lo <= rows[id].value < hi then Some(rows[id].value + step) else rows[id]
  }

  class ChannelNumbers {
    var rows: Rows

    constructor (rows: Rows)
      ensures this.rows == rows
    {
      this.rows := rows;
    }

    method Reorder(id: nat, target: Option<nat>) returns (r: Outcome)
      requires id in rows
      modifies this
      ensures r == OutcomeOf(old(rows), id, target)
      ensures r == TargetNotFound <==> target.Some? && target.value !in old(rows)
      ensures rows == if r == Moved then Reordered(old(rows), id, target) else old(rows)
    {
      var desired := 1;
      if target.Some? {
        if target.value !in rows {
          return TargetNotFound;
        }
        desired := (if rows[target.value].Some? then rows[target.value].value else 0) + 1;
      }
      if rows[id].None? {
        return NoNumber;  // comparing None with a number raises TypeError
      }
      var number := rows[id].value;
      if desired == number {
        return AlreadyThere;
      }
      if desired < number {
        rows := Shift(rows, desired, number, 1);
        rows := rows[id := Some(desired)];
      } else {
        if desired > number + 1 {
          rows := Shift(rows, number + 1, desired, -1);
        }
        rows := rows[id := Some(desired - 1)];
      }
      return Moved;
    }
  }

  function OutcomeOf(rows: Rows, id: nat, target: Option<nat>): Outcome
    requires id in rows
  {
    if target.Some? && target.value !in rows then TargetNotFound
    else if rows[id].None? then NoNumber
    else if Desired(rows, target) == rows[id].value then AlreadyThere
    else Moved
  }

  /** The numbers after the move, whatever its direction. */
  function Reordered(rows: Rows, id: nat, target: Option<nat>): Rows
    requires id in rows && rows[id].Some? && (target.Some? ==> target.value in rows)
  {
    var desired, number := Desired(rows, target), rows[id].value;
    map c | c in rows ::
      if c == id then Some(Landing(desired, number))
      else if rows[c].None? then None
      else Some(Pushed(rows[c].value, desired, number))
  }

  function Landing(desired: int, number: int): int {
    if desired <= number then desired else desired - 1
  }

  /** Where the move of a channel from `number` pushes another one. */
  function Pushed(n: int, desired: int, number: int): int {
    if desired <= n < number then n + 1 else if number < n < desired then n - 1 else n
  }

  // ----- what a move keeps

  ghost predicate Distinct(rows: Rows) {
    forall a, b :: a in rows && b in rows && a != b && rows[a].Some? ==> rows[a] != rows[b]
  }

  predicate CanMove(rows: Rows, id: nat, target: Option<nat>) {
    id in rows && rows[id].Some? && (target.Some? ==> target.value in rows)
  }

  /** Numbers that were distinct stay so, and every other two channels keep their order. */
  lemma MoveKeepsTheRest(rows: Rows, id: nat, target: Option<nat>)
    requires CanMove(rows, id, target) && Distinct(rows)
    ensures var after := Reordered(rows, id, target);
            && Distinct(after)
            && (forall a, b :: a in rows && b in rows && a != id && b != id && rows[a].Some? && rows[b].Some? ==>
                  (rows[a].value < rows[b].value <==> after[a].value < after[b].value))
  {
    var after := Reordered(rows, id, target);
    forall a, b | a in after && b in after && a != b && after[a].Some? ensures after[a] != after[b] {
      if after[b].Some? {
        assert rows[a] != rows[b];
      }
    }
    forall a, b | a in rows && b in rows && a != id && b != id && rows[a].Some? && rows[b].Some?
      ensures rows[a].value < rows[b].value <==> after[a].value < after[b].value
    {
      assert rows[a] != rows[id] && rows[b] != rows[id];
    }
  }

  /** The moved channel comes directly after its target. */
  lemma LandsAfterItsTarget(rows: Rows, id: nat, target: nat)
    requires CanMove(rows, id, Some(target)) && Distinct(rows) && target != id && rows[target].Some?
    ensures var after := Reordered(rows, id, Some(target));
            after[target].Some? && after[id] == Some(after[target].value + 1)
  {
    assert rows[target] != rows[id];
  }

  /**
   Moved to the front, it comes out at 1 exactly when it was at 1 or above; a channel numbered 0
   or below, sent to the front, ends at 0.
   */
  lemma LandsAtTheFrontIff(rows: Rows, id: nat)
    requires CanMove(rows, id, None)
    ensures Reordered(rows, id, None)[id] == Some(1) <==> rows[id].value >= 1
    ensures rows[id].value < 1 ==> Reordered(rows, id, None)[id] == Some(0)
  {
  }

  /** A target that has no number is as good as none: the channel goes to the front. */
  lemma UnnumberedTarget(rows: Rows, id: nat, target: nat)
    requires CanMove(rows, id, Some(target)) && rows[target].None?
    ensures Reordered(rows, id, Some(target)) == Reordered(rows, id, None)
  {
  }

  /**
   Only the channels from where the channel was to where it lands change their numbers, each by one
   towards where it was.
   */
  lemma OnlyTheOnesBetween(rows: Rows, id: nat, target: Option<nat>, c: nat)
    requires CanMove(rows, id, target) && Distinct(rows) && c in rows && c != id && rows[c].Some?
    ensures var after, n := Reordered(rows, id, target), rows[c].value;
            && after[id].Some? && after[c].Some?
            && (rows[id].value < n <= after[id].value ==> after[c].value == n - 1)
            && (after[id].value <= n < rows[id].value ==> after[c].value == n + 1)
            && (!(rows[id].value < n <= after[id].value) && !(after[id].value <= n < rows[id].value) ==> after[c] == rows[c])
  {
  }

  /** A channel with a number is moved, unless it is where it is to go already: then a move would change nothing. */
  lemma AlreadyThereMeans(rows: Rows, id: nat, target: Option<nat>)
    requires CanMove(rows, id, target)
    ensures OutcomeOf(rows, id, target) == Moved || OutcomeOf(rows, id, target) == AlreadyThere
    ensures OutcomeOf(rows, id, target) == AlreadyThere ==> Reordered(rows, id, target) == rows
    ensures OutcomeOf(rows, id, target) == Moved && Reordered(rows, id, target) == rows ==> Desired(rows, target) == rows[id].value + 1
  {
    if OutcomeOf(rows, id, target) == AlreadyThere {
      assert forall c :: c in rows ==> Reordered(rows, id, target)[c] == rows[c];
    }
  }

  ghost predicate Used(rows: Rows, n: int) {
    exists c :: c in rows && rows[c] == Some(n)
  }

  /** The numbers between where the channel was and where it lands, both included. */
  predicate Between(n: int, desired: int, number: int) {
    var landing := Landing(desired, number);
    landing <= n <= number || number <= n <= landing
  }

  /** The same numbers are in use afterwards, exactly when there was no gap on the way. */
  lemma SameNumbersIffNoGap(rows: Rows, id: nat, target: Option<nat>)
    requires CanMove(rows, id, target) && Distinct(rows)
    ensures var after := Reordered(rows, id, target);
            (forall n :: Used(after, n) <==> Used(rows, n))
            <==> (forall n :: Between(n, Desired(rows, target), rows[id].value) ==> Used(rows, n))
  {
    var desired, number := Desired(rows, target), rows[id].value;
    var after := Reordered(rows, id, target);
    if forall n :: Between(n, desired, number) ==> Used(rows, n) {
      forall n ensures Used(after, n) <==> Used(rows, n) {
        if Used(after, n) {
          NoGapAddsNone(rows, id, target, n);
        }
        if Used(rows, n) {
          NoGapLosesNone(rows, id, target, n);
        }
      }
    }
    if forall n :: Used(after, n) <==> Used(rows, n) {
      forall n | Between(n, desired, number) ensures Used(rows, n) {
        NoGapNeeded(rows, id, target, n);
      }
    }
  }

  lemma NoGapAddsNone(rows: Rows, id: nat, target: Option<nat>, n: int)
    requires CanMove(rows, id, target) && Distinct(rows)
    requires forall m :: Between(m, Desired(rows, target), rows[id].value) ==> Used(rows, m)
    requires Used(Reordered(rows, id, target), n)
    ensures Used(rows, n)
  {
    var after := Reordered(rows, id, target);
    var c :| c in after && after[c] == Some(n);
    if !Between(n, Desired(rows, target), rows[id].value) {
      assert c != id && rows[c] == Some(n);
    }
  }

  lemma NoGapLosesNone(rows: Rows, id: nat, target: Option<nat>, n: int)
    requires CanMove(rows, id, target) && Distinct(rows)
    requires forall m :: Between(m, Desired(rows, target), rows[id].value) ==> Used(rows, m)
    requires Used(rows, n)
    ensures Used(Reordered(rows, id, target), n)
  {
    var desired, number := Desired(rows, target), rows[id].value;
    var after, landing := Reordered(rows, id, target), Landing(desired, number);
    if n == landing {
      assert after[id] == Some(n);
    } else {
      var from := if !Between(n, desired, number) then n else if landing < number then n - 1 else n + 1;
      assert Used(rows, from);
      var c :| c in rows && rows[c] == Some(from);
      assert c != id;
      assert after[c] == Some(n);
    }
  }

  /** Going back from the channel's old number towards where it landed, no number can be missing. */
  lemma {:induction false} NoGapNeeded(rows: Rows, id: nat, target: Option<nat>, n: int)
    requires CanMove(rows, id, target) && Distinct(rows)
    requires forall m :: Used(Reordered(rows, id, target), m) <==> Used(rows, m)
    requires Between(n, Desired(rows, target), rows[id].value)
    ensures Used(rows, n)
    decreases if n < rows[id].value then rows[id].value - n else n - rows[id].value
  {
    var desired, number := Desired(rows, target), rows[id].value;
    var after := Reordered(rows, id, target);
    if n != number {
      var nearer := if n < number then n + 1 else n - 1;
      NoGapNeeded(rows, id, target, nearer);
      assert Used(after, nearer);
      var c :| c in after && after[c] == Some(nearer);
      assert c != id;
      assert rows[c] != rows[id];
      assert rows[c] == Some(n);
    }
  }
}
