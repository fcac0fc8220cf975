/**
 What compact numbering guarantees: of one repack, of one assignment, and of any run of hides,
 unhides, repacks and changes of overrides over the channel table.
 */
module ChannelRuns {
  import opened ByteStrings
  import opened CompactNumbering

  /** No two channels have the same number. */
  ghost predicate Distinct(rows: Rows) {
    forall a, b :: a in rows && b in rows && a != b && rows[a].number.Some? ==> rows[a].number != rows[b].number
  }

  /** No override has this number. */
  predicate Unpinned(rows: Rows, x: real) {
    forall id :: id in rows ==> rows[id].pin != Some(x)
  }

  /** A number a packer wrote: an integer of the range that no override has. */
  ghost predicate WellPlaced(rows: Rows, rel: Relation, number: Option<real>) {
    number.Some? ==>
      && Unpinned(rows, number.value)
      && exists n :: InRangeOf(rel, n) && number.value == n as real
  }

  /** An integer of the range that no override has, and no channel but these. */
  ghost predicate Open(rows: Rows, these: set<nat>, rel: Relation, n: int) {
    InRangeOf(rel, n) && Unpinned(rows, n as real) && forall id :: id in rows && id !in these ==> rows[id].number != Some(n as real)
  }

  /** The integer is some override's or some channel's number. */
  ghost predicate Taken(rows: Rows, n: int) {
    exists id :: id in rows && (rows[id].pin == Some(n as real) || rows[id].number == Some(n as real))
  }

  /** The first open integers: ascending, none passed over, and none missing while one is open. */
  ghost predicate FirstOpen(p: seq<Option<int>>, rows: Rows, these: set<nat>, rel: Relation) {
    && (forall i :: 0 <= i < |p| && p[i].Some? ==> Open(rows, these, rel, p[i].value))
    && (forall i, j :: 0 <= i < j < |p| && p[j].Some? ==> p[i].Some? && p[i].value < p[j].value)
    && (forall i, n :: 0 <= i < |p| && Open(rows, these, rel, n) && (p[i].None? || n < p[i].value) ==> Some(n) in p[..i])
  }

  lemma OpenIsFree(rows: Rows, these: set<nat>, rel: Relation, n: int)
    ensures Open(rows, these, rel, n) <==> Free(n, Reserved(rows, these, Start(rel), End(rel)), Start(rel), End(rel))
  {
    var used := Reserved(rows, these, Start(rel), End(rel));
    RangeOf(rel, n);
    if Free(n, used, Start(rel), End(rel)) {
      FreeMeansUnused(rows, these, Start(rel), End(rel), n);
    }
  }

  lemma PackedIsFirstOpen(rows: Rows, these: set<nat>, rel: Relation, k: nat)
    ensures FirstOpen(Packed(Reserved(rows, these, Start(rel), End(rel)), Start(rel), End(rel), k), rows, these, rel)
  {
    var used := Reserved(rows, these, Start(rel), End(rel));
    var p := Packed(used, Start(rel), End(rel), k);
    PackedIsFirstFree(used, Start(rel), End(rel), k);
    forall i | 0 <= i < |p| && p[i].Some? ensures Open(rows, these, rel, p[i].value) {
      OpenIsFree(rows, these, rel, p[i].value);
    }
    forall i, n | 0 <= i < |p| && Open(rows, these, rel, n) && (p[i].None? || n < p[i].value) ensures Some(n) in p[..i] {
      OpenIsFree(rows, these, rel, n);
      assert NonePassedOver(p, i, used, Start(rel), End(rel));
    }
  }

  /** Integer order and real order agree. */
  lemma Monotone(a: int, b: int)
    ensures a <= b <==> a as real <= b as real
  {
  }

  /** A free number is no override's and no other channel's. */
  lemma FreeMeansUnused(rows: Rows, exclude: set<nat>, start: int, end: Option<int>, n: int)
    requires Free(n, Reserved(rows, exclude, start, end), start, end)
    ensures Unpinned(rows, n as real)
    ensures forall id :: id in rows && id !in exclude ==> rows[id].number != Some(n as real)
  {
    var used := Reserved(rows, exclude, start, end);
    Monotone(start, n);
    if end.Some? {
      Monotone(n, end.value);
    }
    assert forall id :: id in rows && rows[id].pin.Some? && Within(rows[id].pin.value, start, end) ==>
      rows[id].pin.value in used;
    assert forall id :: id in rows && id !in exclude && rows[id].number.Some? && Within(rows[id].number.value, start, end) ==>
      rows[id].number.value in used;
  }

  /** Giving first free numbers to channels that are set aside keeps the numbers apart. */
  lemma GivenKeepsDistinct(rows: Rows, exclude: set<nat>, ids: seq<nat>, start: int, end: Option<int>)
    requires forall i :: 0 <= i < |ids| ==> ids[i] in rows && ids[i] in exclude
    requires NoRepeats(ids)
    requires Distinct(rows)
    ensures var p := Packed(Reserved(rows, exclude, start, end), start, end, |ids|);
            var given := Given(rows, ids, p);
            forall a, b :: (a in given && b in given && a != b && (a in ids || a !in exclude) && (b in ids || b !in exclude)
                            && given[a].number.Some?) ==> given[a].number != given[b].number
  {
    var used := Reserved(rows, exclude, start, end);
    var p := Packed(used, start, end, |ids|);
    var given := Given(rows, ids, p);
    PackedIsFirstFree(used, start, end, |ids|);
    GivenAt(rows, ids, p);
    forall a, b | a in given && b in given && a != b && (a in ids || a !in exclude) && (b in ids || b !in exclude)
        && given[a].number.Some?
      ensures given[a].number != given[b].number
    {
      if a in ids && b in ids {
        var i :| 0 <= i < |ids| && ids[i] == a;
        var j :| 0 <= j < |ids| && ids[j] == b;
        PackedApart(used, start, end, p, i, j);
      } else if a in ids {
        GivenApart(rows, exclude, ids, start, end, a, b);
      } else if b in ids {
        GivenApart(rows, exclude, ids, start, end, b, a);
      }
    }
  }

  lemma PackedApart(used: set<real>, start: int, end: Option<int>, p: seq<Option<int>>, i: nat, j: nat)
    requires FirstFree(p, used, start, end) && i < |p| && j < |p| && i != j && p[i].Some?
    ensures AsNumber(p[i]) != AsNumber(p[j])
  {
    if p[j].Some? {
      var a, b := if i < j then i else j, if i < j then j else i;
      assert p[a].value < p[b].value;
      Monotone(p[b].value, p[a].value);
    }
  }

  lemma GivenApart(rows: Rows, exclude: set<nat>, ids: seq<nat>, start: int, end: Option<int>, a: nat, b: nat)
    requires forall i :: 0 <= i < |ids| ==> ids[i] in rows && ids[i] in exclude
    requires NoRepeats(ids)
    requires a in ids && b in rows && b !in exclude
    ensures var given := Given(rows, ids, Packed(Reserved(rows, exclude, start, end), start, end, |ids|));
            a in given && b in given && (given[a].number.None? || given[a].number != given[b].number)
  {
    var used := Reserved(rows, exclude, start, end);
    var p := Packed(used, start, end, |ids|);
    PackedIsFirstFree(used, start, end, |ids|);
    GivenAt(rows, ids, p);
    var i :| 0 <= i < |ids| && ids[i] == a;
    if p[i].Some? {
      FreeMeansUnused(rows, exclude, start, end, p[i].value);
    }
  }

  // ----- one repack

  /**
   After a repack the channels of the group that are shown and have no override number have, in sort
   order, exactly the first open integers of the range; the hidden and the pinned have no number;
   nothing else changed.
   */
  lemma RepackPacks(rows: Rows, rel: Relation, order: seq<nat>)
    requires IsOrder(rows, rel, order)
    ensures var after, numbers := Repacked(rows, rel, order), RepackNumbers(rows, rel, |order|);
            && after.Keys == rows.Keys
            && FirstOpen(numbers, rows, Members(rows, rel), rel)
            && (forall i :: 0 <= i < |order| ==> after[order[i]] == rows[order[i]].(number := AsNumber(numbers[i])))
            && (forall id :: id in rows && Belongs(rows[id], rel) && !rows[id].hidden && rows[id].pin.None? ==> id in order)
            && (forall id :: id in rows && Belongs(rows[id], rel) && (rows[id].hidden || rows[id].pin.Some?) ==>
                  after[id] == rows[id].(number := None))
            && (forall id :: id in rows && !Belongs(rows[id], rel) ==> after[id] == rows[id])
  {
    var numbers := RepackNumbers(rows, rel, |order|);
    PackedIsFirstOpen(rows, Members(rows, rel), rel, |order|);
    GivenAt(rows, order, numbers);
    forall i | 0 <= i < |order| ensures order[i] in rows && Visible(rows[order[i]]) {
      assert order[i] in order;
    }
  }

  /** An integer of the range that is open is given to some channel before one goes without. */
  lemma TakenWhenOneGoesWithout(p: seq<Option<int>>, rows: Rows, these: set<nat>, ids: seq<nat>, rel: Relation, after: Rows, i: nat, n: int)
    requires FirstOpen(p, rows, these, rel) && |ids| == |p| && i < |p| && p[i].None? && InRangeOf(rel, n)
    requires after.Keys == rows.Keys && forall k :: 0 <= k < |ids| ==> ids[k] in rows && after[ids[k]].number == AsNumber(p[k])
    requires forall id :: id in rows ==> after[id].pin == rows[id].pin && (id !in these ==> after[id].number == rows[id].number)
    ensures Taken(after, n)
  {
    if Open(rows, these, rel, n) {
      var k :| 0 <= k < i && p[..i][k] == Some(n);
      assert after[ids[k]].number == Some(n as real);
    }
  }

  /** A visible channel goes without a number only when every integer of the range is taken. */
  lemma FailedOnlyWhenFull(rows: Rows, rel: Relation, order: seq<nat>, id: nat, n: int)
    requires IsOrder(rows, rel, order) && id in order && InRangeOf(rel, n)
    requires var after := Repacked(rows, rel, order); id in after && after[id].number.None?
    ensures Taken(Repacked(rows, rel, order), n)
  {
    var after := Repacked(rows, rel, order);
    RepackPacks(rows, rel, order);
    SameButNumbers(rows, rel, order);
    var i :| 0 <= i < |order| && order[i] == id;
    assert forall k :: 0 <= k < |order| ==> order[k] in order;
    TakenWhenOneGoesWithout(RepackNumbers(rows, rel, |order|), rows, Members(rows, rel), order, rel, after, i, n);
  }

  /** What is packed over does not depend on the numbers of the group itself. */
  lemma ReservedSame(rows: Rows, after: Rows, exclude: set<nat>, start: int, end: Option<int>)
    requires rows.Keys == after.Keys
    requires forall id :: id in rows ==> after[id].pin == rows[id].pin
    requires forall id :: id in rows && id !in exclude ==> after[id].number == rows[id].number
    ensures Reserved(rows, exclude, start, end) == Reserved(after, exclude, start, end)
  {
    ReservedWithin(rows, after, exclude, start, end);
    ReservedWithin(after, rows, exclude, start, end);
  }

  lemma ReservedWithin(rows: Rows, after: Rows, exclude: set<nat>, start: int, end: Option<int>)
    requires rows.Keys == after.Keys
    requires forall id :: id in rows ==> after[id].pin == rows[id].pin
    requires forall id :: id in rows && id !in exclude ==> after[id].number == rows[id].number
    ensures Reserved(rows, exclude, start, end) <= Reserved(after, exclude, start, end)
  {
    var used := Reserved(after, exclude, start, end);
    forall id | id in rows && rows[id].pin.Some? && Within(rows[id].pin.value, start, end)
      ensures rows[id].pin.value in used
    {
      assert after[id].pin.value in used;
    }
    forall id | id in rows && id !in exclude && rows[id].number.Some? && Within(rows[id].number.value, start, end)
      ensures rows[id].number.value in used
    {
      assert after[id].number.value in used;
    }
  }

  /** Repacking again changes nothing. */
  lemma RepackIdempotent(rows: Rows, rel: Relation, order: seq<nat>)
    requires IsOrder(rows, rel, order)
    ensures IsOrder(Repacked(rows, rel, order), rel, order)
    ensures Repacked(Repacked(rows, rel, order), rel, order) == Repacked(rows, rel, order)
  {
    var after := Repacked(rows, rel, order);
    SameGroup(rows, rel, order);
    RepackPacks(after, rel, order);
    forall id | id in after ensures Repacked(after, rel, order)[id] == after[id] {
      SameAgain(rows, rel, order, id);
    }
  }

  /** A repack leaves its own task as it found it. */
  lemma SameGroup(rows: Rows, rel: Relation, order: seq<nat>)
    requires IsOrder(rows, rel, order)
    ensures var after := Repacked(rows, rel, order);
            IsOrder(after, rel, order) && forall k: nat :: RepackNumbers(after, rel, k) == RepackNumbers(rows, rel, k)
  {
    var after := Repacked(rows, rel, order);
    RepackPacks(rows, rel, order);
    SameButNumbers(rows, rel, order);
    assert Members(after, rel) == Members(rows, rel);
    ReservedSame(rows, after, Members(rows, rel), Start(rel), End(rel));
  }

  lemma SameAgain(rows: Rows, rel: Relation, order: seq<nat>, id: nat)
    requires IsOrder(rows, rel, order) && id in Repacked(rows, rel, order)
    ensures var after := Repacked(rows, rel, order);
            id in Repacked(after, rel, order) && Repacked(after, rel, order)[id] == after[id]
  {
    var after := Repacked(rows, rel, order);
    SameGroup(rows, rel, order);
    RepackPacks(rows, rel, order);
    RepackPacks(after, rel, order);
    if id in order {
      var i :| 0 <= i < |order| && order[i] == id;
    }
  }

  lemma SameButNumbers(rows: Rows, rel: Relation, order: seq<nat>)
    requires IsOrder(rows, rel, order)
    ensures var after := Repacked(rows, rel, order);
            && after.Keys == rows.Keys
            && forall id :: id in rows ==> after[id] == rows[id].(number := after[id].number)
  {
    RepackPacks(rows, rel, order);
    var after := Repacked(rows, rel, order);
    forall id | id in rows ensures after[id] == rows[id].(number := after[id].number) {
      if id in order {
        var i :| 0 <= i < |order| && order[i] == id;
      }
    }
  }

  /** A number that is there after a repack was given by it, or belongs to a channel outside the group. */
  lemma NumberedBy(rows: Rows, rel: Relation, order: seq<nat>, id: nat)
    requires IsOrder(rows, rel, order) && id in rows
    ensures var after, given := Repacked(rows, rel, order), Given(rows, order, RepackNumbers(rows, rel, |order|));
            && id in after && id in given
            && (after[id].number.Some? ==> after[id] == given[id] && (id in order || id !in Members(rows, rel)))
  {
    GivenAt(rows, order, RepackNumbers(rows, rel, |order|));
  }

  lemma RepackKeepsDistinct(rows: Rows, rel: Relation, order: seq<nat>)
    requires IsOrder(rows, rel, order) && Distinct(rows)
    ensures Distinct(Repacked(rows, rel, order))
  {
    var after := Repacked(rows, rel, order);
    SameButNumbers(rows, rel, order);
    assert forall i :: 0 <= i < |order| ==> order[i] in order;
    GivenKeepsDistinct(rows, Members(rows, rel), order, Start(rel), End(rel));
    forall a, b | a in after && b in after && a != b && after[a].number.Some? ensures after[a].number != after[b].number {
      NumberedBy(rows, rel, order, a);
      NumberedBy(rows, rel, order, b);
    }
  }

  lemma RepackPlacesWell(rows: Rows, rel: Relation, order: seq<nat>, id: nat)
    requires IsOrder(rows, rel, order) && id in Members(rows, rel)
    ensures var after := Repacked(rows, rel, order); id in after && WellPlaced(after, rel, after[id].number)
  {
    var after, numbers := Repacked(rows, rel, order), RepackNumbers(rows, rel, |order|);
    RepackPacks(rows, rel, order);
    SameButNumbers(rows, rel, order);
    if id in order {
      var i :| 0 <= i < |order| && order[i] == id;
      if numbers[i].Some? {
        assert Open(rows, Members(rows, rel), rel, numbers[i].value);
      }
    }
  }

  // ----- one assignment

  predicate InWork(work: Work, id: nat) {
    exists n :: 0 <= n < |work| && id in work[n].1
  }

  /** Only numbers have changed, only of the channels in the work, and to well placed ones. */
  ghost predicate AssignOutcome(rows: Rows, work: Work, after: Rows) {
    && after.Keys == rows.Keys
    && (forall id :: id in rows ==> after[id] == rows[id].(number := after[id].number))
    && (forall id :: id in rows && !InWork(work, id) ==> after[id] == rows[id])
    && (forall n, id :: 0 <= n < |work| && id in work[n].1 ==> id in after && WellPlaced(after, work[n].0, after[id].number))
  }

  lemma {:induction false} AssignedKeeps(rows: Rows, rels: Relations, work: Work, locked: nat -> bool)
    requires IsWork(rows, rels, work)
    ensures AssignOutcome(rows, work, Assigned(rows, work, locked))
    ensures Distinct(rows) ==> Distinct(Assigned(rows, work, locked))
  {
    if work != [] {
      var last := |work| - 1;
      var front, rel, ids := work[..last], work[last].0, work[last].1;
      WorkFront(rows, rels, work);
      AssignedKeeps(rows, rels, front, locked);
      var before := Assigned(rows, front, locked);
      LastUntouched(rows, rels, work, before);
      if locked(rel.account) {
        PieceKeeps(before, rels, rel, ids);
        if Distinct(before) {
          PieceKeepsDistinct(before, rels, rel, ids);
        }
        PieceAfterFront(rows, rels, work, before, Assigned(rows, work, locked));
      } else {
        SkippedAfterFront(rows, rels, work, before);
      }
    }
  }

  lemma WorkFront(rows: Rows, rels: Relations, work: Work)
    requires IsWork(rows, rels, work) && work != []
    ensures IsWork(rows, rels, work[..|work| - 1])
  {
    var front := work[..|work| - 1];
    assert forall n :: 0 <= n < |front| ==> front[n] == work[n];
  }

  /** The channels of the last piece are as they were when their turn comes. */
  lemma LastUntouched(rows: Rows, rels: Relations, work: Work, before: Rows)
    requires IsWork(rows, rels, work) && work != [] && AssignOutcome(rows, work[..|work| - 1], before)
    ensures forall id :: id in work[|work| - 1].1 ==> id in rows && before[id] == rows[id] && Eligible(rows[id])
    ensures IsPiece(before, rels, work[|work| - 1])
  {
    var last := |work| - 1;
    assert IsPiece(rows, rels, work[last]);
    forall id | id in work[last].1 ensures id in rows && before[id] == rows[id] && Eligible(rows[id]) {
      forall n | 0 <= n < last ensures id !in work[n].1 {
        if id in work[n].1 {
          OnePieceEach(rows, rels, work, n, last, id);
        }
      }
      assert !InWork(work[..last], id);
    }
  }

  lemma PieceAfterFront(rows: Rows, rels: Relations, work: Work, before: Rows, after: Rows)
    requires IsWork(rows, rels, work) && work != [] && AssignOutcome(rows, work[..|work| - 1], before)
    requires after.Keys == before.Keys
    requires forall id :: id in before ==> after[id] == before[id].(number := after[id].number)
    requires forall id :: id in before && id !in work[|work| - 1].1 ==> after[id] == before[id]
    requires forall id :: id in work[|work| - 1].1 ==> id in after && WellPlaced(after, work[|work| - 1].0, after[id].number)
    ensures AssignOutcome(rows, work, after)
  {
    var last := |work| - 1;
    var front := work[..last];
    forall n, id | 0 <= n < |work| && id in work[n].1 ensures id in after && WellPlaced(after, work[n].0, after[id].number) {
      if n < last {
        OnePieceEach(rows, rels, work, n, last, id);
        assert front[n] == work[n];
        StillWellPlaced(before, after, work[n].0, before[id].number);
      }
    }
    forall id | id in rows && !InWork(work, id) ensures after[id] == rows[id] {
      assert id !in work[last].1;
      assert forall n :: 0 <= n < |front| ==> front[n] == work[n];
    }
  }

  /** Channels whose account is being refreshed stay without a number. */
  lemma SkippedAfterFront(rows: Rows, rels: Relations, work: Work, before: Rows)
    requires IsWork(rows, rels, work) && work != [] && AssignOutcome(rows, work[..|work| - 1], before)
    ensures AssignOutcome(rows, work, before)
  {
    LastUntouched(rows, rels, work, before);
    PieceAfterFront(rows, rels, work, before, before);
  }

  lemma StillWellPlaced(before: Rows, after: Rows, rel: Relation, number: Option<real>)
    requires WellPlaced(before, rel, number) && after.Keys == before.Keys
    requires forall id :: id in before ==> after[id].pin == before[id].pin
    ensures WellPlaced(after, rel, number)
  {
  }

  lemma PieceKeeps(rows: Rows, rels: Relations, rel: Relation, ids: seq<nat>)
    requires IsPiece(rows, rels, (rel, ids))
    ensures var after := Given(rows, ids, AssignNumbers(rows, rel, ids));
            && after.Keys == rows.Keys
            && (forall id :: id in rows ==> after[id] == rows[id].(number := after[id].number))
            && (forall id :: id in rows && id !in ids ==> after[id] == rows[id])
            && (forall id :: id in ids ==> WellPlaced(after, rel, after[id].number))
  {
    var p := AssignNumbers(rows, rel, ids);
    var after := Given(rows, ids, p);
    GivenAt(rows, ids, p);
    PackedIsFirstOpen(rows, AsSet(ids), rel, |ids|);
    forall id | id in rows ensures after[id] == rows[id].(number := after[id].number) {
      if id in ids {
        var i :| 0 <= i < |ids| && ids[i] == id;
      }
    }
    forall id | id in ids ensures WellPlaced(after, rel, after[id].number) {
      var i :| 0 <= i < |ids| && ids[i] == id;
      if p[i].Some? {
        assert Open(rows, AsSet(ids), rel, p[i].value);
      }
    }
  }

  lemma PieceKeepsDistinct(rows: Rows, rels: Relations, rel: Relation, ids: seq<nat>)
    requires IsPiece(rows, rels, (rel, ids)) && Distinct(rows)
    ensures Distinct(Given(rows, ids, AssignNumbers(rows, rel, ids)))
  {
    var after := Given(rows, ids, AssignNumbers(rows, rel, ids));
    GivenKeepsDistinct(rows, AsSet(ids), ids, Start(rel), End(rel));
    assert forall id :: id in ids || id !in AsSet(ids);
  }

  lemma PieceFillsUp(rows: Rows, rels: Relations, rel: Relation, ids: seq<nat>, id: nat, k: int)
    requires IsPiece(rows, rels, (rel, ids)) && id in ids && InRangeOf(rel, k)
    requires var after := Given(rows, ids, AssignNumbers(rows, rel, ids)); id in after && after[id].number.None?
    ensures Taken(Given(rows, ids, AssignNumbers(rows, rel, ids)), k)
  {
    var p, after := AssignNumbers(rows, rel, ids), Given(rows, ids, AssignNumbers(rows, rel, ids));
    PackedIsFirstOpen(rows, AsSet(ids), rel, |ids|);
    GivenAt(rows, ids, p);
    PieceKeeps(rows, rels, rel, ids);
    var i :| 0 <= i < |ids| && ids[i] == id;
    TakenWhenOneGoesWithout(p, rows, AsSet(ids), ids, rel, after, i, k);
  }

  /** What the last piece leaves as it was. */
  lemma LastPieceOnly(rows: Rows, rels: Relations, work: Work, locked: nat -> bool)
    requires IsWork(rows, rels, work) && work != []
    ensures var n := |work| - 1;
            var before, after := Assigned(rows, work[..n], locked), Assigned(rows, work, locked);
            && after.Keys == before.Keys == rows.Keys
            && (forall id :: id in rows ==> after[id] == before[id].(number := after[id].number))
            && (forall id :: id in rows && id !in work[n].1 ==> after[id] == before[id])
            && (forall id :: id in work[n].1 ==> id in rows && before[id].number.None?)
            && IsPiece(before, rels, work[n])
  {
    var n := |work| - 1;
    var front, before := work[..n], Assigned(rows, work[..n], locked);
    WorkFront(rows, rels, work);
    AssignedKeeps(rows, rels, front, locked);
    LastUntouched(rows, rels, work, before);
    if locked(work[n].0.account) {
      PieceKeeps(before, rels, work[n].0, work[n].1);
    }
  }

  /** What was taken when the last piece came is taken after it: its channels had no numbers. */
  lemma StillTaken(rows: Rows, rels: Relations, work: Work, locked: nat -> bool, k: int)
    requires IsWork(rows, rels, work) && work != [] && Taken(Assigned(rows, work[..|work| - 1], locked), k)
    ensures Taken(Assigned(rows, work, locked), k)
  {
    var before, after := Assigned(rows, work[..|work| - 1], locked), Assigned(rows, work, locked);
    LastPieceOnly(rows, rels, work, locked);
    var c :| c in before && (before[c].pin == Some(k as real) || before[c].number == Some(k as real));
    assert after[c].pin == before[c].pin;
  }

  /** A channel in the work goes without a number only when every integer of the range is taken, or its account is locked. */
  lemma {:induction false} AssignedFillsUp(rows: Rows, rels: Relations, work: Work, locked: nat -> bool, n: nat, id: nat, k: int)
    requires IsWork(rows, rels, work) && n < |work| && id in work[n].1 && locked(work[n].0.account) && InRangeOf(work[n].0, k)
    requires var after := Assigned(rows, work, locked); id in after && after[id].number.None?
    ensures Taken(Assigned(rows, work, locked), k)
    decreases |work|
  {
    var last := |work| - 1;
    LastPieceOnly(rows, rels, work, locked);
    if n == last {
      PieceFillsUp(Assigned(rows, work[..last], locked), rels, work[n].0, work[n].1, id, k);
    } else {
      OnePieceEach(rows, rels, work, n, last, id);
      WorkFront(rows, rels, work);
      assert work[..last][n] == work[n];
      AssignedFillsUp(rows, rels, work[..last], locked, n, id, k);
      StillTaken(rows, rels, work, locked, k);
    }
  }

  /** Channels of an account under refresh are left as they are. */
  lemma {:induction false} RefreshingIsLeftAlone(rows: Rows, rels: Relations, work: Work, locked: nat -> bool, n: nat, id: nat)
    requires IsWork(rows, rels, work) && n < |work| && id in work[n].1 && !locked(work[n].0.account)
    ensures id in rows && id in Assigned(rows, work, locked) && Assigned(rows, work, locked)[id] == rows[id]
    decreases |work|
  {
    var last := |work| - 1;
    LastPieceOnly(rows, rels, work, locked);
    WorkFront(rows, rels, work);
    if n == last {
      AssignedKeeps(rows, rels, work[..last], locked);
      LastUntouched(rows, rels, work, Assigned(rows, work[..last], locked));
    } else {
      OnePieceEach(rows, rels, work, n, last, id);
      assert work[..last][n] == work[n];
      RefreshingIsLeftAlone(rows, rels, work[..last], locked, n, id);
    }
  }

  /**
   The other pieces are packed one after the other: the channels of each get, in turn, the first open
   integers of its range as the table is when its turn comes, and keep them.
   */
  lemma {:induction false} AssignedPacks(rows: Rows, rels: Relations, work: Work, locked: nat -> bool, n: nat) returns (p: seq<Option<int>>)
    requires IsWork(rows, rels, work) && n < |work| && locked(work[n].0.account)
    ensures var (rel, ids) := work[n];
            var after := Assigned(rows, work, locked);
            && |p| == |ids| && FirstOpen(p, Assigned(rows, work[..n], locked), AsSet(ids), rel)
            && forall i :: 0 <= i < |ids| ==> ids[i] in after && after[ids[i]].number == AsNumber(p[i])
    decreases |work|
  {
    var last, ids := |work| - 1, work[n].1;
    LastPieceOnly(rows, rels, work, locked);
    if n == last {
      var before := Assigned(rows, work[..n], locked);
      p := AssignNumbers(before, work[n].0, ids);
      PackedIsFirstOpen(before, AsSet(ids), work[n].0, |ids|);
      GivenAt(before, ids, p);
    } else {
      WorkFront(rows, rels, work);
      assert work[..last][n] == work[n] && work[..last][..n] == work[..n];
      p := AssignedPacks(rows, rels, work[..last], locked, n);
      forall i | 0 <= i < |ids| ensures ids[i] !in work[last].1 {
        OnePieceEach(rows, rels, work, n, last, ids[i]);
      }
    }
  }

  lemma ShownIsAssigned(rows: Rows, showing: seq<nat>, rels: Relations, locked: nat -> bool, id: nat, rel: Relation, k: int)
    requires NoRepeats(showing) && id in showing && rel.compact && locked(rel.account) && InRangeOf(rel, k)
    requires Resolves(rows, rels, id, rel)
    requires forall other :: other in showing && Resolves(rows, rels, other, rel) ==> PairOf(rows[other]) == PairOf(rows[id])
    requires var after := Assigned(rows, WorkFor(rows, showing, rels), locked); id in after && after[id].number.None?
    ensures Taken(Assigned(rows, WorkFor(rows, showing, rels), locked), k)
  {
    var work := WorkFor(rows, showing, rels);
    WorkIsWork(rows, showing, rels);
    EveryoneIsGathered(rows, showing, rels, id, rel);
    var piece :| piece in work && piece.0 == rel && id in piece.1;
    var n :| 0 <= n < |work| && work[n] == piece;
    AssignedFillsUp(rows, rels, work, locked, n, id, k);
  }

  // ----- one bulk edit

  /** What a bulk edit does to each channel: its flag, its number if it is released or shown, nothing else. */
  lemma EditDoes(rows: Rows, hiding: seq<nat>, showing: seq<nat>, rels: Relations, locked: nat -> bool, id: nat)
    requires NoRepeats(showing) && id in rows
    ensures var after, relation := Edited(rows, hiding, showing, rels, locked), RelationOf(rels, rows[id]);
            && after.Keys == rows.Keys
            && after[id] == rows[id].(hidden := after[id].hidden, number := after[id].number)
            && (after[id].hidden <==> id in hiding || (rows[id].hidden && id !in showing))
            && (id in hiding ==> after[id].number == if relation.Some? && relation.value.compact then None else rows[id].number)
            && (id !in hiding && (id !in showing || rows[id].number.Some?) ==> after[id].number == rows[id].number)
  {
    var flagged := Flagged(rows, hiding, showing);
    var work := WorkFor(flagged, showing, rels);
    WorkIsWork(flagged, showing, rels);
    AssignedKeeps(flagged, rels, work, locked);
    if InWork(work, id) {
      var n :| 0 <= n < |work| && id in work[n].1;
      assert IsPiece(flagged, rels, work[n]);
      WorkIsShowing(flagged, showing, rels, n, id);
    }
  }

  /**
   A channel shown by a bulk edit, that may be numbered by a compact relation whose account is free,
   has a number afterwards unless every integer of the range is taken, or was until this edit released
   it. (No channel of another group may resolve to the same relation.)
   */
  lemma ShownIsNumbered(rows: Rows, hiding: seq<nat>, showing: seq<nat>, rels: Relations, locked: nat -> bool, id: nat, rel: Relation, k: int)
    requires NoRepeats(showing) && id in showing && rel.compact && locked(rel.account) && InRangeOf(rel, k)
    requires Resolves(Flagged(rows, hiding, showing), rels, id, rel)
    requires forall other :: other in showing && Resolves(Flagged(rows, hiding, showing), rels, other, rel) ==> PairOf(rows[other]) == PairOf(rows[id])
    requires var after := Edited(rows, hiding, showing, rels, locked); id in after && after[id].number.None?
    ensures Taken(Edited(rows, hiding, showing, rels, locked), k)
         || exists c :: c in hiding && c in rows && rows[c].number == Some(k as real)
  {
    var flagged := Flagged(rows, hiding, showing);
    var given, after := Assigned(flagged, WorkFor(flagged, showing, rels), locked), Edited(rows, hiding, showing, rels, locked);
    EditDoes(rows, hiding, showing, rels, locked, id);
    SameUnlessReleased(rows, hiding, showing, rels, locked, id);
    ShownIsAssigned(flagged, showing, rels, locked, id, rel, k);
    var c :| c in given && (given[c].pin == Some(k as real) || given[c].number == Some(k as real));
    SameUnlessReleased(rows, hiding, showing, rels, locked, c);
  }

  /** The release in the end takes the number of a channel being hidden, and of no other. */
  lemma SameUnlessReleased(rows: Rows, hiding: seq<nat>, showing: seq<nat>, rels: Relations, locked: nat -> bool, c: nat)
    requires var flagged := Flagged(rows, hiding, showing);
             NoRepeats(showing) && c in Assigned(flagged, WorkFor(flagged, showing, rels), locked)
    ensures var flagged := Flagged(rows, hiding, showing);
            var given, after := Assigned(flagged, WorkFor(flagged, showing, rels), locked), Edited(rows, hiding, showing, rels, locked);
            && c in rows && c in after && after[c].pin == given[c].pin
            && (c !in hiding ==> after[c] == given[c])
            && (c in hiding ==> given[c].number == rows[c].number)
  {
    var flagged := Flagged(rows, hiding, showing);
    var work := WorkFor(flagged, showing, rels);
    WorkIsWork(flagged, showing, rels);
    AssignedKeeps(flagged, rels, work, locked);
    assert c in hiding ==> !InWork(work, c);
  }

  // ----- any run

  datatype Event =
    | EditBulk(hiding: seq<nat>, showing: seq<nat>, rels: Relations, locked: nat -> bool)
    | Repack(rel: Relation, order: seq<nat>)
    | SetOverride(id: nat, pin: Option<real>)

  ghost predicate Can(rows: Rows, e: Event) {
    match e
    case EditBulk(_, showing, _, _) => NoRepeats(showing)
    case Repack(rel, order) => IsOrder(rows, rel, order)
    case SetOverride(id, _) => id in rows
  }

  function Step(rows: Rows, e: Event): Rows {
    match e
    case EditBulk(hiding, showing, rels, locked) => Edited(rows, hiding, showing, rels, locked)
    case Repack(rel, order) => Repacked(rows, rel, order)
    case SetOverride(id, pin) => if id in rows then rows[id := rows[id].(pin := pin)] else rows
  }

  ghost predicate CanRun(rows: Rows, es: seq<Event>)
    decreases |es|
  {
    es == [] || (Can(rows, es[0]) && CanRun(Step(rows, es[0]), es[1..]))
  }

  function Run(rows: Rows, es: seq<Event>): Rows
    decreases |es|
  {
    if es == [] then rows else Run(Step(rows, es[0]), es[1..])
  }

  lemma FlaggedKeepsDistinct(rows: Rows, hiding: seq<nat>, showing: seq<nat>)
    requires Distinct(rows)
    ensures Distinct(Flagged(rows, hiding, showing))
  {
  }

  lemma ReleasedKeepsDistinct(rows: Rows, ids: set<nat>)
    requires Distinct(rows)
    ensures Distinct(Released(rows, ids))
  {
  }

  lemma EditKeepsDistinct(rows: Rows, e: Event)
    requires Distinct(rows) && Can(rows, e) && e.EditBulk?
    ensures Distinct(Step(rows, e))
  {
    var flagged := Flagged(rows, e.hiding, e.showing);
    var work := WorkFor(flagged, e.showing, e.rels);
    FlaggedKeepsDistinct(rows, e.hiding, e.showing);
    WorkIsWork(flagged, e.showing, e.rels);
    AssignedKeeps(flagged, e.rels, work, e.locked);
    ReleasedKeepsDistinct(Assigned(flagged, work, e.locked), Releasing(rows, e.hiding, e.rels));
  }

  lemma StepKeepsDistinct(rows: Rows, e: Event)
    requires Distinct(rows) && Can(rows, e)
    ensures Distinct(Step(rows, e))
  {
    match e
    case EditBulk(_, _, _, _) => EditKeepsDistinct(rows, e);
    case Repack(rel, order) => RepackKeepsDistinct(rows, rel, order);
    case SetOverride(_, _) =>
  }

  /** Channel numbers that start pairwise distinct stay so, whatever is hidden, shown, repacked or pinned. */
  lemma {:induction false} NumbersStayDistinct(rows: Rows, es: seq<Event>)
    requires Distinct(rows) && CanRun(rows, es)
    ensures Distinct(Run(rows, es))
    decreases |es|
  {
    if es != [] {
      StepKeepsDistinct(rows, es[0]);
      NumbersStayDistinct(Step(rows, es[0]), es[1..]);
    }
  }

  /** A repack deals with this channel, or a bulk edit shows it and this is the relation it resolves to. */
  predicate NumberedFor(rows: Rows, e: Event, id: nat, rel: Relation) {
    match e
    case EditBulk(hiding, showing, rels, _) =>
      id in showing && Resolves(Flagged(rows, hiding, showing), rels, id, rel) && rel.compact
    case Repack(r, _) => rel == r && id in Members(rows, r)
    case SetOverride(_, _) => false
  }

  /**
   A number that a step of such a run writes is an integer of the range of the channel's own
   relation, and no override has it.
   */
  lemma WrittenNumbersArePlacedWell(rows: Rows, e: Event, id: nat) returns (rel: Relation)
    requires Can(rows, e) && id in rows
    requires id in Step(rows, e) && Step(rows, e)[id].number.Some? && Step(rows, e)[id].number != rows[id].number
    ensures NumberedFor(rows, e, id, rel)
    ensures WellPlaced(Step(rows, e), rel, Step(rows, e)[id].number)
  {
    match e
    case EditBulk(hiding, showing, rels, locked) =>
      rel := EditPlacesWell(rows, e, id);
    case Repack(r, order) =>
      RepackPacks(rows, r, order);
      RepackPlacesWell(rows, r, order, id);
      rel := r;
  }

  lemma AssignPlacesWell(rows: Rows, rels: Relations, work: Work, locked: nat -> bool, id: nat) returns (n: nat)
    requires IsWork(rows, rels, work) && id in rows
    requires var after := Assigned(rows, work, locked); id in after && after[id] != rows[id]
    ensures n < |work| && id in work[n].1 && Resolves(rows, rels, id, work[n].0) && work[n].0.compact
    ensures WellPlaced(Assigned(rows, work, locked), work[n].0, Assigned(rows, work, locked)[id].number)
  {
    AssignedKeeps(rows, rels, work, locked);
    assert InWork(work, id);
    n :| 0 <= n < |work| && id in work[n].1;
    assert IsPiece(rows, rels, work[n]);
  }

  /** What a bulk edit leaves as a number, the assignment in it left. */
  lemma EditedNumber(rows: Rows, e: Event, id: nat)
    requires Can(rows, e) && id in rows && e.EditBulk?
    requires id in Step(rows, e) && Step(rows, e)[id].number.Some?
    ensures var flagged := Flagged(rows, e.hiding, e.showing);
            var given := Assigned(flagged, WorkFor(flagged, e.showing, e.rels), e.locked);
            && given.Keys == Step(rows, e).Keys && id in flagged && flagged[id].number == rows[id].number
            && Step(rows, e)[id].number == given[id].number
            && (forall c :: c in given ==> Step(rows, e)[c].pin == given[c].pin)
  {
    var flagged := Flagged(rows, e.hiding, e.showing);
    WorkIsWork(flagged, e.showing, e.rels);
    AssignedKeeps(flagged, e.rels, WorkFor(flagged, e.showing, e.rels), e.locked);
  }

  lemma EditPlacesWell(rows: Rows, e: Event, id: nat) returns (rel: Relation)
    requires Can(rows, e) && id in rows && e.EditBulk?
    requires id in Step(rows, e) && Step(rows, e)[id].number.Some? && Step(rows, e)[id].number != rows[id].number
    ensures NumberedFor(rows, e, id, rel)
    ensures WellPlaced(Step(rows, e), rel, Step(rows, e)[id].number)
  {
    var flagged := Flagged(rows, e.hiding, e.showing);
    var work := WorkFor(flagged, e.showing, e.rels);
    WorkIsWork(flagged, e.showing, e.rels);
    EditedNumber(rows, e, id);
    var n := AssignPlacesWell(flagged, e.rels, work, e.locked, id);
    rel := work[n].0;
    WorkIsShowing(flagged, e.showing, e.rels, n, id);
    StillWellPlaced(Assigned(flagged, work, e.locked), Step(rows, e), rel, Step(rows, e)[id].number);
  }
}
