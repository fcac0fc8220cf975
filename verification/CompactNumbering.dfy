/**
 Compact channel numbering (compact_numbering.py, `_next_available_number`, and the hide and unhide
 steps of `edit_bulk`). Channel numbers are floats in the table and integers when packed; a set
 finds 50 and 50.0 equal, so both are reals here.
 */
module CompactNumbering {
  import opened ByteStrings

  /** `pin` is the channel number of the channel's override, if it has one. */
  datatype Channel = Channel(
    number: Option<real>, hidden: bool, auto: bool, account: Option<nat>, group: Option<nat>, pin: Option<real>)

  type Rows = map<nat, Channel>

  /** One account's settings for one group; no two have the same account and group. */
  datatype Relation = Relation(
    account: nat, group: nat, groupOverride: Option<nat>, compact: bool, start: Option<int>, end: Option<int>)

  /** `int(rel.auto_sync_channel_start or 1)` */
  function Start(rel: Relation): int {
    if rel.start.Some? && rel.start.value != 0 then rel.start.value else 1
  }

  function End(rel: Relation): Option<int> {
    if rel.end.Some? && rel.end.value != 0 then rel.end else None
  }

  /** The integers of a relation's range; a start or an end that is missing or 0 counts as 1 and as none. */
  predicate InRangeOf(rel: Relation, n: int) {
    && n >= (if rel.start.Some? && rel.start.value != 0 then rel.start.value else 1)
    && (rel.end.Some? && rel.end.value != 0 ==> n <= rel.end.value)
  }

  lemma RangeOf(rel: Relation, n: int)
    ensures InRange(n, Start(rel), End(rel)) <==> InRangeOf(rel, n)
  {
  }

  // ----- the next free number

  predicate InRange(n: int, start: int, end: Option<int>) {
    start <= n && (end.Some? ==> n <= end.value)
  }

  predicate Free(n: int, used: set<real>, start: int, end: Option<int>) {
    InRange(n, start, end) && n as real !in used
  }

  function Above(used: set<real>, n: int): set<real> {
    set u | u in used && u >= n as real
  }

  /** The least free number from `n` on, in the range. */
  function Next(used: set<real>, n: int, end: Option<int>): (r: Option<int>)
    ensures r.Some? ==> Free(r.value, used, n, end)
    ensures forall k :: Free(k, used, n, end) ==> r.Some? && r.value <= k
    decreases Above(used, n)
  {
    if end.Some? && n > end.value then None
    else if n as real in used then
      assert n as real in Above(used, n) && n as real !in Above(used, n + 1);
      assert forall k :: Free(k, used, n, end) ==> Free(k, used, n + 1, end);
      Next(used, n + 1, end)
    else Some(n)
  }

  method NextAvailableNumber(used: set<real>, start: int, end: Option<int>) returns (r: Option<int>)
    ensures r == Next(used, start, end)
  {
    var n := start;
    while n as real in used
      invariant Next(used, n, end) == Next(used, start, end)
      decreases Above(used, n)
    {
      assert n as real in Above(used, n) && n as real !in Above(used, n + 1);
      n := n + 1;
      if end.Some? && n > end.value {
        return None;
      }
    }
    if end.Some? && n > end.value {
      return None;
    }
    return Some(n);
  }

  // ----- packing

  /** What `k` channels in a row are given, each number then being used. */
  function Packed(used: set<real>, start: int, end: Option<int>, k: nat): (p: seq<Option<int>>)
    ensures |p| == k
    decreases k
  {
    if k == 0 then []
    else
      var n := Next(used, start, end);
      [n] + Packed(if n.Some? then used + {n.value as real} else used, start, end, k - 1)
  }

  /**
   The first free numbers of the range: ascending, each of them free, none passed over; and when
   they ran out, every number of the range is taken.
   */
  ghost predicate FirstFree(p: seq<Option<int>>, used: set<real>, start: int, end: Option<int>) {
    && (forall i :: 0 <= i < |p| && p[i].Some? ==> Free(p[i].value, used, start, end))
    && (forall i, j :: 0 <= i < j < |p| && p[j].Some? ==> p[i].Some? && p[i].value < p[j].value)
    && (forall i :: 0 <= i < |p| ==> NonePassedOver(p, i, used, start, end))
  }

  /** Every free number below the one at `i`, or every free number if there is none, was given before. */
  ghost predicate NonePassedOver(p: seq<Option<int>>, i: nat, used: set<real>, start: int, end: Option<int>)
    requires i < |p|
  {
    forall n :: Free(n, used, start, end) && (p[i].None? || n < p[i].value) ==> Some(n) in p[..i]
  }

  lemma NonePassedOverLater(n: Option<int>, rest: seq<Option<int>>, i: nat, used: set<real>, more: set<real>, start: int, end: Option<int>)
    requires n == Next(used, start, end) && more == (if n.Some? then used + {n.value as real} else used)
    requires i < |rest| && NonePassedOver(rest, i, more, start, end)
    ensures NonePassedOver([n] + rest, i + 1, used, start, end)
  {
    var p := [n] + rest;
    forall m | Free(m, used, start, end) && (p[i + 1].None? || m < p[i + 1].value) ensures Some(m) in p[..i + 1] {
      if n == Some(m) {
        assert p[..i + 1][0] == Some(m);
      } else {
        assert Free(m, more, start, end);
        var j :| 0 <= j < i && rest[..i][j] == Some(m);
        assert p[..i + 1][j + 1] == Some(m);
      }
    }
  }

  /** What comes after the first number is above it. */
  lemma LaterFree(n: Option<int>, m: int, used: set<real>, more: set<real>, start: int, end: Option<int>)
    requires n == Next(used, start, end) && more == (if n.Some? then used + {n.value as real} else used)
    requires Free(m, more, start, end)
    ensures Free(m, used, start, end) && n.Some? && n.value < m
  {
    assert Free(m, used, start, end);
  }

  lemma FirstFreeCons(n: Option<int>, rest: seq<Option<int>>, used: set<real>, more: set<real>, start: int, end: Option<int>)
    requires n == Next(used, start, end) && more == (if n.Some? then used + {n.value as real} else used)
    requires FirstFree(rest, more, start, end)
    ensures FirstFree([n] + rest, used, start, end)
  {
    var p := [n] + rest;
    forall j | 0 <= j < |rest| && rest[j].Some?
      ensures Free(rest[j].value, used, start, end) && n.Some? && n.value < rest[j].value
    {
      LaterFree(n, rest[j].value, used, more, start, end);
    }
    assert forall j :: 0 < j < |p| ==> p[j] == rest[j - 1];
    forall i | 0 <= i < |p| ensures NonePassedOver(p, i, used, start, end) {
      if i > 0 {
        NonePassedOverLater(n, rest, i - 1, used, more, start, end);
      }
    }
  }

  lemma {:induction false} PackedIsFirstFree(used: set<real>, start: int, end: Option<int>, k: nat)
    ensures FirstFree(Packed(used, start, end, k), used, start, end)
    decreases k
  {
    if k > 0 {
      var n := Next(used, start, end);
      var more := if n.Some? then used + {n.value as real} else used;
      PackedIsFirstFree(more, start, end, k - 1);
      FirstFreeCons(n, Packed(more, start, end, k - 1), used, more, start, end);
    }
  }

  lemma FirstFreePrefix(p: seq<Option<int>>, i: nat, used: set<real>, start: int, end: Option<int>)
    requires FirstFree(p, used, start, end) && i <= |p|
    ensures FirstFree(p[..i], used, start, end)
  {
    forall j | 0 <= j < i ensures NonePassedOver(p[..i], j, used, start, end) {
      assert NonePassedOver(p, j, used, start, end);
      assert p[..i][..j] == p[..j];
    }
  }

  /** What comes after the same beginning is no larger on either side. */
  lemma NoLater(p: seq<Option<int>>, q: seq<Option<int>>, i: nat, used: set<real>, start: int, end: Option<int>)
    requires FirstFree(p, used, start, end) && FirstFree(q, used, start, end)
    requires i < |p| && i < |q| && p[..i] == q[..i] && p[i].Some?
    ensures q[i].Some? && q[i].value <= p[i].value
  {
    assert NonePassedOver(q, i, used, start, end);
    forall j | 0 <= j < i ensures q[..i][j] != p[i] {
      assert q[..i][j] == p[..i][j] == p[j];
    }
  }

  /** That settles what they are. */
  lemma {:induction false} FirstFreeUnique(p: seq<Option<int>>, q: seq<Option<int>>, used: set<real>, start: int, end: Option<int>)
    requires FirstFree(p, used, start, end) && FirstFree(q, used, start, end) && |p| == |q|
    ensures p == q
    decreases |p|
  {
    if p != [] {
      var i := |p| - 1;
      FirstFreePrefix(p, i, used, start, end);
      FirstFreePrefix(q, i, used, start, end);
      FirstFreeUnique(p[..i], q[..i], used, start, end);
      if p[i].Some? {
        NoLater(p, q, i, used, start, end);
      }
      if q[i].Some? {
        NoLater(q, p, i, used, start, end);
      }
      assert p == p[..i] + [p[i]] && q == q[..i] + [q[i]];
    }
  }

  // ----- the tables

  /** `build_reserved_set`: every override's number and every other channel's, within the range. */
  function Reserved(rows: Rows, exclude: set<nat>, start: int, end: Option<int>): set<real> {
    (set id | id in rows && rows[id].pin.Some? && Within(rows[id].pin.value, start, end) :: rows[id].pin.value)
    + (set id | id in rows && id !in exclude && rows[id].number.Some? && Within(rows[id].number.value, start, end)
         :: rows[id].number.value)
  }

  predicate Within(x: real, start: int, end: Option<int>) {
    start as real <= x && (end.Some? ==> x <= end.value as real)
  }

  /** The channels a repack of this relation deals with. */
  predicate Belongs(ch: Channel, rel: Relation) {
    ch.auto && ch.account == Some(rel.account) && ch.group.Some?
    && (ch.group.value == rel.group || ch.group == rel.groupOverride)
  }

  predicate Visible(ch: Channel) {
    ch.pin.None? && !ch.hidden
  }

  function Members(rows: Rows, rel: Relation): set<nat> {
    set id | id in rows && Belongs(rows[id], rel)
  }

  /** `order` is the visible channels of the group, each once, in the group's sort order. */
  ghost predicate IsOrder(rows: Rows, rel: Relation, order: seq<nat>) {
    && (NoRepeats(order))
    && (forall id :: id in order <==> id in rows && Belongs(rows[id], rel) && Visible(rows[id]))
  }

  function AsSet(ids: seq<nat>): set<nat> {
    set id | id in ids
  }

  function AsNumber(n: Option<int>): Option<real> {
    if n.Some? then Some(n.value as real) else None
  }

  /** The rows with these numbers given to these channels. */
  function Given(rows: Rows, ids: seq<nat>, numbers: seq<Option<int>>): Rows
    requires |ids| == |numbers|
  {
    if ids == [] then rows
    else
      var last := |ids| - 1;
      var before := Given(rows, ids[..last], numbers[..last]);
      if ids[last] in before then before[ids[last] := before[ids[last]].(number := AsNumber(numbers[last]))] else before
  }

  function Released(rows: Rows, ids: set<nat>): Rows {
    map id | id in rows :: if id in ids then rows[id].(number := None) else rows[id]
  }

  function RepackNumbers(rows: Rows, rel: Relation, k: nat): seq<Option<int>> {
    Packed(Reserved(rows, Members(rows, rel), Start(rel), End(rel)), Start(rel), End(rel), k)
  }

  /** The table after a repack. */
  function Repacked(rows: Rows, rel: Relation, order: seq<nat>): Rows {
    var given := Given(rows, order, RepackNumbers(rows, rel, |order|));
    Released(given, set id | id in Members(rows, rel) && !Visible(rows[id]))
  }

  function CountSome(p: seq<Option<int>>): nat {
    if p == [] then 0 else (if p[|p| - 1].Some? then 1 else 0) + CountSome(p[..|p| - 1])
  }

  lemma {:induction false} GivenAt(rows: Rows, ids: seq<nat>, numbers: seq<Option<int>>)
    requires |ids| == |numbers| && NoRepeats(ids)
    ensures Given(rows, ids, numbers).Keys == rows.Keys
    ensures forall id :: id in rows && id !in ids ==> Given(rows, ids, numbers)[id] == rows[id]
    ensures forall i :: 0 <= i < |ids| && ids[i] in rows ==>
              Given(rows, ids, numbers)[ids[i]] == rows[ids[i]].(number := AsNumber(numbers[i]))
  {
    if ids != [] {
      var last := |ids| - 1;
      GivenAt(rows, ids[..last], numbers[..last]);
      assert ids == ids[..last] + [ids[last]];
      assert ids[last] !in ids[..last];
      forall i | 0 <= i < |ids| && ids[i] in rows
        ensures Given(rows, ids, numbers)[ids[i]] == rows[ids[i]].(number := AsNumber(numbers[i]))
      {
        if i < last {
          assert ids[..last][i] == ids[i];
        }
      }
    }
  }

  lemma GivenNext(rows: Rows, ids: seq<nat>, numbers: seq<Option<int>>, n: nat)
    requires |ids| == |numbers| && n < |ids| && ids[n] in Given(rows, ids[..n], numbers[..n])
    ensures var before := Given(rows, ids[..n], numbers[..n]);
            Given(rows, ids[..n + 1], numbers[..n + 1]) == before[ids[n] := before[ids[n]].(number := AsNumber(numbers[n]))]
    ensures CountSome(numbers[..n + 1]) == CountSome(numbers[..n]) + if numbers[n].Some? then 1 else 0
  {
    assert ids[..n + 1][..n] == ids[..n] && numbers[..n + 1][..n] == numbers[..n];
  }

  lemma NumberedNext(rows: Rows, ids: seq<nat>, id: nat, number: Option<int>)
    requires id in rows && id !in ids
    ensures var after := rows[id := rows[id].(number := AsNumber(number))];
            |Numbered(after, ids + [id])| == |Numbered(rows, ids)| + if number.Some? then 1 else 0
  {
    var after := rows[id := rows[id].(number := AsNumber(number))];
    var was, now := Numbered(rows, ids), Numbered(after, ids + [id]);
    assert id !in was;
    assert now == if number.Some? then was + {id} else was;
  }

  /** As many are counted as have a number afterwards. */
  lemma {:induction false} CountGiven(rows: Rows, ids: seq<nat>, numbers: seq<Option<int>>)
    requires |ids| == |numbers| && NoRepeats(ids) && forall i :: 0 <= i < |ids| ==> ids[i] in rows
    ensures CountSome(numbers) == |Numbered(Given(rows, ids, numbers), ids)|
  {
    if ids != [] {
      var n := |ids| - 1;
      NoRepeatsFront(ids);
      CountGiven(rows, ids[..n], numbers[..n]);
      GivenAt(rows, ids[..n], numbers[..n]);
      NumberedNext(Given(rows, ids[..n], numbers[..n]), ids[..n], ids[n], numbers[n]);
    }
  }

  /** Those of these channels that have a number. */
  function Numbered(rows: Rows, ids: seq<nat>): set<nat> {
    set id | id in ids && id in rows && rows[id].number.Some?
  }

  class ChannelTable {
    var rows: Rows

    constructor (rows: Rows)
      ensures this.rows == rows
    {
      this.rows := rows;
    }

    /** The loop both packers share: number these channels in turn, from what is free. */
    method Pack(ids: seq<nat>, used: set<real>, start: int, end: Option<int>) returns (numbered: nat, failed: nat)
      requires forall i :: 0 <= i < |ids| ==> ids[i] in rows
      modifies this
      ensures rows == Given(old(rows), ids, Packed(used, start, end, |ids|))
      ensures numbered == CountSome(Packed(used, start, end, |ids|)) && numbered + failed == |ids|
    {
      var reserved := used;
      ghost var p := Packed(used, start, end, |ids|);
      numbered, failed := 0, 0;
      for n := 0 to |ids|
        invariant rows.Keys == old(rows).Keys
        invariant rows == Given(old(rows), ids[..n], p[..n])
        invariant Packed(reserved, start, end, |ids| - n) == p[n..]
        invariant numbered == CountSome(p[..n]) && numbered + failed == n
      {
        var next := NextAvailableNumber(reserved, start, end);
        assert next == p[n] && p[n + 1..] == p[n..][1..];
        GivenNext(old(rows), ids, p, n);
        rows := rows[ids[n] := rows[ids[n]].(number := AsNumber(next))];
        if next.Some? {
          reserved := reserved + {next.value as real};
          numbered := numbered + 1;
        } else {
          failed := failed + 1;
        }
      }
      assert ids[..|ids|] == ids && p[..|ids|] == p;
    }

    method RepackGroup(rel: Relation, order: seq<nat>) returns (numbered: nat, released: nat, failed: nat)
      requires IsOrder(rows, rel, order)
      modifies this
      ensures rows == Repacked(old(rows), rel, order)
      ensures numbered + failed == |order| && numbered == |Numbered(rows, order)|
      ensures released == |set id | id in Members(old(rows), rel) && old(rows)[id].pin.None? && old(rows)[id].hidden && old(rows)[id].number.Some?|
    {
      ghost var before := rows;
      var members := Members(rows, rel);
      var hidden := set id | id in members && rows[id].pin.None? && rows[id].hidden && rows[id].number.Some?;
      var pinned := set id | id in members && rows[id].pin.Some? && rows[id].number.Some?;
      numbered, failed := Pack(order, Reserved(rows, members, Start(rel), End(rel)), Start(rel), End(rel));
      rows := Released(rows, hidden);
      released := |hidden|;
      rows := Released(rows, pinned);
      RepackedInTwoSteps(before, rel, order, hidden, pinned);
      CountGiven(before, order, RepackNumbers(before, rel, |order|));
      assert Numbered(rows, order) == Numbered(Given(before, order, RepackNumbers(before, rel, |order|)), order);
    }

    /** The channels gathered by account and group, in the order of their first appearance. */
    method GatherPairs(ids: seq<nat>) returns (pairs: seq<Pair>, channels: map<Pair, seq<nat>>)
      ensures pairs == Pairs(rows, ids)
      ensures forall p :: p in pairs <==> p in channels
      ensures forall p :: p in channels ==> channels[p] == OfPair(rows, ids, p)
    {
      pairs, channels := [], map[];
      for n := 0 to |ids|
        invariant pairs == Pairs(rows, ids[..n])
        invariant forall p :: p in pairs <==> p in channels
        invariant forall p :: p in channels ==> channels[p] == OfPair(rows, ids[..n], p)
      {
        var id := ids[n];
        assert ids[..n + 1][..n] == ids[..n];
        if id in rows && Eligible(rows[id]) {
          var p := PairOf(rows[id]);
          if p in channels {
            channels := channels[p := channels[p] + [id]];
          } else {
            NoneOfPair(rows, ids[..n], p);
            pairs := pairs + [p];
            channels := channels[p := [id]];
          }
        }
      }
      assert ids[..|ids|] == ids;
    }

    /** The pairs resolved to relations; of two pairs with one relation the later one stays. */
    method GatherRelations(pairs: seq<Pair>, channels: map<Pair, seq<nat>>, rels: Relations) returns (work: Work)
      requires forall p :: p in pairs ==> p in channels
      ensures work == ByRelation(pairs, channels, rels)
    {
      work := [];
      for n := 0 to |pairs|
        invariant work == ByRelation(pairs[..n], channels, rels)
      {
        assert pairs[..n + 1][..n] == pairs[..n];
        assert pairs[n] in pairs;
        var rel := Resolution(rels, pairs[n]);
        if rel.Some? && rel.value.compact {
          work := Put(work, rel.value, channels[pairs[n]]);
        }
      }
      assert pairs[..|pairs|] == pairs;
    }

    /**
     `assign_compact_numbers_for_channels`; `locked` says whether an account's refresh lock could
     be had.
     */
    method AssignCompactNumbers(ids: seq<nat>, rels: Relations, locked: nat -> bool)
      requires NoRepeats(ids)
      modifies this
      ensures rows == Assigned(old(rows), WorkFor(old(rows), ids, rels), locked)
    {
      var pairs, channels := GatherPairs(ids);
      var byRelation := GatherRelations(pairs, channels, rels);
      SameChannels(pairs, channels, ByPair(rows, ids), rels);
      var work := ByAccount(byRelation, Accounts(byRelation));
      assert work == WorkFor(rows, ids, rels);
      WorkIsWork(rows, ids, rels);
      for n := 0 to |work|
        invariant rows.Keys == old(rows).Keys
        invariant rows == Assigned(old(rows), work[..n], locked)
      {
        var (rel, channelIds) := work[n];
        AssignedNext(old(rows), rels, work, n, locked);
        if locked(rel.account) {
          var _, _ := Pack(channelIds, Reserved(rows, AsSet(channelIds), Start(rel), End(rel)), Start(rel), End(rel));
        }
      }
      assert work[..|work|] == work;
    }

    /** The number steps of `edit_bulk`: flags written, the channels shown numbered, the hidden ones released. */
    method EditBulk(hiding: seq<nat>, showing: seq<nat>, rels: Relations, locked: nat -> bool)
      requires NoRepeats(showing)
      modifies this
      ensures rows == Edited(old(rows), hiding, showing, rels, locked)
    {
      var before := rows;
      rows := Flagged(rows, hiding, showing);
      AssignCompactNumbers(showing, rels, locked);
      rows := Released(rows, Releasing(before, hiding, rels));
    }
  }

  /** Releasing only the hidden and the pinned that had a number releases all of them. */
  lemma RepackedInTwoSteps(rows: Rows, rel: Relation, order: seq<nat>, hidden: set<nat>, pinned: set<nat>)
    requires IsOrder(rows, rel, order)
    requires hidden == set id | id in Members(rows, rel) && rows[id].pin.None? && rows[id].hidden && rows[id].number.Some?
    requires pinned == set id | id in Members(rows, rel) && rows[id].pin.Some? && rows[id].number.Some?
    ensures Released(Released(Given(rows, order, RepackNumbers(rows, rel, |order|)), hidden), pinned)
         == Repacked(rows, rel, order)
  {
    var given := Given(rows, order, RepackNumbers(rows, rel, |order|));
    GivenAt(rows, order, RepackNumbers(rows, rel, |order|));
    var once := Released(Released(given, hidden), pinned);
    var target := Repacked(rows, rel, order);
    assert once.Keys == target.Keys;
    forall id | id in once ensures once[id] == target[id] {
      if id in Members(rows, rel) && !Visible(rows[id]) {
        assert id !in order;
        assert given[id] == rows[id];
      }
    }
  }

  lemma {:induction false} CountBound(p: seq<Option<int>>)
    ensures CountSome(p) <= |p|
    ensures CountSome(p) == |p| <==> forall i :: 0 <= i < |p| ==> p[i].Some?
  {
    if p != [] {
      CountBound(p[..|p| - 1]);
      assert forall i :: 0 <= i < |p| - 1 ==> p[i] == p[..|p| - 1][i];
    }
  }

  function AssignNumbers(rows: Rows, rel: Relation, ids: seq<nat>): seq<Option<int>> {
    Packed(Reserved(rows, AsSet(ids), Start(rel), End(rel)), Start(rel), End(rel), |ids|)
  }

  // ----- which relation a channel is numbered by

  type Relations = seq<Relation>

  type Pair = (nat, Option<nat>)

  /** Channels to number, by relation. */
  type Work = seq<(Relation, seq<nat>)>

  /** A channel the helper may number: auto-created, shown, with no number and no override number. */
  predicate Eligible(ch: Channel) {
    ch.auto && ch.account.Some? && !ch.hidden && ch.number.None? && ch.pin.None?
  }

  function PairOf(ch: Channel): Pair
    requires ch.account.Some?
  {
    (ch.account.value, ch.group)
  }

  /** The account's relation for the group itself. */
  function Direct(rels: Relations, p: Pair): (r: Option<Relation>)
    ensures r.Some? ==> r.value in rels && r.value.account == p.0 && Some(r.value.group) == p.1
  {
    if rels == [] then None
    else if rels[0].account == p.0 && Some(rels[0].group) == p.1 then Some(rels[0])
    else Direct(rels[1..], p)
  }

  /** The last of the account's relations whose group override is the group. */
  function Overriding(rels: Relations, p: Pair): (r: Option<Relation>)
    ensures r.Some? ==> r.value in rels && r.value.account == p.0 && r.value.groupOverride == p.1 && p.1.Some?
  {
    if rels == [] then None
    else
      var last := rels[|rels| - 1];
      if last.account == p.0 && last.groupOverride.Some? && last.groupOverride == p.1 then Some(last)
      else Overriding(rels[..|rels| - 1], p)
  }

  /** The relation `assign_compact_numbers_for_channels` numbers the channels of a pair by. */
  function Resolution(rels: Relations, p: Pair): (r: Option<Relation>)
    ensures r.Some? ==> r.value in rels && r.value.account == p.0 && p.1.Some?
                        && (r.value.group == p.1.value || r.value.groupOverride == p.1)
  {
    if Direct(rels, p).Some? then Direct(rels, p) else Overriding(rels, p)
  }

  /** `get_group_relation_for_channel`, which takes the first override instead. */
  function RelationOf(rels: Relations, ch: Channel): Option<Relation> {
    if !ch.auto || ch.account.None? || ch.group.None? then None
    else if Direct(rels, PairOf(ch)).Some? then Direct(rels, PairOf(ch))
    else FirstOverriding(rels, PairOf(ch))
  }

  function FirstOverriding(rels: Relations, p: Pair): Option<Relation> {
    if rels == [] then None
    else if rels[0].account == p.0 && rels[0].groupOverride.Some? && rels[0].groupOverride == p.1 then Some(rels[0])
    else FirstOverriding(rels[1..], p)
  }

  predicate IsDirect(rel: Relation, p: Pair) {
    rel.account == p.0 && p.1 == Some(rel.group)
  }

  predicate Overrides(rel: Relation, p: Pair) {
    rel.account == p.0 && p.1.Some? && rel.groupOverride == p.1
  }

  lemma {:induction false} DirectIs(rels: Relations, p: Pair)
    ensures match Direct(rels, p)
            case Some(rel) => rel in rels && IsDirect(rel, p)
            case None => forall r :: r in rels ==> !IsDirect(r, p)
  {
    if rels != [] {
      DirectIs(rels[1..], p);
    }
  }

  lemma {:induction false} OverridingIs(rels: Relations, p: Pair)
    ensures match Overriding(rels, p)
            case Some(rel) => exists i :: 0 <= i < |rels| && rels[i] == rel && Overrides(rel, p) && forall j :: i < j < |rels| ==> !Overrides(rels[j], p)
            case None => forall r :: r in rels ==> !Overrides(r, p)
  {
    if rels != [] {
      var n := |rels| - 1;
      OverridingIs(rels[..n], p);
      assert rels == rels[..n] + [rels[n]];
      if Overrides(rels[n], p) {
        assert rels[n] == Overriding(rels, p).value;
      } else if Overriding(rels, p).Some? {
        var i :| 0 <= i < n && rels[..n][i] == Overriding(rels, p).value && forall j :: i < j < n ==> !Overrides(rels[..n][j], p);
        assert forall j :: i < j < n ==> rels[j] == rels[..n][j];
        assert rels[i] == Overriding(rels, p).value;
      }
    }
  }

  lemma {:induction false} FirstOverridingIs(rels: Relations, p: Pair)
    ensures match FirstOverriding(rels, p)
            case Some(rel) => exists i :: 0 <= i < |rels| && rels[i] == rel && Overrides(rel, p) && forall j :: 0 <= j < i ==> !Overrides(rels[j], p)
            case None => forall r :: r in rels ==> !Overrides(r, p)
  {
    if rels != [] {
      FirstOverridingIs(rels[1..], p);
      if Overrides(rels[0], p) {
        assert rels[0] == FirstOverriding(rels, p).value;
      } else if FirstOverriding(rels, p).Some? {
        var i :| 0 <= i < |rels| - 1 && rels[1..][i] == FirstOverriding(rels, p).value
              && forall j :: 0 <= j < i ==> !Overrides(rels[1..][j], p);
        assert forall j :: 0 < j <= i ==> rels[j] == rels[1..][j - 1];
        assert rels[i + 1] == FirstOverriding(rels, p).value;
      }
    }
  }

  /** A relation of the group itself comes before one that overrides into it; with several of these, the last is taken. */
  lemma ResolutionIs(rels: Relations, p: Pair)
    ensures match Resolution(rels, p)
            case None => forall r :: r in rels ==> !IsDirect(r, p) && !Overrides(r, p)
            case Some(rel) =>
              (rel in rels && IsDirect(rel, p))
              || ((forall r :: r in rels ==> !IsDirect(r, p))
                  && exists i :: 0 <= i < |rels| && rels[i] == rel && Overrides(rel, p) && forall j :: i < j < |rels| ==> !Overrides(rels[j], p))
  {
    DirectIs(rels, p);
    OverridingIs(rels, p);
  }

  /** So a channel is released by the relation it is numbered by, unless the first and the last that override differ. */
  lemma HideAndShowAgree(rels: Relations, ch: Channel)
    requires ch.auto && ch.account.Some? && ch.group.Some?
    requires forall i, j :: 0 <= i < j < |rels| && Overrides(rels[i], PairOf(ch)) && Overrides(rels[j], PairOf(ch)) ==> rels[i] == rels[j]
    ensures RelationOf(rels, ch) == Resolution(rels, PairOf(ch))
  {
    OverridingIs(rels, PairOf(ch));
    FirstOverridingIs(rels, PairOf(ch));
  }

  function Pairs(rows: Rows, ids: seq<nat>): seq<Pair> {
    if ids == [] then []
    else
      var id, front := ids[|ids| - 1], Pairs(rows, ids[..|ids| - 1]);
      if id in rows && Eligible(rows[id]) && PairOf(rows[id]) !in front then front + [PairOf(rows[id])] else front
  }

  function OfPair(rows: Rows, ids: seq<nat>, p: Pair): seq<nat> {
    if ids == [] then []
    else
      var id, front := ids[|ids| - 1], OfPair(rows, ids[..|ids| - 1], p);
      if id in rows && Eligible(rows[id]) && PairOf(rows[id]) == p then front + [id] else front
  }

  function ByPair(rows: Rows, ids: seq<nat>): map<Pair, seq<nat>> {
    map p | p in Pairs(rows, ids) :: OfPair(rows, ids, p)
  }

  /** `by_relation[rel.id] = (rel, channels)` */
  function Put(work: Work, rel: Relation, ids: seq<nat>): Work {
    if work == [] then [(rel, ids)]
    else if work[0].0 == rel then [(rel, ids)] + work[1..]
    else [work[0]] + Put(work[1..], rel, ids)
  }

  function ByRelation(pairs: seq<Pair>, channels: map<Pair, seq<nat>>, rels: Relations): Work
    requires forall p :: p in pairs ==> p in channels
  {
    if pairs == [] then []
    else
      var last := pairs[|pairs| - 1];
      var front := ByRelation(pairs[..|pairs| - 1], channels, rels);
      var rel := Resolution(rels, last);
      if rel.Some? && rel.value.compact then Put(front, rel.value, channels[last]) else front
  }

  function Accounts(work: Work): seq<nat> {
    if work == [] then []
    else
      var front, last := Accounts(work[..|work| - 1]), work[|work| - 1].0.account;
      if last in front then front else front + [last]
  }

  function OfAccount(work: Work, account: nat): Work {
    if work == [] then []
    else (if work[0].0.account == account then [work[0]] else []) + OfAccount(work[1..], account)
  }

  /** The work, account by account. */
  function ByAccount(work: Work, accounts: seq<nat>): Work {
    if accounts == [] then [] else OfAccount(work, accounts[0]) + ByAccount(work, accounts[1..])
  }

  function WorkFor(rows: Rows, ids: seq<nat>, rels: Relations): Work {
    var byRelation := ByRelation(Pairs(rows, ids), ByPair(rows, ids), rels);
    ByAccount(byRelation, Accounts(byRelation))
  }

  function Assigned(rows: Rows, work: Work, locked: nat -> bool): Rows {
    if work == [] then rows
    else
      var before := Assigned(rows, work[..|work| - 1], locked);
      var (rel, ids) := work[|work| - 1];
      if locked(rel.account) then Given(before, ids, AssignNumbers(before, rel, ids)) else before
  }

  /** The flags as a bulk edit writes them. */
  function Flagged(rows: Rows, hiding: seq<nat>, showing: seq<nat>): Rows {
    map id | id in rows ::
      if id in hiding then rows[id].(hidden := true) else if id in showing then rows[id].(hidden := false) else rows[id]
  }

  /** The hidden channels whose numbers go: those with one in a compact group. */
  function Releasing(rows: Rows, hiding: seq<nat>, rels: Relations): set<nat> {
    set id | id in hiding && id in rows && rows[id].number.Some?
             && RelationOf(rels, rows[id]).Some? && RelationOf(rels, rows[id]).value.compact
  }

  function Edited(rows: Rows, hiding: seq<nat>, showing: seq<nat>, rels: Relations, locked: nat -> bool): Rows {
    var flagged := Flagged(rows, hiding, showing);
    Released(Assigned(flagged, WorkFor(flagged, showing, rels), locked), Releasing(rows, hiding, rels))
  }

  /** The turn of one piece. */
  lemma AssignedNext(rows: Rows, rels: Relations, work: Work, n: nat, locked: nat -> bool)
    requires IsWork(rows, rels, work) && n < |work| && Assigned(rows, work[..n], locked).Keys == rows.Keys
    ensures var (rel, ids) := work[n];
            var before := Assigned(rows, work[..n], locked);
            && (forall i :: 0 <= i < |ids| ==> ids[i] in before)
            && Assigned(rows, work[..n + 1], locked)
               == (if locked(rel.account) then Given(before, ids, AssignNumbers(before, rel, ids)) else before)
            && Assigned(rows, work[..n + 1], locked).Keys == rows.Keys
  {
    var (rel, ids) := work[n];
    var before := Assigned(rows, work[..n], locked);
    assert work[..n + 1][..n] == work[..n];
    assert IsPiece(rows, rels, work[n]);
    GivenAt(before, ids, AssignNumbers(before, rel, ids));
  }

  // ----- every channel is numbered by its own relation

  /** The channels of a piece of work may be numbered, and its relation is the one each resolves to. */
  ghost predicate IsPiece(rows: Rows, rels: Relations, piece: (Relation, seq<nat>)) {
    && piece.0.compact
    && (forall i :: 0 <= i < |piece.1| ==> Resolves(rows, rels, piece.1[i], piece.0))
    && (NoRepeats(piece.1))
  }

  predicate Resolves(rows: Rows, rels: Relations, id: nat, rel: Relation) {
    id in rows && Eligible(rows[id]) && Resolution(rels, PairOf(rows[id])) == Some(rel)
  }

  /** It is one of the channels a repack of that relation numbers. */
  lemma ResolvedBelongs(rows: Rows, rels: Relations, id: nat, rel: Relation)
    requires Resolves(rows, rels, id, rel)
    ensures Belongs(rows[id], rel) && Visible(rows[id]) && rel in rels
  {
  }

  /** Each piece has a relation of its own, so every channel is in one piece only. */
  ghost predicate IsWork(rows: Rows, rels: Relations, work: Work) {
    && (forall n :: 0 <= n < |work| ==> IsPiece(rows, rels, work[n]))
    && (forall m, n :: 0 <= m < n < |work| ==> work[m].0 != work[n].0)
  }

  lemma OnePieceEach(rows: Rows, rels: Relations, work: Work, m: nat, n: nat, id: nat)
    requires IsWork(rows, rels, work) && m < n < |work| && id in work[m].1
    ensures id !in work[n].1
  {
    assert IsPiece(rows, rels, work[m]) && IsPiece(rows, rels, work[n]);
  }

  lemma {:induction false} OfPairIs(rows: Rows, ids: seq<nat>, p: Pair)
    ensures forall id :: id in OfPair(rows, ids, p) <==> id in ids && id in rows && Eligible(rows[id]) && PairOf(rows[id]) == p
    ensures NoRepeats(ids) ==> NoRepeats(OfPair(rows, ids, p))
  {
    if ids != [] {
      var n := |ids| - 1;
      OfPairIs(rows, ids[..n], p);
      assert ids == ids[..n] + [ids[n]];
      if NoRepeats(ids) {
        NoRepeatsFront(ids);
        NoRepeatsNext(OfPair(rows, ids[..n], p), ids[n]);
      }
    }
  }

  /** The pairs are those of the channels, each once. */
  lemma {:induction false} PairsAre(rows: Rows, ids: seq<nat>)
    ensures forall id :: id in ids && id in rows && Eligible(rows[id]) ==> PairOf(rows[id]) in Pairs(rows, ids)
    ensures NoRepeats(Pairs(rows, ids))
  {
    if ids != [] {
      var n := |ids| - 1;
      PairsAre(rows, ids[..n]);
      assert ids == ids[..n] + [ids[n]];
      if Pairs(rows, ids) != Pairs(rows, ids[..n]) {
        NoRepeatsNext(Pairs(rows, ids[..n]), PairOf(rows[ids[n]]));
      }
    }
  }

  /** Before a pair is met, it has no channels. */
  lemma {:induction false} NoneOfPair(rows: Rows, ids: seq<nat>, p: Pair)
    requires p !in Pairs(rows, ids)
    ensures OfPair(rows, ids, p) == []
  {
    if ids != [] {
      NoneOfPair(rows, ids[..|ids| - 1], p);
    }
  }

  lemma {:induction false} SameChannels(pairs: seq<Pair>, a: map<Pair, seq<nat>>, b: map<Pair, seq<nat>>, rels: Relations)
    requires forall p :: p in pairs ==> p in a && p in b && a[p] == b[p]
    ensures ByRelation(pairs, a, rels) == ByRelation(pairs, b, rels)
  {
    if pairs != [] {
      var n := |pairs| - 1;
      assert pairs[n] in pairs;
      SameChannels(pairs[..n], a, b, rels);
    }
  }

  lemma {:induction false} PutIs(work: Work, rel: Relation, ids: seq<nat>)
    requires forall m, n :: 0 <= m < n < |work| ==> work[m].0 != work[n].0
    ensures var put := Put(work, rel, ids);
            && (rel, ids) in put
            && (forall piece :: piece in put <==> piece == (rel, ids) || (piece in work && piece.0 != rel))
            && (forall m, n :: 0 <= m < n < |put| ==> put[m].0 != put[n].0)
  {
    var put := Put(work, rel, ids);
    if work != [] {
      assert work == [work[0]] + work[1..];
      if work[0].0 == rel {
        assert forall n :: 0 < n < |work| ==> work[n] == work[1..][n - 1] && work[n].0 != rel;
        assert (rel, ids) == put[0];
      } else {
        PutIs(work[1..], rel, ids);
        assert put[1..] == Put(work[1..], rel, ids);
        assert forall n :: 0 < n < |put| ==> put[n] == put[1..][n - 1] && put[n] in put[1..];
      }
    }
  }

  lemma ByPairIsPiece(rows: Rows, ids: seq<nat>, rels: Relations, p: Pair)
    requires NoRepeats(ids)
    requires Resolution(rels, p).Some? && Resolution(rels, p).value.compact
    ensures IsPiece(rows, rels, (Resolution(rels, p).value, OfPair(rows, ids, p)))
  {
    OfPairIs(rows, ids, p);
    var c := OfPair(rows, ids, p);
    forall i | 0 <= i < |c| ensures Resolves(rows, rels, c[i], Resolution(rels, p).value) {
      assert c[i] in c;
    }
  }

  lemma {:induction false} ByRelationIsWork(rows: Rows, ids: seq<nat>, rels: Relations, pairs: seq<Pair>)
    requires NoRepeats(ids)
    requires forall p :: p in pairs ==> p in ByPair(rows, ids)
    ensures IsWork(rows, rels, ByRelation(pairs, ByPair(rows, ids), rels))
  {
    if pairs != [] {
      var n := |pairs| - 1;
      var front, p := ByRelation(pairs[..n], ByPair(rows, ids), rels), pairs[n];
      assert p in pairs;
      ByRelationIsWork(rows, ids, rels, pairs[..n]);
      var rel := Resolution(rels, p);
      if rel.Some? && rel.value.compact {
        var put := Put(front, rel.value, OfPair(rows, ids, p));
        PutIs(front, rel.value, OfPair(rows, ids, p));
        ByPairIsPiece(rows, ids, rels, p);
        forall m | 0 <= m < |put| ensures IsPiece(rows, rels, put[m]) {
          assert put[m] in put;
        }
      }
    }
  }

  lemma {:induction false} OfAccountIs(work: Work, account: nat)
    requires forall m, n :: 0 <= m < n < |work| ==> work[m].0 != work[n].0
    ensures var c := OfAccount(work, account);
            && (forall piece :: piece in c <==> piece in work && piece.0.account == account)
            && (forall m, n :: 0 <= m < n < |c| ==> c[m].0 != c[n].0)
  {
    if work != [] {
      assert work == [work[0]] + work[1..];
      OfAccountIs(work[1..], account);
      var c, rest := OfAccount(work, account), OfAccount(work[1..], account);
      assert forall piece :: piece in rest ==> piece in work[1..] && piece.0 != work[0].0;
      assert work[0].0.account == account ==> c == [work[0]] + rest;
      assert work[0].0.account != account ==> c == rest;
    }
  }

  lemma {:induction false} ByAccountIs(work: Work, accounts: seq<nat>)
    requires forall m, n :: 0 <= m < n < |work| ==> work[m].0 != work[n].0
    requires NoRepeats(accounts)
    ensures var c := ByAccount(work, accounts);
            && (forall piece :: piece in c <==> piece in work && piece.0.account in accounts)
            && (forall m, n :: 0 <= m < n < |c| ==> c[m].0 != c[n].0)
  {
    if accounts != [] {
      assert accounts == [accounts[0]] + accounts[1..];
      OfAccountIs(work, accounts[0]);
      ByAccountIs(work, accounts[1..]);
      var front, rest := OfAccount(work, accounts[0]), ByAccount(work, accounts[1..]);
      var c := front + rest;
      forall m, n | 0 <= m < n < |c| ensures c[m].0 != c[n].0 {
        if m < |front| <= n {
          assert front[m] in front && rest[n - |front|] in rest;
        }
      }
    }
  }

  lemma {:induction false} AccountsAre(work: Work)
    ensures forall piece :: piece in work ==> piece.0.account in Accounts(work)
    ensures NoRepeats(Accounts(work))
  {
    if work != [] {
      var n := |work| - 1;
      AccountsAre(work[..n]);
      assert work == work[..n] + [work[n]];
      if Accounts(work) != Accounts(work[..n]) {
        NoRepeatsNext(Accounts(work[..n]), work[n].0.account);
      }
    }
  }

  /** What is gathered is numbered by the relations the channels resolve to. */
  lemma WorkIsWork(rows: Rows, ids: seq<nat>, rels: Relations)
    requires NoRepeats(ids)
    ensures IsWork(rows, rels, WorkFor(rows, ids, rels))
  {
    var byRelation := ByRelation(Pairs(rows, ids), ByPair(rows, ids), rels);
    ByRelationIsWork(rows, ids, rels, Pairs(rows, ids));
    AccountsAre(byRelation);
    ByAccountIs(byRelation, Accounts(byRelation));
    var work := WorkFor(rows, ids, rels);
    forall n | 0 <= n < |work| ensures IsPiece(rows, rels, work[n]) {
      assert work[n] in work;
    }
  }

  lemma {:induction false} InByRelation(rows: Rows, ids: seq<nat>, rels: Relations, pairs: seq<Pair>, p: Pair, rel: Relation)
    requires NoRepeats(ids)
    requires forall q :: q in pairs ==> q in ByPair(rows, ids)
    requires p in pairs && Resolution(rels, p) == Some(rel) && rel.compact
    requires forall q :: q in pairs && Resolution(rels, q) == Some(rel) ==> q == p
    ensures (rel, OfPair(rows, ids, p)) in ByRelation(pairs, ByPair(rows, ids), rels)
  {
    var n := |pairs| - 1;
    var front, last := ByRelation(pairs[..n], ByPair(rows, ids), rels), pairs[n];
    ByRelationIsWork(rows, ids, rels, pairs[..n]);
    assert pairs == pairs[..n] + [last];
    assert last in pairs;
    if p in pairs[..n] {
      InByRelation(rows, ids, rels, pairs[..n], p, rel);
    }
    var resolved := Resolution(rels, last);
    if resolved.Some? && resolved.value.compact {
      PutIs(front, resolved.value, OfPair(rows, ids, last));
    }
  }

  /** Only the channels asked for are gathered. */
  lemma WorkIsShowing(rows: Rows, ids: seq<nat>, rels: Relations, n: nat, id: nat)
    requires NoRepeats(ids) && n < |WorkFor(rows, ids, rels)| && id in WorkFor(rows, ids, rels)[n].1
    ensures id in ids
  {
    var byRelation := ByRelation(Pairs(rows, ids), ByPair(rows, ids), rels);
    ByRelationIsWork(rows, ids, rels, Pairs(rows, ids));
    AccountsAre(byRelation);
    ByAccountIs(byRelation, Accounts(byRelation));
    var piece := WorkFor(rows, ids, rels)[n];
    assert piece in WorkFor(rows, ids, rels);
    PieceIsShowing(rows, ids, rels, Pairs(rows, ids), piece, id);
  }

  lemma {:induction false} PieceIsShowing(rows: Rows, ids: seq<nat>, rels: Relations, pairs: seq<Pair>,
                                          piece: (Relation, seq<nat>), id: nat)
    requires NoRepeats(ids) && forall p :: p in pairs ==> p in ByPair(rows, ids)
    requires piece in ByRelation(pairs, ByPair(rows, ids), rels) && id in piece.1
    ensures id in ids
  {
    var n := |pairs| - 1;
    var front, last := ByRelation(pairs[..n], ByPair(rows, ids), rels), pairs[n];
    assert last in pairs;
    ByRelationIsWork(rows, ids, rels, pairs[..n]);
    OfPairIs(rows, ids, last);
    var rel := Resolution(rels, last);
    if rel.Some? && rel.value.compact {
      PutIs(front, rel.value, OfPair(rows, ids, last));
    }
    if piece in front {
      PieceIsShowing(rows, ids, rels, pairs[..n], piece, id);
    }
  }

  /**
   Every channel that may be numbered and whose relation is compact is in that relation's piece,
   unless a channel of another account and group resolves to the same relation.
   */
  lemma EveryoneIsGathered(rows: Rows, ids: seq<nat>, rels: Relations, id: nat, rel: Relation)
    requires NoRepeats(ids)
    requires id in ids && Resolves(rows, rels, id, rel) && rel.compact
    requires forall other :: other in ids && Resolves(rows, rels, other, rel) ==> PairOf(rows[other]) == PairOf(rows[id])
    ensures exists piece :: piece in WorkFor(rows, ids, rels) && piece.0 == rel && id in piece.1
  {
    var pairs, p := Pairs(rows, ids), PairOf(rows[id]);
    PairsAre(rows, ids);
    forall q | q in pairs && Resolution(rels, q) == Some(rel) ensures q == p {
      PairHasOne(rows, ids, q);
    }
    InByRelation(rows, ids, rels, pairs, p, rel);
    OfPairIs(rows, ids, p);
    var byRelation := ByRelation(pairs, ByPair(rows, ids), rels);
    ByRelationIsWork(rows, ids, rels, pairs);
    AccountsAre(byRelation);
    ByAccountIs(byRelation, Accounts(byRelation));
    assert (rel, OfPair(rows, ids, p)) in WorkFor(rows, ids, rels);
  }

  lemma {:induction false} PairHasOne(rows: Rows, ids: seq<nat>, p: Pair)
    requires p in Pairs(rows, ids)
    ensures exists id :: id in ids && id in rows && Eligible(rows[id]) && PairOf(rows[id]) == p
  {
    var n := |ids| - 1;
    assert ids == ids[..n] + [ids[n]];
    if p in Pairs(rows, ids[..n]) {
      PairHasOne(rows, ids[..n], p);
    }
  }
}
