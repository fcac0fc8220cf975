/** The whole rehash: the loop over batches of rows in id order, and what it leaves in the tables. */
module RehashRuns {
  import opened ByteStrings
  import opened Rehash
  import opened RehashState
  import opened RehashTurns

  const BATCH_SIZE: nat := 1000

  /** The rows after `last` in id order, at most `size` of them. */
  predicate IsBatch(streams: Streams, last: nat, size: nat, batch: seq<nat>) {
    && |batch| <= size
    && (forall i, j :: 0 <= i < j < |batch| ==> batch[i] < batch[j])
    && (forall i :: 0 <= i < |batch| ==> batch[i] in streams && batch[i] > last)
    && (forall t :: t in streams && t > last && t !in batch ==> |batch| == size && forall i :: 0 <= i < |batch| ==> batch[i] < t)
  }

  method FetchBatch(db: Db, last: nat, size: nat) returns (batch: seq<nat>)
    ensures IsBatch(db.streams, last, size, batch)
  {
    batch := [];
    var left := set t | t in db.streams && t > last;
    while left != {} && |batch| < size
      invariant |batch| <= size
      invariant forall i, j :: 0 <= i < j < |batch| ==> batch[i] < batch[j]
      invariant forall i :: 0 <= i < |batch| ==> batch[i] in db.streams && batch[i] > last
      invariant left <= db.streams.Keys && forall t :: t in left ==> t > last
      invariant forall i, t :: 0 <= i < |batch| && t in left ==> batch[i] < t
      invariant forall t :: t in db.streams && t > last && t !in batch ==> t in left
      decreases left
    {
      var t := Lowest(left);
      batch := batch + [t];
      left := left - {t};
    }
  }

  function Lowest(s: set<nat>): (m: nat)
    requires s != {}
    ensures m in s && forall i :: i in s ==> m <= i
  {
    LeastExists(s);
    var m :| m in s && forall i :: i in s ==> m <= i;
    m
  }

  lemma NextBefore(x: Input, last: nat, target: nat) returns (id: nat)
    requires exists t :: t in x.streams && last < t < target
    ensures IsNext(x, last, id) && id < target
  {
    var between := set t | t in x.streams && last < t < target;
    var some :| some in x.streams && last < some < target;
    assert some in between;
    id := Lowest(between);
    forall t | t in x.streams && t > last ensures t >= id {
      assert t < target ==> t in between;
    }
  }

  /** The rows in between are gone: none of them has a turn. */
  lemma {:induction false} SkipTo(x: Input, last: nat, w: Work, target: nat) returns (at: nat)
    requires UniqueHashes(x) && Upto(x, last, w) && last < target
    requires forall t :: t in x.streams && last < t < target ==> t !in w.streams
    ensures last <= at < target && Upto(x, at, w) && forall t :: t in x.streams && t > at ==> t >= target
    decreases target - last
  {
    if exists t :: t in x.streams && last < t < target {
      var id := NextBefore(x, last, target);
      SkippedTurn(x, last, w, id);
      at := SkipTo(x, id, w, target);
    } else {
      at := last;
    }
  }

  /** The turn of a row after rows that have none. */
  lemma TurnAfterSkips(x: Input, last: nat, w: Work, id: nat, r: Option<Work>)
    requires Ready(x) && Upto(x, last, w) && id in x.streams && id > last
    requires forall t :: t in x.streams && last < t < id ==> t !in w.streams
    requires RowDone(w, id, x.streams[id], x.newHash(id), r)
    ensures r.Some? && Upto(x, id, r.value) && r.value.streams.Keys <= w.streams.Keys
  {
    var at := SkipTo(x, last, w, id);
    TurnKeeps(x, at, w, id, r);
  }

  /** `batch` is, from its place `n` on, the rows of the table that come next. */
  predicate ComesNext(streams: Streams, last: nat, batch: seq<nat>, n: nat)
    requires n <= |batch|
  {
    && (forall i, j :: 0 <= i < j < |batch| ==> batch[i] < batch[j])
    && (forall i :: n <= i < |batch| ==> batch[i] > last)
    && (forall t :: t in streams && t > last ==> t in batch[n..] || forall i :: 0 <= i < |batch| ==> batch[i] < t)
  }

  lemma NextInBatch(streams: Streams, last: nat, batch: seq<nat>, n: nat)
    requires n < |batch| && ComesNext(streams, last, batch, n)
    ensures batch[n] > last && forall t :: t in streams && last < t ==> t >= batch[n]
    ensures ComesNext(streams, batch[n], batch, n + 1)
  {
    assert batch[n..] == [batch[n]] + batch[n + 1..];
  }

  lemma StillNext(streams: Streams, last: nat, batch: seq<nat>, n: nat, streams': Streams)
    requires n <= |batch| && ComesNext(streams, last, batch, n) && streams'.Keys <= streams.Keys
    ensures ComesNext(streams', last, batch, n)
  {
    assert forall t :: t in streams' ==> t in streams.Keys;
  }

  /** A row that is still to have its turn is in the table as it was at the start. */
  lemma FetchedAsStored(x: Input, last: nat, w: Work, t: nat)
    requires Upto(x, last, w) && t in w.streams && t > last
    ensures t in x.streams && w.streams[t] == x.streams[t]
  {
  }

  method RehashBatch(db: Db, ghost x: Input, newHash: nat -> Hash, batch: seq<nat>, ghost last: nat, w0: Work)
    returns (w: Work)
    requires Ready(x) && newHash == x.newHash && batch != []
    requires w0.streams == db.streams && w0.links == db.links && Upto(x, last, w0)
    requires forall i :: 0 <= i < |batch| ==> batch[i] in db.streams
    requires ComesNext(db.streams, last, batch, 0)
    modifies db
    ensures w.streams == db.streams && w.links == db.links && Upto(x, batch[|batch| - 1], w)
  {
    w := w0;
    var fetched := db.streams;
    FetchedAreStored(x, last, w0, batch);
    ghost var at := last;
    for n := 0 to |batch|
      invariant w.streams == db.streams && w.links == db.links
      invariant Upto(x, at, w)
      invariant n > 0 ==> at == batch[n - 1]
      invariant ComesNext(w.streams, at, batch, n)
    {
      var id := batch[n];
      var r := db.RehashRow(id, fetched[id], newHash(id), w);
      NextInBatch(w.streams, at, batch, n);
      TurnAfterSkips(x, at, w, id, r);
      StillNext(w.streams, id, batch, n + 1, r.value.streams);
      w := r.value;
      at := id;
    }
    assert at == batch[|batch| - 1];
  }

  lemma FetchedAreStored(x: Input, last: nat, w: Work, batch: seq<nat>)
    requires Upto(x, last, w) && ComesNext(w.streams, last, batch, 0)
    requires forall i :: 0 <= i < |batch| ==> batch[i] in w.streams
    ensures forall i :: 0 <= i < |batch| ==> batch[i] in x.streams && w.streams[batch[i]] == x.streams[batch[i]]
  {
    forall i | 0 <= i < |batch| ensures batch[i] in x.streams && w.streams[batch[i]] == x.streams[batch[i]] {
      FetchedAsStored(x, last, w, batch[i]);
    }
  }

  // ----- what is left

  predicate LostTo(x: Input, t: nat, j: nat)
    requires Jumps(x, j)
  {
    t <= j && SameClass(x, t, j)
  }

  /** The rows that count in the end: those not lost. */
  ghost function Kept(x: Input): set<nat> {
    set t | t in x.streams && !exists j :: Lost(x, j) && LostTo(x, t, j)
  }

  /** The orders channel `c` had for the rows of the class of `s` within `rows`. */
  function ClassOrders(x: Input, rows: set<nat>, c: nat, s: nat): set<nat> {
    set t | t in rows && SameClass(x, s, t) && (c, t) in x.links :: x.links[(c, t)]
  }

  /** Of each class within `rows` the best row is left, under the class's hash, and no other. */
  ghost predicate BestRowsLeft(x: Input, rows: set<nat>, streams: Streams) {
    && (forall s :: s in streams <==> IsBest(x, rows, s))
    && (forall s :: s in streams ==> s in x.streams && streams[s] == x.streams[s].(hash := Some(x.newHash(s))))
  }

  /** It has the links of all of them, each at the best order it had, and there are no others. */
  ghost predicate TheirLinks(x: Input, rows: set<nat>, streams: Streams, links: Links) {
    && (forall p :: p in links ==> p.1 in streams)
    && (forall c, s :: s in streams ==> IsLeast(Get(links, c, s), ClassOrders(x, rows, c, s)))
  }

  ghost predicate Leaves(x: Input, rows: set<nat>, streams: Streams, links: Links) {
    BestRowsLeft(x, rows, streams) && TheirLinks(x, rows, streams, links)
  }

  /** So the row left of a class has the least channel order of its rows; of those it is the newest; of those the lowest id. */
  lemma RowLeftIff(x: Input, streams: Streams, links: Links, s: nat)
    requires Leaves(x, Kept(x), streams, links)
    ensures s in streams <==> s in Kept(x) && forall t :: t in Kept(x) && SameClass(x, s, t) && t != s ==> Outranks(x, s, t)
  {
    BestIs(x, Kept(x), s);
  }

  lemma AllDone(x: Input, last: nat)
    requires forall t :: t in x.streams ==> t <= last
    ensures Done(x, last) == Kept(x) && Todo(x, last) == {}
    ensures SeenSet(x, last) == x.streams.Keys
  {
    forall t | t in x.streams ensures t in Done(x, last) <==> t in Kept(x) {
      assert forall j: nat :: LosesAt(x, last, t, j) <==> Lost(x, j) && LostTo(x, t, j);
    }
  }

  lemma LeastOfClass(x: Input, rows: set<nat>, c: nat, s: nat, order: Option<nat>)
    requires IsClassOrder(x, rows, c, s, order)
    ensures IsLeast(order, ClassOrders(x, rows, c, s))
  {
    forall v | v in ClassOrders(x, rows, c, s) ensures order.Some? && order.value <= v {
      var t :| t in rows && SameClass(x, s, t) && (c, t) in x.links && x.links[(c, t)] == v;
      assert LinkedBy(x, rows, c, s, t);
    }
    if order.Some? {
      var t :| LinkedBy(x, rows, c, s, t) && x.links[(c, t)] == order.value;
      assert x.links[(c, t)] in ClassOrders(x, rows, c, s);
    }
  }

  lemma StateLeaves(x: Input, rows: set<nat>, w: Work)
    requires State(x, rows, {}, w)
    ensures Leaves(x, rows, w.streams, w.links)
  {
    forall c: nat, s | s in w.streams ensures IsLeast(Get(w.links, c, s), ClassOrders(x, rows, c, s)) {
      assert IsClassOrder(x, rows, c, s, Get(w.links, c, s));
      LeastOfClass(x, rows, c, s, Get(w.links, c, s));
    }
  }

  /** The rows met ahead of their turn, and gone when it came. */
  ghost function AllDisplaced(x: Input): set<nat> {
    set j | j in x.streams && Jumps(x, j) && !Lost(x, j)
  }

  lemma AtTheEnd(x: Input, last: nat, w: Work)
    requires Ready(x) && Upto(x, last, w) && forall t :: t in w.streams ==> t <= last
    ensures Leaves(x, Kept(x), w.streams, w.links)
    ensures |w.streams| == w.processed - w.merged + |AllDisplaced(x)|
    ensures |x.streams| - |AllDisplaced(x)| <= w.processed <= |x.streams|
  {
    var target := Above(x, last);
    var at := SkipTo(x, last, w, target);
    AllDone(x, at);
    StateLeaves(x, Kept(x), w);
    CountsAtTheEnd(x, at, w);
  }

  lemma CountsAtTheEnd(x: Input, last: nat, w: Work)
    requires BooksFine(x, last, w) && SeenSet(x, last) == x.streams.Keys
    ensures |w.streams| == w.processed - w.merged + |AllDisplaced(x)|
    ensures |x.streams| - |AllDisplaced(x)| <= w.processed <= |x.streams|
  {
    assert Displaced(x, last) == AllDisplaced(x) by {
      assert forall j :: j in x.streams <==> j in SeenSet(x, last);
    }
    assert |x.streams| == |x.streams.Keys|;
  }

  lemma {:induction false} HigherThan(s: set<nat>, last: nat) returns (m: nat)
    ensures m > last && forall t :: t in s ==> t < m
  {
    m := last + 1;
    if s != {} {
      var t :| t in s;
      var rest := HigherThan(s - {t}, last);
      m := if rest > t then rest else t + 1;
      assert forall u :: u in s ==> u == t || u in s - {t};
    }
  }

  lemma Above(x: Input, last: nat) returns (m: nat)
    ensures m > last && forall t :: t in x.streams ==> t < m
  {
    m := HigherThan(x.streams.Keys, last);
  }

  lemma UptoNothing(x: Input)
    requires Sound(x)
    ensures Upto(x, 0, Work(x.streams, x.links, map[], {}, 0, 0))
  {
    assert forall t :: t in x.streams ==> t > 0;
    assert SeenSet(x, 0) == {} && Displaced(x, 0) == {};
    assert forall i: nat, t: nat :: !SeenOf(x, 0, i, t);
    assert Done(x, 0) == {} && Todo(x, 0) == x.streams.Keys;
  }

  lemma BatchComesNext(last: nat, streams: Streams, batch: seq<nat>)
    requires IsBatch(streams, last, BATCH_SIZE, batch)
    ensures ComesNext(streams, last, batch, 0)
    ensures batch == [] ==> forall t :: t in streams ==> t <= last
  {
    assert batch[0..] == batch;
  }

  method RehashStreams(db: Db, newHash: nat -> Hash) returns (processed: nat, merged: nat)
    requires Ready(Input(db.streams, db.links, newHash))
    modifies db
    ensures var x := Input(old(db.streams), old(db.links), newHash);
            && Leaves(x, Kept(x), db.streams, db.links)
            && |db.streams| == processed - merged + |AllDisplaced(x)|
            && |x.streams| - |AllDisplaced(x)| <= processed <= |x.streams|
  {
    ghost var x := Input(db.streams, db.links, newHash);
    UptoNothing(x);
    var last: nat := 0;
    var w := Work(db.streams, db.links, map[], {}, 0, 0);
    while true
      invariant w.streams == db.streams && w.links == db.links
      invariant Upto(x, last, w)
      decreases x.streams.Keys - SeenSet(x, last)
    {
      var batch := FetchBatch(db, last, BATCH_SIZE);
      BatchComesNext(last, db.streams, batch);
      if batch == [] {
        break;
      }
      FetchedAsStored(x, last, w, batch[0]);
      SeenGrows(x, last, db.streams, batch);
      w := RehashBatch(db, x, newHash, batch, last, w);
      last := batch[|batch| - 1];
    }
    AtTheEnd(x, last, w);
    processed, merged := w.processed, w.merged;
  }

  lemma SeenMore(x: Input, last: nat, next: nat, t: nat)
    requires t in x.streams && last < t <= next
    ensures x.streams.Keys - SeenSet(x, next) < x.streams.Keys - SeenSet(x, last)
  {
    var was, now := x.streams.Keys - SeenSet(x, last), x.streams.Keys - SeenSet(x, next);
    assert forall u :: u in now ==> u in was;
    assert t in was && t !in now;
  }

  lemma SeenGrows(x: Input, last: nat, streams: Streams, batch: seq<nat>)
    requires ComesNext(streams, last, batch, 0) && batch != [] && batch[0] in x.streams
    ensures x.streams.Keys - SeenSet(x, batch[|batch| - 1]) < x.streams.Keys - SeenSet(x, last)
  {
    SeenMore(x, last, batch[|batch| - 1], batch[0]);
  }
}
