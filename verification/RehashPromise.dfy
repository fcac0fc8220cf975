/**
 When what the rehash leaves is what it promises: one row of each class, its best, with all the
 links of the class.
 */
module RehashPromise {
  import opened ByteStrings
  import opened Rehash
  import opened RehashState
  import opened RehashTurns
  import opened RehashRuns

  /** Every class keeps one row, its best, with all its links. */
  ghost predicate AsPromised(x: Input, streams: Streams, links: Links) {
    Leaves(x, x.streams.Keys, streams, links)
  }

  /** Every class has a best row: the one `AsPromised` leaves. */
  lemma {:induction false} BestThereIs(x: Input, rows: set<nat>, t: nat) returns (s: nat)
    requires rows <= x.streams.Keys && t in rows
    ensures IsBest(x, rows, s) && SameClass(x, s, t)
    decreases |rows|
  {
    s := t;
    if exists u :: u in rows && u != t && SameClass(x, u, t) {
      var u :| u in rows && u != t && SameClass(x, u, t);
      var best := BestThereIs(x, rows - {u}, t);
      PrefersTotal(x, u, best);
      if Prefers(x, best, u) {
        s := best;
        assert forall v :: v in rows ==> v == u || v in rows - {u};
      } else {
        s := u;
        forall v | v in rows && SameClass(x, u, v) && v != u ensures Prefers(x, u, v) {
          if v != best {
            assert v in rows - {u} && Prefers(x, best, v);
            PrefersTransitive(x, u, best, v);
          }
        }
      }
    }
  }

  predicate LinkUpTo(x: Input, j: nat, c: nat, t: nat) {
    t in x.streams && t <= j && SameClass(x, t, j) && (c, t) in x.links
  }

  predicate LinkAfter(x: Input, j: nat, c: nat, u: nat, order: nat) {
    u in x.streams && u > j && SameClass(x, u, j) && (c, u) in x.links && x.links[(c, u)] <= order
  }

  /**
   What is lost with the class up to `j` was not needed: the best row of the class comes after it,
   and so does a link at least as good for each one lost.
   */
  ghost predicate Harmless(x: Input, j: nat) {
    && (exists s :: s > j && SameClass(x, s, j) && IsBest(x, x.streams.Keys, s))
    && (forall c, t :: LinkUpTo(x, j, c, t) ==> exists u :: LinkAfter(x, j, c, u, x.links[(c, t)]))
  }

  lemma KeptAfter(x: Input, j: nat, u: nat)
    requires UniqueHashes(x) && Lost(x, j) && u in x.streams && SameClass(x, u, j)
    ensures u in Kept(x) <==> u > j
  {
    if u > j {
      forall k | Lost(x, k) ensures !LostTo(x, u, k) {
        if SameClass(x, u, k) {
          OneJumps(x, j, k);
        }
      }
    } else {
      assert LostTo(x, u, j);
    }
  }

  lemma BestIsKept(x: Input, s: nat)
    requires UniqueHashes(x) && IsBest(x, x.streams.Keys, s) && forall j :: Lost(x, j) ==> Harmless(x, j)
    ensures s in Kept(x) && IsBest(x, Kept(x), s)
  {
    if s !in Kept(x) {
      var j :| Lost(x, j) && LostTo(x, s, j);
      assert Harmless(x, j);
      var b :| b > j && SameClass(x, b, j) && IsBest(x, x.streams.Keys, b);
      OneBest(x, x.streams.Keys, s, b);
    }
  }

  lemma SameBest(x: Input, s: nat)
    requires UniqueHashes(x) && forall j :: Lost(x, j) ==> Harmless(x, j)
    ensures IsBest(x, Kept(x), s) <==> IsBest(x, x.streams.Keys, s)
  {
    if IsBest(x, x.streams.Keys, s) {
      BestIsKept(x, s);
    }
    if IsBest(x, Kept(x), s) {
      var b := BestThereIs(x, x.streams.Keys, s);
      BestIsKept(x, b);
      OneBest(x, Kept(x), s, b);
    }
  }

  lemma SameLeast(x: Input, c: nat, s: nat, order: Option<nat>)
    requires UniqueHashes(x) && forall j :: Lost(x, j) ==> Harmless(x, j)
    requires IsLeast(order, ClassOrders(x, Kept(x), c, s))
    ensures IsLeast(order, ClassOrders(x, x.streams.Keys, c, s))
  {
    var kept, all := ClassOrders(x, Kept(x), c, s), ClassOrders(x, x.streams.Keys, c, s);
    forall v | v in all ensures order.Some? && order.value <= v {
      var t :| t in x.streams.Keys && SameClass(x, s, t) && (c, t) in x.links && x.links[(c, t)] == v;
      if t in Kept(x) {
        assert x.links[(c, t)] in kept;
      } else {
        var j :| Lost(x, j) && LostTo(x, t, j);
        assert Harmless(x, j) && LinkUpTo(x, j, c, t);
        var u :| LinkAfter(x, j, c, u, v);
        KeptAfter(x, j, u);
        assert x.links[(c, u)] in kept;
      }
    }
    if order.Some? {
      assert order.value in kept;
      var t :| t in Kept(x) && SameClass(x, s, t) && (c, t) in x.links && x.links[(c, t)] == order.value;
      assert x.links[(c, t)] in all;
    }
  }

  lemma HarmlessIsPromised(x: Input, streams: Streams, links: Links)
    requires UniqueHashes(x) && Leaves(x, Kept(x), streams, links) && forall j :: Lost(x, j) ==> Harmless(x, j)
    ensures AsPromised(x, streams, links)
  {
    forall s: nat ensures s in streams <==> IsBest(x, x.streams.Keys, s) {
      SameBest(x, s);
    }
    forall c: nat, s | s in streams ensures IsLeast(Get(links, c, s), ClassOrders(x, x.streams.Keys, c, s)) {
      SameLeast(x, c, s, Get(links, c, s));
    }
  }

  lemma PromisedIsHarmless(x: Input, streams: Streams, links: Links, j: nat)
    requires UniqueHashes(x) && Leaves(x, Kept(x), streams, links) && AsPromised(x, streams, links) && Lost(x, j)
    ensures Harmless(x, j)
  {
    var s := BestThereIs(x, x.streams.Keys, j);
    assert s in streams;
    KeptAfter(x, j, s);
    forall c: nat, t: nat | LinkUpTo(x, j, c, t) ensures exists u :: LinkAfter(x, j, c, u, x.links[(c, t)]) {
      LaterLink(x, streams, links, j, s, c, t);
    }
  }

  lemma LaterLink(x: Input, streams: Streams, links: Links, j: nat, s: nat, c: nat, t: nat)
    requires UniqueHashes(x) && TheirLinks(x, Kept(x), streams, links) && TheirLinks(x, x.streams.Keys, streams, links)
    requires Lost(x, j) && s in streams && SameClass(x, s, j) && LinkUpTo(x, j, c, t)
    ensures exists u :: LinkAfter(x, j, c, u, x.links[(c, t)])
  {
    var order := Get(links, c, s);
    assert x.links[(c, t)] in ClassOrders(x, x.streams.Keys, c, s);
    assert order.Some? && order.value in ClassOrders(x, Kept(x), c, s);
    var u :| u in Kept(x) && SameClass(x, s, u) && (c, u) in x.links && x.links[(c, u)] == order.value;
    KeptAfter(x, j, u);
    assert LinkAfter(x, j, c, u, x.links[(c, t)]);
  }

  /**
   The rehash leaves what it promises exactly when every class it loses part of does not need that
   part. Whether it does can be told from the tables before the call.
   */
  lemma PromisedIff(x: Input, streams: Streams, links: Links)
    requires UniqueHashes(x) && Leaves(x, Kept(x), streams, links)
    ensures AsPromised(x, streams, links) <==> forall j :: Lost(x, j) ==> Harmless(x, j)
  {
    if forall j :: Lost(x, j) ==> Harmless(x, j) {
      HarmlessIsPromised(x, streams, links);
    }
    if AsPromised(x, streams, links) {
      forall j | Lost(x, j) ensures Harmless(x, j) {
        PromisedIsHarmless(x, streams, links, j);
      }
    }
  }

  /** In particular where no row is stored under the new hash of an earlier one; then the counts are right too. */
  lemma PromisedWithoutJumps(x: Input, streams: Streams, links: Links)
    requires UniqueHashes(x) && Leaves(x, Kept(x), streams, links)
    requires forall i, j :: i in x.streams && j in x.streams && i < j ==> x.streams[j].hash != Some(x.newHash(i))
    ensures AsPromised(x, streams, links) && AllDisplaced(x) == {}
  {
    forall j: nat ensures !Jumps(x, j) {
      assert forall i :: Earlier(x, i, j) && j in x.streams ==> x.streams[j].hash != Some(x.newHash(i));
    }
    PromisedIff(x, streams, links);
  }

  // ----- the two turns by themselves

  /** The class of hash `h` has a row: its key points at one. */
  predicate HasRow(w: Work, h: Hash) {
    h in w.hashKeys && w.hashKeys[h] in w.streams
  }

  /**
   A turn leaves the class of its row without one exactly when the key pointed at that very row: it
   is merged with itself, and it and all its links are gone.
   */
  lemma SelfMergeLosesTheRow(w: Work, id: nat, row: Stream, h: Hash, r: Option<Work>)
    requires id in w.streams && id !in w.deleted && RowDone(w, id, row, h, r) && r.Some?
    ensures !HasRow(r.value, h) <==> h in w.hashKeys && w.hashKeys[h] == id
    ensures !HasRow(r.value, h) ==> id !in r.value.streams && forall c :: (c, id) !in r.value.links
  {
    if h in w.hashKeys {
      if w.hashKeys[h] in w.streams {
        MergeLeavesARow(w, w.hashKeys[h], id, row, h);
      }
    } else if exists other :: Clashes(w.streams, id, h, other) {
      var other :| Clashes(w.streams, id, h, other) && r == MergePair(w, other, id, row, h);
      MergeLeavesARow(w, other, id, row, h);
    }
  }

  lemma MergeLeavesARow(w: Work, a: nat, b: nat, rowB: Stream, h: Hash)
    requires a in w.streams && b in w.streams
    ensures var r := MergePair(w, a, b, rowB, h);
            && (r.Some? ==> (HasRow(r.value, h) <==> a != b))
            && (r.Some? && a == b ==> b !in r.value.streams && forall c :: (c, b) !in r.value.links)
  {
    if a == b {
      forall c: nat ensures (c, b) !in Merged(w.links, b, b) {
        MergedLinks(w.links, b, b, c, b);
      }
    }
  }

  /**
   Row `i` meets a later row `j` of its class that holds the class's new hash; when the turn of `j`
   comes next, the class has a row left exactly when `i` was preferred. (`j` has no turn if it is gone.)
   */
  lemma ForwardClashLosesBoth(w: Work, i: nat, j: nat, h: Hash, w1: Work, w2: Work)
    requires i in w.streams && Clashes(w.streams, i, h, j) && j !in w.deleted && h !in w.hashKeys
    requires forall other :: Clashes(w.streams, i, h, other) ==> other == j
    requires RowDone(w, i, w.streams[i], h, Some(w1))
    requires if j in w1.streams then RowDone(w1, j, w.streams[j], h, Some(w2)) else w2 == w1
    ensures HasRow(w2, h) <==> !Preferred(w.links, j, w.streams[j], i, w.streams[i])
    ensures !HasRow(w2, h) ==> i !in w2.streams && j !in w2.streams
  {
    assert Some(w1) == MergePair(w, j, i, w.streams[i], h);
    MergeLeavesARow(w, j, i, w.streams[i], h);
    if j in w1.streams {
      SelfMergeLosesTheRow(w1, j, w.streams[j], h, Some(w2));
    }
  }

  /** Two rows that are both to have hash "b"; row 2 has it already, and is in channel 7. */
  const TWO_ROWS: Input :=
    Input(map[1 := Stream(Some("a"), 0), 2 := Stream(Some("b"), 0)], map[(7, 2) := 0], _ => "b")

  lemma TheLinkedRowIsPreferred()
    ensures Prefers(TWO_ROWS, 2, 1)
  {
    assert TWO_ROWS.links[(7, 2)] in Orders(TWO_ROWS.links, 2);
    assert Orders(TWO_ROWS.links, 1) == {};
  }

  /** It takes no more than that: nothing is left of the class. */
  lemma ForwardClashLosesTheClass(streams: Streams, links: Links)
    requires Leaves(TWO_ROWS, Kept(TWO_ROWS), streams, links)
    ensures Ready(TWO_ROWS) && Lost(TWO_ROWS, 2) && streams == map[]
  {
    var x := TWO_ROWS;
    TheLinkedRowIsPreferred();
    assert Earlier(x, 1, 2);
    assert IsBest(x, SeenSet(x, 2), 2);
    assert LostTo(x, 1, 2) && LostTo(x, 2, 2);
    assert Kept(x) == {};
  }

  /** A later row that is preferred takes in the one that meets it, whatever its own class. */
  lemma ClashTakesIn(w: Work, i: nat, j: nat, h: Hash, w1: Work)
    requires i in w.streams && Clashes(w.streams, i, h, j) && h !in w.hashKeys
    requires forall other :: Clashes(w.streams, i, h, other) ==> other == j
    requires Preferred(w.links, j, w.streams[j], i, w.streams[i])
    requires RowDone(w, i, w.streams[i], h, Some(w1))
    ensures w1.streams == w.streams - {i} && w1.hashKeys == w.hashKeys[h := j]
  {
    assert Some(w1) == Merge(w, j, w.streams[j], i, h);
    assert w.streams[j] == w.streams[j].(hash := Some(h));
  }

  /**
   Were row 2 of another class, of hash "c": it takes in row 1, and nothing is left of the class of
   hash "b".
   */
  lemma OtherClassClashLosesARow(w1: Work, w2: Work)
    requires RowDone(Work(TWO_ROWS.streams, TWO_ROWS.links, map[], {}, 0, 0), 1, TWO_ROWS.streams[1], "b", Some(w1))
    requires 2 in w1.streams ==> RowDone(w1, 2, TWO_ROWS.streams[2], "c", Some(w2))
    ensures 2 in w1.streams && forall t :: t in w2.streams ==> t == 2 && w2.streams[t].hash == Some("c")
  {
    TheLinkedRowIsPreferred();
    ClashTakesIn(Work(TWO_ROWS.streams, TWO_ROWS.links, map[], {}, 0, 0), 1, 2, "b", w1);
    assert "c" !in w1.hashKeys;
    assert forall t :: t in w1.streams ==> t == 2;
    assert forall other :: !Clashes(w1.streams, 2, "c", other);
  }
}
