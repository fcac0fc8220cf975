/**
 What the tables look like while the rehash is under way: the rows that have been dealt with, of
 which one is left in each class of equal new hashes, and the rows still to come.
 `newHash` is the hash a row's own columns generate; nothing the rehash writes changes it.
 */
module RehashState {
  import opened ByteStrings
  import opened Rehash

  /** The tables a rehash starts from. */
  datatype Input = Input(streams: Streams, links: Links, newHash: nat -> Hash)

  predicate SameClass(x: Input, s: nat, t: nat) {
    x.newHash(s) == x.newHash(t)
  }

  ghost predicate Prefers(x: Input, s: nat, t: nat) {
    s in x.streams && t in x.streams && Preferred(x.links, s, x.streams[s], t, x.streams[t])
  }

  /** The best row of its class within `rows`, by the links and rows there were at the start. */
  ghost predicate IsBest(x: Input, rows: set<nat>, s: nat) {
    s in rows && forall t {:trigger Prefers(x, s, t)} :: t in rows && SameClass(x, s, t) && t != s ==> Prefers(x, s, t)
  }

  predicate LinkedBy(x: Input, rows: set<nat>, c: nat, s: nat, t: nat) {
    t in rows && SameClass(x, s, t) && (c, t) in x.links
  }

  /** The least order channel `c` had for any row of the class of `s` within `rows`. */
  ghost predicate IsClassOrder(x: Input, rows: set<nat>, c: nat, s: nat, order: Option<nat>) {
    match order
    case None => forall t :: !LinkedBy(x, rows, c, s, t)
    case Some(v) =>
      && (exists t :: LinkedBy(x, rows, c, s, t) && x.links[(c, t)] == v)
      && (forall t :: LinkedBy(x, rows, c, s, t) ==> v <= x.links[(c, t)])
  }

  /** The rows left: those to come, as they were, and the best of each class dealt with, under its hash. */
  ghost predicate RowsFine(x: Input, done: set<nat>, todo: set<nat>, streams: Streams) {
    && done <= x.streams.Keys && todo <= x.streams.Keys && done !! todo
    && (forall t :: t in streams <==> t in todo || IsBest(x, done, t))
    && (forall t :: t in streams ==>
          streams[t] == if t in todo then x.streams[t] else x.streams[t].(hash := Some(x.newHash(t))))
  }

  /** Their links: as they were, or the class's least orders. */
  ghost predicate LinksFine(x: Input, done: set<nat>, todo: set<nat>, streams: Streams, links: Links) {
    && (forall p :: p in links ==> p.1 in streams)
    && (forall c, s :: s in todo ==> Get(links, c, s) == Get(x.links, c, s))
    && (forall c, s :: s in streams && s in done ==> IsClassOrder(x, done, c, s, Get(links, c, s)))
  }

  /** A key points at the row of its class that is left, or at a deleted row of a class that has none. */
  ghost predicate KeyFine(x: Input, done: set<nat>, w: Work, h: Hash, s: nat) {
    if s in w.deleted then forall t :: t in done ==> x.newHash(t) != h
    else s in done && s in w.streams && x.newHash(s) == h
  }

  ghost predicate KeysFine(x: Input, done: set<nat>, w: Work) {
    && (forall h :: h in w.hashKeys ==> KeyFine(x, done, w, h, w.hashKeys[h]))
    && (forall t :: t in done ==> x.newHash(t) in w.hashKeys)
    && w.deleted !! w.streams.Keys
  }

  ghost predicate State(x: Input, done: set<nat>, todo: set<nat>, w: Work) {
    && RowsFine(x, done, todo, w.streams)
    && LinksFine(x, done, todo, w.streams, w.links)
    && KeysFine(x, done, w)
  }

  /** Preference is a strict total order on the rows. */
  lemma PrefersTotal(x: Input, a: nat, b: nat)
    requires a in x.streams && b in x.streams && a != b
    ensures Prefers(x, a, b) <==> !Prefers(x, b, a)
  {
  }

  lemma PrefersTransitive(x: Input, a: nat, b: nat, c: nat)
    requires Prefers(x, a, b) && Prefers(x, b, c)
    ensures Prefers(x, a, c)
  {
  }

  lemma OneBest(x: Input, rows: set<nat>, s: nat, t: nat)
    requires IsBest(x, rows, s) && IsBest(x, rows, t) && SameClass(x, s, t) && rows <= x.streams.Keys
    ensures s == t
  {
    if s != t {
      PrefersTotal(x, s, t);
    }
  }

  /** By the tables at the start: a lower channel order, or the same one and newer, or both the same and a lower id. */
  ghost predicate Outranks(x: Input, s: nat, t: nat)
    requires s in x.streams && t in x.streams
  {
    var orderS, orderT := BestOrder(x.links, s), BestOrder(x.links, t);
    || (orderS.Some? && (orderT.Some? ==> orderS.value < orderT.value))
    || (orderS == orderT && x.streams[s].updatedAt > x.streams[t].updatedAt)
    || (orderS == orderT && x.streams[s].updatedAt == x.streams[t].updatedAt && s < t)
  }

  /** The best row of a class: the least channel order, of those the newest, of those the lowest id. */
  lemma BestIs(x: Input, rows: set<nat>, s: nat)
    requires rows <= x.streams.Keys
    ensures IsBest(x, rows, s) <==> s in rows && forall t :: t in rows && SameClass(x, s, t) && t != s ==> Outranks(x, s, t)
  {
    if IsBest(x, rows, s) {
      forall t | t in rows && SameClass(x, s, t) && t != s ensures Outranks(x, s, t) {
        assert Prefers(x, s, t);
      }
    }
  }

  // ----- a row of a class that has none

  lemma FreshRows(x: Input, done: set<nat>, todo: set<nat>, w: Work, id: nat)
    requires State(x, done, todo, w) && id in todo && forall t :: t in done ==> !SameClass(x, id, t)
    ensures IsBest(x, done + {id}, id)
    ensures forall s :: s != id ==> (IsBest(x, done + {id}, s) <==> IsBest(x, done, s))
  {
    forall s | s != id ensures IsBest(x, done + {id}, s) <==> IsBest(x, done, s) {
      if IsBest(x, done, s) {
        assert !SameClass(x, s, id);
      }
    }
  }

  /** A row of another class changes nothing for this one. */
  lemma SameOrder(x: Input, done: set<nat>, id: nat, c: nat, s: nat, order: Option<nat>)
    requires !SameClass(x, s, id) && IsClassOrder(x, done, c, s, order)
    ensures IsClassOrder(x, done + {id}, c, s, order)
  {
    assert forall t :: LinkedBy(x, done + {id}, c, s, t) <==> LinkedBy(x, done, c, s, t);
  }

  lemma FreshLinks(x: Input, done: set<nat>, todo: set<nat>, w: Work, id: nat)
    requires State(x, done, todo, w) && id in todo && forall t :: t in done ==> !SameClass(x, id, t)
    ensures LinksFine(x, done + {id}, todo - {id}, w.streams, w.links)
  {
    forall c: nat, s | s in w.streams && s in done + {id}
      ensures IsClassOrder(x, done + {id}, c, s, Get(w.links, c, s))
    {
      if s == id {
        assert Get(w.links, c, id) == Get(x.links, c, id);
        assert forall t :: LinkedBy(x, done + {id}, c, id, t) <==> t == id && (c, id) in x.links;
      } else {
        assert IsClassOrder(x, done, c, s, Get(w.links, c, s));
        SameOrder(x, done, id, c, s, Get(w.links, c, s));
      }
    }
  }

  lemma FreshKeys(x: Input, done: set<nat>, todo: set<nat>, w: Work, id: nat, w': Work)
    requires State(x, done, todo, w) && id in todo && forall t :: t in done ==> !SameClass(x, id, t)
    requires SetHash(w, id, x.newHash(id)) == Some(w')
    ensures KeysFine(x, done + {id}, w')
  {
    var h := x.newHash(id);
    assert w'.streams.Keys == w.streams.Keys;
    forall k | k in w'.hashKeys ensures KeyFine(x, done + {id}, w', k, w'.hashKeys[k]) {
      if k != h {
        assert KeyFine(x, done, w, k, w.hashKeys[k]);
      }
    }
  }

  lemma FreshRow(x: Input, done: set<nat>, todo: set<nat>, w: Work, id: nat) returns (w': Work)
    requires State(x, done, todo, w) && id in todo && forall t :: t in done ==> !SameClass(x, id, t)
    ensures SetHash(w, id, x.newHash(id)) == Some(w') && State(x, done + {id}, todo - {id}, w')
  {
    w' := SetHash(w, id, x.newHash(id)).value;
    FreshRows(x, done, todo, w, id);
    FreshLinks(x, done, todo, w, id);
    FreshKeys(x, done, todo, w, id, w');
    assert w'.streams.Keys == w.streams.Keys;
  }

  // ----- a row that joins a class

  /** A row still to come has the links it had. */
  lemma OrdersKept(x: Input, done: set<nat>, todo: set<nat>, w: Work, s: nat)
    requires State(x, done, todo, w) && s in todo
    ensures Orders(w.links, s) == Orders(x.links, s)
  {
    var now, was := Orders(w.links, s), Orders(x.links, s);
    forall p | p in w.links && p.1 == s ensures w.links[p] in was {
      assert Get(w.links, p.0, s) == Get(x.links, p.0, s);
      assert p == (p.0, s) && p in x.links;
    }
    forall p | p in x.links && p.1 == s ensures x.links[p] in now {
      assert Get(w.links, p.0, s) == Get(x.links, p.0, s);
      assert p == (p.0, s) && p in w.links;
    }
  }

  /** The best row of a class gains no order better than its own by what is merged into it. */
  lemma NoBetterThanItsOwn(x: Input, done: set<nat>, todo: set<nat>, w: Work, s: nat, v: nat)
    requires State(x, done, todo, w) && s in w.streams && s in done && v in Orders(w.links, s)
    ensures BestOrder(x.links, s).Some? && BestOrder(x.links, s).value <= v
  {
    var p :| p in w.links && p.1 == s && w.links[p] == v;
    assert IsClassOrder(x, done, p.0, s, Get(w.links, p.0, s));
    var t :| LinkedBy(x, done, p.0, s, t) && x.links[(p.0, t)] == v;
    assert v in Orders(x.links, t);
    assert t == s || Prefers(x, s, t);
  }

  lemma NoWorseThanItsOwn(x: Input, done: set<nat>, todo: set<nat>, w: Work, s: nat, v: nat)
    requires State(x, done, todo, w) && s in w.streams && s in done && v in Orders(x.links, s)
    ensures BestOrder(w.links, s).Some? && BestOrder(w.links, s).value <= v
  {
    var p :| p in x.links && p.1 == s && x.links[p] == v;
    assert IsClassOrder(x, done, p.0, s, Get(w.links, p.0, s));
    assert LinkedBy(x, done, p.0, s, s);
    assert w.links[(p.0, s)] in Orders(w.links, s);
  }

  lemma LeastIsOne(orders: set<nat>, a: Option<nat>, b: Option<nat>)
    requires IsLeast(a, orders) && IsLeast(b, orders)
    ensures a == b
  {
  }

  lemma BestOfItsClassKept(x: Input, done: set<nat>, todo: set<nat>, w: Work, s: nat)
    requires State(x, done, todo, w) && s in w.streams && s in done
    ensures IsLeast(BestOrder(x.links, s), Orders(w.links, s))
  {
    var now, was := BestOrder(w.links, s), BestOrder(x.links, s);
    if now.Some? {
      NoBetterThanItsOwn(x, done, todo, w, s, now.value);
      NoWorseThanItsOwn(x, done, todo, w, s, was.value);
      assert now.value == was.value;
    } else if was.Some? {
      NoWorseThanItsOwn(x, done, todo, w, s, was.value);
    }
  }

  /** Merging has not changed how the best row of a class compares with the rest. */
  lemma BestOrderKept(x: Input, done: set<nat>, todo: set<nat>, w: Work, s: nat)
    requires State(x, done, todo, w) && s in w.streams
    ensures BestOrder(w.links, s) == BestOrder(x.links, s)
  {
    if s in todo {
      OrdersKept(x, done, todo, w, s);
    } else {
      BestOfItsClassKept(x, done, todo, w, s);
    }
    LeastIsOne(Orders(w.links, s), BestOrder(w.links, s), BestOrder(x.links, s));
  }

  /** So the row kept is the one the starting tables prefer. */
  lemma KeptAsAtTheStart(x: Input, done: set<nat>, todo: set<nat>, w: Work, a: nat, b: nat)
    requires State(x, done, todo, w) && a in w.streams && b in w.streams
    ensures Preferred(w.links, a, w.streams[a], b, x.streams[b]) <==> Prefers(x, a, b)
  {
    BestOrderKept(x, done, todo, w, a);
    BestOrderKept(x, done, todo, w, b);
  }

  /** The new best of a class is the better of the old best and the row that joins. */
  lemma BestOfTwo(x: Input, done: set<nat>, id: nat, existing: nat, keep: nat, lose: nat)
    requires done <= x.streams.Keys && id !in done
    requires IsBest(x, done, existing) && SameClass(x, id, existing)
    requires (keep, lose) == (existing, id) || (keep, lose) == (id, existing)
    requires Prefers(x, keep, lose)
    ensures IsBest(x, done + {id}, keep) && !IsBest(x, done + {id}, lose)
    ensures forall s :: s != keep && s != lose ==> (IsBest(x, done + {id}, s) <==> IsBest(x, done, s))
  {
    PrefersTotal(x, keep, lose);
    forall t | t in done + {id} && SameClass(x, keep, t) && t != keep ensures Prefers(x, keep, t) {
      if t != lose {
        assert Prefers(x, existing, t);
        if keep == id {
          PrefersTransitive(x, id, existing, t);
        }
      }
    }
    assert keep in done + {id} && SameClass(x, lose, keep);
    forall s | s != keep && s != lose ensures IsBest(x, done + {id}, s) <==> IsBest(x, done, s) {
      if SameClass(x, s, existing) && s in done {
        PrefersTotal(x, existing, s);
        assert !IsBest(x, done, s);
      }
    }
  }

  /** The least order of a class and of the row that joins it is the least order of both. */
  lemma JoinedOrder(x: Input, done: set<nat>, id: nat, existing: nat, keep: nat, c: nat,
                    old1: Option<nat>, old2: Option<nat>, joined: Option<nat>)
    requires SameClass(x, id, existing) && SameClass(x, id, keep)
    requires IsClassOrder(x, done, c, existing, old1) && old2 == Get(x.links, c, id)
    requires joined == Better(old1, old2) || joined == Better(old2, old1)
    ensures IsClassOrder(x, done + {id}, c, keep, joined)
  {
    assert forall t :: LinkedBy(x, done + {id}, c, keep, t) <==> LinkedBy(x, done, c, existing, t) || (t == id && old2.Some?);
  }

  /** `id` and the row left of its class meet, and the preferred one is kept. */
  ghost predicate Meets(x: Input, done: set<nat>, todo: set<nat>, w: Work, id: nat, existing: nat, keep: nat, lose: nat) {
    && State(x, done, todo, w) && id in todo
    && existing in w.streams && existing in done && SameClass(x, id, existing)
    && ((keep, lose) == (existing, id) || (keep, lose) == (id, existing))
    && Prefers(x, keep, lose)
  }

  function MergedWork(w: Work, keep: nat, lose: nat, h: Hash): Work
    requires keep in w.streams && keep != lose
  {
    Merge(w, keep, w.streams[keep], lose, h).value
  }

  lemma MergeKeepsRows(x: Input, done: set<nat>, todo: set<nat>, w: Work, id: nat, existing: nat, keep: nat, lose: nat)
    requires Meets(x, done, todo, w, id, existing, keep, lose)
    ensures RowsFine(x, done + {id}, todo - {id}, MergedWork(w, keep, lose, x.newHash(id)).streams)
  {
    var streams := MergedWork(w, keep, lose, x.newHash(id)).streams;
    assert IsBest(x, done, existing);
    BestOfTwo(x, done, id, existing, keep, lose);
    assert streams.Keys == w.streams.Keys - {lose};
    forall t: nat ensures t in streams <==> t in todo - {id} || IsBest(x, done + {id}, t) {
      if t != keep && t != lose {
        assert IsBest(x, done + {id}, t) <==> IsBest(x, done, t);
      }
    }
  }

  lemma MergeKeepsKeys(x: Input, done: set<nat>, todo: set<nat>, w: Work, id: nat, existing: nat, keep: nat, lose: nat)
    requires Meets(x, done, todo, w, id, existing, keep, lose)
    ensures KeysFine(x, done + {id}, MergedWork(w, keep, lose, x.newHash(id)))
  {
    var h := x.newHash(id);
    var w' := MergedWork(w, keep, lose, h);
    assert w'.streams.Keys == w.streams.Keys - {lose};
    forall k | k in w'.hashKeys ensures KeyFine(x, done + {id}, w', k, w'.hashKeys[k]) {
      if k != h {
        assert KeyFine(x, done, w, k, w.hashKeys[k]);
      }
    }
  }

  lemma MergeKeepsOrder(x: Input, done: set<nat>, todo: set<nat>, w: Work, id: nat, existing: nat, keep: nat, lose: nat, c: nat, s: nat)
    requires Meets(x, done, todo, w, id, existing, keep, lose)
    requires s in w.streams && s in done + {id} && s != lose
    ensures IsClassOrder(x, done + {id}, c, s, Get(Merged(w.links, lose, keep), c, s))
  {
    MergedLinks(w.links, lose, keep, c, s);
    if s == keep {
      assert IsClassOrder(x, done, c, existing, Get(w.links, c, existing));
      assert Get(w.links, c, id) == Get(x.links, c, id);
      JoinedOrder(x, done, id, existing, keep, c, Get(w.links, c, existing), Get(w.links, c, id),
                  Better(Get(w.links, c, keep), Get(w.links, c, lose)));
    } else {
      assert IsClassOrder(x, done, c, s, Get(w.links, c, s));
      if SameClass(x, s, existing) {
        OneBest(x, done, s, existing);
      }
      SameOrder(x, done, id, c, s, Get(w.links, c, s));
    }
  }

  lemma MergeKeepsLinks(x: Input, done: set<nat>, todo: set<nat>, w: Work, id: nat, existing: nat, keep: nat, lose: nat)
    requires Meets(x, done, todo, w, id, existing, keep, lose)
    ensures var w' := MergedWork(w, keep, lose, x.newHash(id)); LinksFine(x, done + {id}, todo - {id}, w'.streams, w'.links)
  {
    var w' := MergedWork(w, keep, lose, x.newHash(id));
    forall p | p in w'.links ensures p.1 in w'.streams {
      MergedLinks(w.links, lose, keep, p.0, p.1);
      assert p == (p.0, p.1);
      assert p.1 == keep || (p.0, p.1) in w.links;
    }
    forall c: nat, s | s in todo - {id} ensures Get(w'.links, c, s) == Get(x.links, c, s) {
      MergedLinks(w.links, lose, keep, c, s);
    }
    forall c: nat, s | s in w'.streams && s in done + {id} ensures IsClassOrder(x, done + {id}, c, s, Get(w'.links, c, s)) {
      MergeKeepsOrder(x, done, todo, w, id, existing, keep, lose, c, s);
    }
  }

  /** One row of the table is gone, by one merge. */
  predicate OneLess(w: Work, w': Work) {
    && |w'.streams| == |w.streams| - 1 && w'.streams.Keys <= w.streams.Keys
    && w'.processed == w.processed + 1 && w'.merged == w.merged + 1
  }

  lemma MergeIsOneLess(w: Work, keep: nat, lose: nat, h: Hash)
    requires keep in w.streams && lose in w.streams && keep != lose
    ensures OneLess(w, MergedWork(w, keep, lose, h))
  {
    var w' := MergedWork(w, keep, lose, h);
    assert w'.streams.Keys == w.streams.Keys - {lose};
    assert |w'.streams| == |w'.streams.Keys| && |w.streams| == |w.streams.Keys|;
  }

  lemma MergeKeeps(x: Input, done: set<nat>, todo: set<nat>, w: Work, id: nat, existing: nat, keep: nat, lose: nat)
    requires Meets(x, done, todo, w, id, existing, keep, lose)
    ensures State(x, done + {id}, todo - {id}, MergedWork(w, keep, lose, x.newHash(id)))
  {
    MergeKeepsRows(x, done, todo, w, id, existing, keep, lose);
    MergeKeepsLinks(x, done, todo, w, id, existing, keep, lose);
    MergeKeepsKeys(x, done, todo, w, id, existing, keep, lose);
  }

  /** A row whose class has one left: the better of the two stays. */
  lemma JoiningRow(x: Input, done: set<nat>, todo: set<nat>, w: Work, id: nat, existing: nat) returns (w': Work)
    requires State(x, done, todo, w) && id in todo
    requires existing in w.streams && existing in done && SameClass(x, id, existing)
    ensures MergePair(w, existing, id, x.streams[id], x.newHash(id)) == Some(w')
    ensures State(x, done + {id}, todo - {id}, w') && OneLess(w, w')
  {
    KeptAsAtTheStart(x, done, todo, w, existing, id);
    PrefersTotal(x, existing, id);
    if Prefers(x, existing, id) {
      MergeKeeps(x, done, todo, w, id, existing, existing, id);
      MergeIsOneLess(w, existing, id, x.newHash(id));
      w' := MergedWork(w, existing, id, x.newHash(id));
    } else {
      MergeKeeps(x, done, todo, w, id, existing, id, existing);
      MergeIsOneLess(w, id, existing, x.newHash(id));
      w' := MergedWork(w, id, existing, x.newHash(id));
    }
  }

  /** The first row of its class meets one still to come that has the class's hash already. */
  lemma ClashingRow(x: Input, done: set<nat>, todo: set<nat>, w: Work, id: nat, other: nat) returns (w': Work)
    requires State(x, done, todo, w) && id in todo && other in todo && id != other
    requires SameClass(x, id, other) && x.streams[other].hash == Some(x.newHash(id))
    requires forall t :: t in done ==> !SameClass(x, id, t)
    ensures MergePair(w, other, id, x.streams[id], x.newHash(id)) == Some(w')
    ensures State(x, done + {other} + {id}, todo - {other} - {id}, w') && OneLess(w, w')
  {
    var w1 := FreshRow(x, done, todo, w, other);
    assert w1.streams == w.streams;
    var w2 := JoiningRow(x, done + {other}, todo - {other}, w1, id, other);
    w' := w2.(processed := w.processed + 1);
    SameState(x, done + {other} + {id}, todo - {other} - {id}, w2, w');
    MarkedPair(w, w1, other, id, x.streams[id], x.newHash(id));
  }

  /** The counts are no part of it. */
  lemma SameState(x: Input, done: set<nat>, todo: set<nat>, a: Work, b: Work)
    requires State(x, done, todo, a) && b == a.(processed := b.processed, merged := b.merged)
    ensures State(x, done, todo, b)
  {
    assert forall h :: h in b.hashKeys ==> (KeyFine(x, done, a, h, a.hashKeys[h]) <==> KeyFine(x, done, b, h, b.hashKeys[h]));
  }

  /** Which row the key pointed at makes no difference to a merge. */
  lemma MarkedPair(w: Work, w1: Work, a: nat, b: nat, rowB: Stream, h: Hash)
    requires a in w.streams && w1 == w.(hashKeys := w.hashKeys[h := a], processed := w1.processed)
    ensures var r, r1 := MergePair(w, a, b, rowB, h), MergePair(w1, a, b, rowB, h);
            if r1.None? then r.None? else r == Some(r1.value.(processed := w.processed + 1))
  {
    assert w.hashKeys[h := a][h := b] == w.hashKeys[h := b];
    assert w.hashKeys[h := a][h := a] == w.hashKeys[h := a];
  }

  // ----- a row that was dealt with before its turn

  function ClassOf(x: Input, id: nat): set<nat> {
    set t | t in x.streams && SameClass(x, id, t)
  }

  /** Left in its class, it is merged with itself, and nothing of the class is left. */
  lemma LostLinks(x: Input, done: set<nat>, todo: set<nat>, w: Work, id: nat)
    requires State(x, done, todo, w) && id in done && id in w.streams
    ensures var left := done - ClassOf(x, id);
            LinksFine(x, left, todo, w.streams - {id}, Merged(w.links, id, id))
  {
    var left, links, streams := done - ClassOf(x, id), Merged(w.links, id, id), w.streams - {id};
    forall c: nat, s: nat ensures Get(links, c, s) == if s == id then None else Get(w.links, c, s) {
      MergedLinks(w.links, id, id, c, s);
    }
    forall p | p in links ensures p.1 in streams {
      assert p == (p.0, p.1) && Get(links, p.0, p.1).Some?;
      assert Get(w.links, p.0, p.1).Some?;
    }
    forall c: nat, s | s in streams && s in left ensures IsClassOrder(x, left, c, s, Get(links, c, s)) {
      assert IsClassOrder(x, done, c, s, Get(w.links, c, s));
      assert forall t :: LinkedBy(x, left, c, s, t) <==> LinkedBy(x, done, c, s, t);
    }
  }

  lemma LostRows(x: Input, done: set<nat>, todo: set<nat>, w: Work, id: nat)
    requires State(x, done, todo, w) && id in done && id in w.streams
    ensures RowsFine(x, done - ClassOf(x, id), todo, w.streams - {id})
  {
    var left := done - ClassOf(x, id);
    forall t: nat ensures t in w.streams - {id} <==> t in todo || IsBest(x, left, t) {
      if IsBest(x, done, t) && t != id {
        if SameClass(x, t, id) {
          OneBest(x, done, t, id);
        }
        assert IsBest(x, left, t);
      }
      if IsBest(x, left, t) {
        assert forall u :: u in done && SameClass(x, t, u) ==> u in left;
        assert IsBest(x, done, t);
      }
    }
  }

  lemma LostRow(x: Input, done: set<nat>, todo: set<nat>, w: Work, id: nat, row: Stream) returns (w': Work)
    requires State(x, done, todo, w) && id in done && id in w.streams && row.hash == Some(x.newHash(id))
    ensures MergePair(w, id, id, row, x.newHash(id)) == Some(w')
    ensures State(x, done - ClassOf(x, id), todo, w') && OneLess(w, w')
  {
    var h, left := x.newHash(id), done - ClassOf(x, id);
    w' := Merge(w, id, row, id, h).value;
    LostRows(x, done, todo, w, id);
    LostLinks(x, done, todo, w, id);
    assert w'.streams.Keys == w.streams.Keys - {id};
    assert |w'.streams| == |w'.streams.Keys| && |w.streams| == |w.streams.Keys|;
    forall k | k in w'.hashKeys ensures KeyFine(x, left, w', k, w'.hashKeys[k]) {
      if k != h {
        assert KeyFine(x, done, w, k, w.hashKeys[k]);
      }
    }
  }

  /** Gone already, it is merged away once more, which changes nothing but the counts. */
  lemma StaleRow(x: Input, done: set<nat>, todo: set<nat>, w: Work, id: nat, existing: nat) returns (w': Work)
    requires State(x, done, todo, w) && id in done && id !in w.streams
    requires existing in w.streams && existing in done && SameClass(x, id, existing) && w.hashKeys[x.newHash(id)] == existing
    requires x.newHash(id) in w.hashKeys
    ensures MergePair(w, existing, id, x.streams[id], x.newHash(id)) == Some(w')
    ensures State(x, done, todo, w') && w'.streams == w.streams
    ensures w'.processed == w.processed + 1 && w'.merged == w.merged + 1
  {
    var h := x.newHash(id);
    StaleIsNotPreferred(x, done, todo, w, id, existing);
    w' := Merge(w, existing, w.streams[existing], id, h).value;
    assert w'.streams == w.streams;
    NoLinksToMove(w.links, id, existing);
    assert w'.hashKeys == w.hashKeys;
    forall k | k in w'.hashKeys ensures KeyFine(x, done, w', k, w'.hashKeys[k]) {
      assert KeyFine(x, done, w, k, w.hashKeys[k]);
    }
  }

  lemma StaleIsNotPreferred(x: Input, done: set<nat>, todo: set<nat>, w: Work, id: nat, existing: nat)
    requires State(x, done, todo, w) && id in done && id !in w.streams
    requires existing in w.streams && existing in done && SameClass(x, id, existing)
    ensures Preferred(w.links, existing, w.streams[existing], id, x.streams[id])
  {
    BestOrderKept(x, done, todo, w, existing);
    assert Orders(w.links, id) == {};
    assert BestOrder(w.links, id).None?;
    assert Prefers(x, existing, id);
  }

  lemma NoLinksToMove(links: Links, source: nat, target: nat)
    requires forall p :: p in links ==> p.1 != source
    ensures Merged(links, source, target) == links
  {
    forall p: (nat, nat) ensures p in Merged(links, source, target) <==> p in links {
      MergedLinks(links, source, target, p.0, p.1);
      assert p == (p.0, p.1);
    }
    forall p | p in links ensures Merged(links, source, target)[p] == links[p] {
      MergedLinks(links, source, target, p.0, p.1);
      assert p == (p.0, p.1);
    }
  }
}
