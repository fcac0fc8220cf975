/**
 The turns of the rows, in id order, and what each of them makes of the state.

 A row that is stored under its class's new hash already, and is not the first of its class, is met
 ahead of its turn: the first row of the class finds it by its hash. From then on it counts as dealt
 with. When its turn comes it has either lost to another row and is gone, or it is the row left of
 the class; then it is merged with itself, and the class so far is lost.
 */
module RehashTurns {
  import opened ByteStrings
  import opened Rehash
  import opened RehashState

  /** Ids are positive and links refer to streams there are. */
  predicate Sound(x: Input) {
    0 !in x.streams && forall p :: p in x.links ==> p.1 in x.streams
  }

  /** The unique constraint on stored hashes. */
  predicate UniqueHashes(x: Input) {
    forall i, j :: i in x.streams && j in x.streams && i != j && x.streams[i].hash.Some? ==> x.streams[i].hash != x.streams[j].hash
  }

  /** No row's stored hash is the new hash of an earlier row of another class. */
  predicate OwnClassOnly(x: Input) {
    forall i, j :: i in x.streams && j in x.streams && i < j && x.streams[j].hash == Some(x.newHash(i)) ==> SameClass(x, i, j)
  }

  ghost predicate Ready(x: Input) {
    Sound(x) && UniqueHashes(x) && OwnClassOnly(x)
  }

  predicate Earlier(x: Input, i: nat, j: nat) {
    i in x.streams && i < j && SameClass(x, i, j)
  }

  /** Row `j` is met ahead of its turn. */
  ghost predicate Jumps(x: Input, j: nat) {
    && j in x.streams && x.streams[j].hash == Some(x.newHash(j))
    && exists i :: Earlier(x, i, j)
  }

  function SeenSet(x: Input, last: nat): set<nat> {
    set t | t in x.streams && t <= last
  }

  /** The class is lost when the turn of `j` comes: `j` was met ahead of it, and is the best of its class up to there. */
  ghost predicate Lost(x: Input, j: nat) {
    Jumps(x, j) && IsBest(x, SeenSet(x, j), j)
  }

  predicate SeenOf(x: Input, last: nat, i: nat, t: nat) {
    i in x.streams && i <= last && SameClass(x, i, t)
  }

  ghost predicate ClassSeen(x: Input, last: nat, t: nat) {
    exists i :: SeenOf(x, last, i, t)
  }

  ghost predicate LosesAt(x: Input, last: nat, t: nat, j: nat) {
    j in x.streams && j <= last && t <= j && SameClass(x, t, j) && Lost(x, j)
  }

  /** Up to `last`: the rows whose turn has come or that were met ahead of it, less those lost. */
  ghost predicate IsDone(x: Input, last: nat, t: nat) {
    && t in x.streams
    && (t <= last || (Jumps(x, t) && ClassSeen(x, last, t)))
    && !exists j :: LosesAt(x, last, t, j)
  }

  ghost function Done(x: Input, last: nat): set<nat> {
    set t | t in x.streams && IsDone(x, last, t)
  }

  ghost function Todo(x: Input, last: nat): set<nat> {
    set t | t in x.streams && t > last && !IsDone(x, last, t)
  }

  /** The rows met ahead of their turn that were gone when it came. */
  ghost function Displaced(x: Input, last: nat): set<nat> {
    set j | j in SeenSet(x, last) && Jumps(x, j) && !Lost(x, j)
  }

  ghost predicate HashSeen(x: Input, last: nat, h: Hash) {
    exists t :: t in SeenSet(x, last) && x.newHash(t) == h
  }

  /** The keys are the hashes seen, and the counts account for every row. */
  ghost predicate BooksFine(x: Input, last: nat, w: Work) {
    && (forall t :: t in SeenSet(x, last) ==> x.newHash(t) in w.hashKeys)
    && (forall h :: h in w.hashKeys ==> HashSeen(x, last, h))
    && |w.streams| + w.merged + |SeenSet(x, last)| == |x.streams| + w.processed + |Displaced(x, last)|
    && w.processed <= |SeenSet(x, last)| <= w.processed + |Displaced(x, last)|
  }

  /** The state once every row up to `last` has had its turn. */
  ghost predicate Upto(x: Input, last: nat, w: Work) {
    State(x, Done(x, last), Todo(x, last), w) && BooksFine(x, last, w)
  }

  /** `id` is the next row after `last`. */
  predicate IsNext(x: Input, last: nat, id: nat) {
    id in x.streams && id > last && forall t :: t in x.streams && t > last ==> t >= id
  }

  // ----- how the sets move on

  lemma SeenNext(x: Input, last: nat, id: nat)
    requires IsNext(x, last, id)
    ensures SeenSet(x, id) == SeenSet(x, last) + {id} && |SeenSet(x, id)| == |SeenSet(x, last)| + 1
  {
    assert SeenSet(x, id) == SeenSet(x, last) + {id};
  }

  lemma DisplacedNext(x: Input, last: nat, id: nat)
    requires IsNext(x, last, id)
    ensures |Displaced(x, id)| == |Displaced(x, last)| + if Jumps(x, id) && !Lost(x, id) then 1 else 0
  {
    SeenNext(x, last, id);
    if Jumps(x, id) && !Lost(x, id) {
      assert Displaced(x, id) == Displaced(x, last) + {id};
    } else {
      assert Displaced(x, id) == Displaced(x, last);
    }
  }

  lemma OneJumps(x: Input, j: nat, k: nat)
    requires UniqueHashes(x) && Jumps(x, j) && Jumps(x, k) && SameClass(x, j, k)
    ensures j == k
  {
  }

  /** A row dealt with ahead of its turn: its class so far is the rows up to it. */
  lemma AheadClass(x: Input, last: nat, id: nat)
    requires UniqueHashes(x) && IsNext(x, last, id) && id in Done(x, last)
    ensures Jumps(x, id)
    ensures forall t: nat :: SameClass(x, t, id) ==> (t in Done(x, last) <==> t in SeenSet(x, id))
    ensures Lost(x, id) <==> IsBest(x, Done(x, last), id)
  {
    forall t: nat | SameClass(x, t, id) ensures t in Done(x, last) <==> t in SeenSet(x, id) {
      if t in Done(x, last) && t > last {
        OneJumps(x, t, id);
      }
      if t in SeenSet(x, id) && t != id {
        forall j ensures !LosesAt(x, last, t, j) {
          if LosesAt(x, last, t, j) {
            OneJumps(x, j, id);
          }
        }
      }
    }
  }

  lemma LostIsDone(x: Input, last: nat, id: nat)
    requires UniqueHashes(x) && IsNext(x, last, id) && Jumps(x, id)
    ensures id in Done(x, last)
  {
    var i :| Earlier(x, i, id);
    assert SeenOf(x, last, i, id);
  }

  lemma AfterLost(x: Input, last: nat, id: nat)
    requires UniqueHashes(x) && IsNext(x, last, id) && Lost(x, id)
    ensures Done(x, id) == Done(x, last) - ClassOf(x, id) && Todo(x, id) == Todo(x, last)
  {
    LostIsDone(x, last, id);
    forall t | t in x.streams
      ensures IsDone(x, id, t) <==> IsDone(x, last, t) && !SameClass(x, id, t)
      ensures t > id && SameClass(x, id, t) ==> !IsDone(x, last, t)
    {
      if SameClass(x, id, t) {
        if t <= id {
          assert LosesAt(x, id, t, id);
        } else if Jumps(x, t) {
          OneJumps(x, t, id);
        }
      } else {
        OtherClassDone(x, last, id, t);
      }
    }
  }

  /** A turn changes nothing for another class. */
  lemma OtherClassDone(x: Input, last: nat, id: nat, t: nat)
    requires IsNext(x, last, id) && t in x.streams && !SameClass(x, id, t)
    ensures IsDone(x, id, t) <==> IsDone(x, last, t)
  {
    assert forall i :: SeenOf(x, id, i, t) <==> SeenOf(x, last, i, t);
    assert forall j :: LosesAt(x, id, t, j) <==> LosesAt(x, last, t, j);
  }

  /** Nor does the turn of a row that does not jump, for those of its class that had been dealt with. */
  lemma SameClassDone(x: Input, last: nat, id: nat, t: nat)
    requires IsNext(x, last, id) && t in x.streams && SameClass(x, id, t) && !Lost(x, id) && t != id
    ensures IsDone(x, id, t) <==> IsDone(x, last, t) || (t > id && Jumps(x, t))
  {
    assert SeenOf(x, id, id, t);
    forall j ensures LosesAt(x, id, t, j) <==> LosesAt(x, last, t, j) {
    }
    if t > id {
      assert forall j :: !LosesAt(x, id, t, j);
    }
  }

  lemma SelfDone(x: Input, last: nat, id: nat)
    requires IsNext(x, last, id) && !Lost(x, id)
    ensures IsDone(x, id, id)
  {
    assert forall j :: !LosesAt(x, id, id, j);
  }

  lemma AfterStale(x: Input, last: nat, id: nat)
    requires UniqueHashes(x) && IsNext(x, last, id) && id in Done(x, last) && !Lost(x, id)
    ensures Done(x, id) == Done(x, last) && Todo(x, id) == Todo(x, last)
  {
    AheadClass(x, last, id);
    SelfDone(x, last, id);
    forall t | t in x.streams ensures IsDone(x, id, t) <==> IsDone(x, last, t) {
      if !SameClass(x, id, t) {
        OtherClassDone(x, last, id, t);
      } else if t != id {
        SameClassDone(x, last, id, t);
        if t > id && Jumps(x, t) {
          OneJumps(x, t, id);
        }
      }
    }
  }

  /** A row whose turn it is, and that draws no other one ahead. */
  lemma AfterNew(x: Input, last: nat, id: nat)
    requires UniqueHashes(x) && IsNext(x, last, id) && id !in Done(x, last)
    requires forall j: nat :: Jumps(x, j) && SameClass(x, id, j) && j > id ==> ClassSeen(x, last, id)
    ensures Done(x, id) == Done(x, last) + {id} && Todo(x, id) == Todo(x, last) - {id} && id in Todo(x, last)
    ensures !Jumps(x, id)
  {
    if Jumps(x, id) {
      LostIsDone(x, last, id);
    }
    SelfDone(x, last, id);
    forall t | t in x.streams && t != id ensures IsDone(x, id, t) <==> IsDone(x, last, t) {
      if !SameClass(x, id, t) {
        OtherClassDone(x, last, id, t);
      } else {
        SameClassDone(x, last, id, t);
        if t > id && Jumps(x, t) {
          StillAhead(x, last, id, t);
        }
      }
    }
  }

  /** One whose class has been seen has been drawn ahead already. */
  lemma StillAhead(x: Input, last: nat, id: nat, t: nat)
    requires IsNext(x, last, id) && SameClass(x, id, t) && t > id && Jumps(x, t) && ClassSeen(x, last, id)
    ensures IsDone(x, last, t)
  {
    var i :| SeenOf(x, last, i, id);
    assert SeenOf(x, last, i, t);
    assert forall j :: !LosesAt(x, last, t, j);
  }

  /** The first row of its class draws the one that jumps. */
  lemma AfterClash(x: Input, last: nat, id: nat, other: nat)
    requires UniqueHashes(x) && IsNext(x, last, id) && !ClassSeen(x, last, id)
    requires Jumps(x, other) && SameClass(x, id, other) && other > id
    ensures Done(x, id) == Done(x, last) + {other} + {id} && Todo(x, id) == Todo(x, last) - {other} - {id}
    ensures id in Todo(x, last) && other in Todo(x, last) && !Jumps(x, id)
    ensures forall t :: t in Done(x, last) ==> !SameClass(x, id, t)
  {
    if exists i :: Earlier(x, i, id) {
      var i :| Earlier(x, i, id);
      assert SeenOf(x, last, i, id);
    }
    NoneDone(x, last, id);
    SelfDone(x, last, id);
    forall t | t in x.streams && t != id ensures IsDone(x, id, t) <==> IsDone(x, last, t) || t == other {
      if !SameClass(x, id, t) {
        OtherClassDone(x, last, id, t);
      } else {
        SameClassDone(x, last, id, t);
        if t > id && Jumps(x, t) {
          OneJumps(x, t, other);
        }
      }
    }
  }

  lemma NoneDone(x: Input, last: nat, id: nat)
    requires !ClassSeen(x, last, id)
    ensures forall t :: t in Done(x, last) ==> !SameClass(x, id, t)
  {
    forall t | t in Done(x, last) ensures !SameClass(x, id, t) {
      if SameClass(x, id, t) {
        if t <= last {
          assert SeenOf(x, last, t, id);
        } else {
          var i :| SeenOf(x, last, i, t);
          assert SeenOf(x, last, i, id);
        }
      }
    }
  }

  // ----- one turn

  /** A turn that is counted: rows gone and merges keep in step. */
  lemma BooksNext(x: Input, last: nat, w: Work, id: nat, w': Work)
    requires BooksFine(x, last, w) && IsNext(x, last, id)
    requires w'.hashKeys.Keys == w.hashKeys.Keys + {x.newHash(id)}
    requires w'.processed == w.processed + 1 || (w'.processed == w.processed && Jumps(x, id) && !Lost(x, id))
    requires |w'.streams| + w'.merged + 1 + w.processed
          == |w.streams| + w.merged + w'.processed + if Jumps(x, id) && !Lost(x, id) then 1 else 0
    ensures BooksFine(x, id, w')
  {
    SeenNext(x, last, id);
    DisplacedNext(x, last, id);
    forall h | h in w'.hashKeys ensures HashSeen(x, id, h) {
      if h in w.hashKeys {
        assert HashSeen(x, last, h);
        var t :| t in SeenSet(x, last) && x.newHash(t) == h;
        assert t in SeenSet(x, id);
      } else {
        assert id in SeenSet(x, id);
      }
    }
  }

  lemma ClassHasKey(x: Input, last: nat, w: Work, id: nat)
    requires BooksFine(x, last, w)
    ensures ClassSeen(x, last, id) <==> x.newHash(id) in w.hashKeys
  {
    if ClassSeen(x, last, id) {
      var i :| SeenOf(x, last, i, id);
      assert i in SeenSet(x, last);
    }
    if x.newHash(id) in w.hashKeys {
      assert HashSeen(x, last, x.newHash(id));
      var t :| t in SeenSet(x, last) && x.newHash(t) == x.newHash(id);
      assert SeenOf(x, last, t, id);
    }
  }

  /** The row a key points at, where the class has one left. */
  lemma KeyOf(x: Input, done: set<nat>, w: Work, t: nat) returns (s: nat)
    requires KeysFine(x, done, w) && t in done
    ensures x.newHash(t) in w.hashKeys && s == w.hashKeys[x.newHash(t)]
    ensures s in done && s in w.streams && s !in w.deleted && SameClass(x, s, t)
  {
    s := w.hashKeys[x.newHash(t)];
    assert KeyFine(x, done, w, x.newHash(t), s);
  }

  /** The work after a turn, and what the turn is counted as. */
  ghost predicate TurnDone(x: Input, last: nat, id: nat, w: Work, w': Work) {
    && State(x, Done(x, id), Todo(x, id), w')
    && w'.hashKeys.Keys == w.hashKeys.Keys + {x.newHash(id)} && w'.streams.Keys <= w.streams.Keys
    && w'.processed == w.processed + 1
    && |w'.streams| + w'.merged + 1 + w.processed
       == |w.streams| + w.merged + w'.processed + if Jumps(x, id) && !Lost(x, id) then 1 else 0
  }

  /** A row met ahead that is still there when its turn comes is what its class's key points at: it is lost. */
  lemma LeftIsLost(x: Input, last: nat, w: Work, id: nat)
    requires UniqueHashes(x) && IsNext(x, last, id) && id in Done(x, last) && id in w.streams
    requires State(x, Done(x, last), Todo(x, last), w)
    ensures Lost(x, id)
    ensures x.newHash(id) in w.hashKeys && w.hashKeys[x.newHash(id)] == id && id !in w.deleted
  {
    AheadClass(x, last, id);
    var existing := KeyOf(x, Done(x, last), w, id);
    OneBest(x, Done(x, last), existing, id);
  }

  /** One that is gone by then is not lost, and its class has another row. */
  lemma GoneIsStale(x: Input, last: nat, w: Work, id: nat) returns (existing: nat)
    requires UniqueHashes(x) && IsNext(x, last, id) && id !in w.streams
    requires State(x, Done(x, last), Todo(x, last), w)
    ensures id in Done(x, last) && Jumps(x, id) && !Lost(x, id)
    ensures x.newHash(id) in w.hashKeys && existing == w.hashKeys[x.newHash(id)]
    ensures existing in Done(x, last) && existing in w.streams && existing !in w.deleted && SameClass(x, existing, id)
  {
    assert id in Done(x, last);
    AheadClass(x, last, id);
    existing := KeyOf(x, Done(x, last), w, id);
  }

  lemma LostTurn(x: Input, last: nat, w: Work, id: nat)
    requires UniqueHashes(x) && IsNext(x, last, id) && id in Done(x, last) && id in w.streams && Lost(x, id)
    requires State(x, Done(x, last), Todo(x, last), w) && x.newHash(id) in w.hashKeys
    ensures var r := MergePair(w, id, id, x.streams[id], x.newHash(id));
            r.Some? && TurnDone(x, last, id, w, r.value)
  {
    AfterLost(x, last, id);
    var w' := LostRow(x, Done(x, last), Todo(x, last), w, id, x.streams[id]);
    KeysAfter(w, id, id, x.streams[id], x.newHash(id));
  }

  lemma StaleTurn(x: Input, last: nat, w: Work, id: nat, existing: nat)
    requires UniqueHashes(x) && IsNext(x, last, id) && id !in w.streams && id in Done(x, last) && Jumps(x, id) && !Lost(x, id)
    requires State(x, Done(x, last), Todo(x, last), w)
    requires x.newHash(id) in w.hashKeys && existing == w.hashKeys[x.newHash(id)]
    requires existing in Done(x, last) && existing in w.streams && SameClass(x, existing, id)
    ensures var r := MergePair(w, existing, id, x.streams[id], x.newHash(id));
            r.Some? && TurnDone(x, last, id, w, r.value)
  {
    AfterStale(x, last, id);
    var w' := StaleRow(x, Done(x, last), Todo(x, last), w, id, existing);
    KeysAfter(w, existing, id, x.streams[id], x.newHash(id));
  }

  /** A row that is gone before its batch is fetched has no turn at all. */
  lemma SkippedTurn(x: Input, last: nat, w: Work, id: nat)
    requires UniqueHashes(x) && Upto(x, last, w) && IsNext(x, last, id) && id !in w.streams
    ensures Upto(x, id, w)
  {
    var _ := GoneIsStale(x, last, w, id);
    AfterStale(x, last, id);
    BooksNext(x, last, w, id, w);
  }

  /** A row with the hash of a class not seen yet is one of that class, met ahead. */
  lemma ClashJumps(x: Input, last: nat, w: Work, id: nat, other: nat)
    requires OwnClassOnly(x) && IsNext(x, last, id) && id !in Done(x, last)
    requires State(x, Done(x, last), Todo(x, last), w)
    requires x.newHash(id) !in w.hashKeys && Clashes(w.streams, id, x.newHash(id), other)
    ensures other > id && SameClass(x, id, other) && Jumps(x, other)
  {
    assert other in Done(x, last) ==> x.newHash(other) in w.hashKeys;
    assert other in Todo(x, last);
    assert SameClass(x, id, other);
    assert Earlier(x, id, other);
  }

  lemma ClashTurn(x: Input, last: nat, w: Work, id: nat, other: nat, r: Option<Work>)
    requires UniqueHashes(x) && IsNext(x, last, id) && !ClassSeen(x, last, id)
    requires State(x, Done(x, last), Todo(x, last), w)
    requires Jumps(x, other) && SameClass(x, id, other) && other > id
    requires other in w.streams && r == MergePair(w, other, id, x.streams[id], x.newHash(id))
    ensures r.Some? && TurnDone(x, last, id, w, r.value)
  {
    AfterClash(x, last, id, other);
    var w' := ClashingRow(x, Done(x, last), Todo(x, last), w, id, other);
    KeysAfter(w, other, id, x.streams[id], x.newHash(id));
  }

  lemma KeysAfter(w: Work, a: nat, b: nat, rowB: Stream, h: Hash)
    requires a in w.streams
    ensures var r := MergePair(w, a, b, rowB, h); r.Some? ==> r.value.hashKeys.Keys == w.hashKeys.Keys + {h}
  {
  }

  lemma JoiningTurn(x: Input, last: nat, w: Work, id: nat, existing: nat)
    requires UniqueHashes(x) && IsNext(x, last, id) && id !in Done(x, last) && ClassSeen(x, last, id)
    requires State(x, Done(x, last), Todo(x, last), w)
    requires existing in w.streams && existing in Done(x, last) && SameClass(x, id, existing)
    ensures var r := MergePair(w, existing, id, x.streams[id], x.newHash(id));
            r.Some? && TurnDone(x, last, id, w, r.value)
  {
    AfterNew(x, last, id);
    var w' := JoiningRow(x, Done(x, last), Todo(x, last), w, id, existing);
    KeysAfter(w, existing, id, x.streams[id], x.newHash(id));
  }

  lemma FreshTurn(x: Input, last: nat, w: Work, id: nat)
    requires UniqueHashes(x) && IsNext(x, last, id) && id !in Done(x, last)
    requires State(x, Done(x, last), Todo(x, last), w)
    requires forall t :: t in Done(x, last) ==> !SameClass(x, id, t)
    requires forall j: nat :: Jumps(x, j) && SameClass(x, id, j) && j > id ==> ClassSeen(x, last, id)
    ensures var r := SetHash(w, id, x.newHash(id));
            r.Some? && TurnDone(x, last, id, w, r.value)
  {
    AfterNew(x, last, id);
    var w' := FreshRow(x, Done(x, last), Todo(x, last), w, id);
    assert w'.streams.Keys == w.streams.Keys;
    assert |w'.streams| == |w'.streams.Keys| && |w.streams| == |w.streams.Keys|;
  }

  /** No clash, no row of the class to come that jumps. */
  lemma NoClashNoJump(x: Input, last: nat, w: Work, id: nat)
    requires IsNext(x, last, id) && !ClassSeen(x, last, id)
    requires State(x, Done(x, last), Todo(x, last), w)
    requires forall other :: !Clashes(w.streams, id, x.newHash(id), other)
    ensures forall j: nat :: Jumps(x, j) && SameClass(x, id, j) ==> j <= id
  {
    NoneDone(x, last, id);
    forall j: nat | Jumps(x, j) && SameClass(x, id, j) ensures j <= id {
      if j > id {
        assert j in Todo(x, last);
        assert Clashes(w.streams, id, x.newHash(id), j);
      }
    }
  }

  /** A row whose turn has come in the normal way. */
  lemma NewTurn(x: Input, last: nat, w: Work, id: nat, r: Option<Work>)
    requires Ready(x) && Upto(x, last, w) && IsNext(x, last, id) && id !in Done(x, last)
    requires RowDone(w, id, x.streams[id], x.newHash(id), r)
    ensures r.Some? && TurnDone(x, last, id, w, r.value)
  {
    var h := x.newHash(id);
    ClassHasKey(x, last, w, id);
    if h in w.hashKeys {
      var existing := w.hashKeys[h];
      assert KeyFine(x, Done(x, last), w, h, existing);
      if existing in w.deleted {
        FreshTurn(x, last, w, id);
      } else {
        JoiningTurn(x, last, w, id, existing);
      }
    } else if exists other :: Clashes(w.streams, id, h, other) {
      var other :| Clashes(w.streams, id, h, other) && r == MergePair(w, other, id, x.streams[id], h);
      ClashJumps(x, last, w, id, other);
      ClashTurn(x, last, w, id, other, r);
    } else {
      NoneDone(x, last, id);
      NoClashNoJump(x, last, w, id);
      FreshTurn(x, last, w, id);
    }
  }

  /** Whatever row has its turn: it raises nothing, and the state moves on. */
  lemma TurnKeeps(x: Input, last: nat, w: Work, id: nat, r: Option<Work>)
    requires Ready(x) && Upto(x, last, w) && IsNext(x, last, id)
    requires RowDone(w, id, x.streams[id], x.newHash(id), r)
    ensures r.Some? && Upto(x, id, r.value) && r.value.streams.Keys <= w.streams.Keys
  {
    if id !in w.streams {
      var existing := GoneIsStale(x, last, w, id);
      StaleTurn(x, last, w, id, existing);
    } else if id in Done(x, last) {
      LeftIsLost(x, last, w, id);
      LostTurn(x, last, w, id);
    } else {
      NewTurn(x, last, w, id, r);
    }
    BooksNext(x, last, w, id, r.value);
  }

  /** The two ways the turn of a row met ahead can go: its class is without a row exactly when it was the best so far. */
  lemma ClassLostIff(x: Input, j: nat, w: Work)
    requires Ready(x) && Upto(x, j, w) && Jumps(x, j)
    ensures (forall s: nat :: s in w.streams && s <= j ==> !SameClass(x, s, j)) <==> IsBest(x, SeenSet(x, j), j)
  {
    if Lost(x, j) {
      forall s: nat | s in w.streams && s <= j ensures !SameClass(x, s, j) {
        assert SameClass(x, s, j) ==> LosesAt(x, j, s, j);
      }
    } else {
      SelfIsDone(x, j);
      var s := KeyOf(x, Done(x, j), w, j);
      if s > j {
        OneJumps(x, s, j);
      }
    }
  }

  lemma SelfIsDone(x: Input, j: nat)
    requires j in x.streams && !Lost(x, j)
    ensures j in Done(x, j)
  {
    assert forall k :: !LosesAt(x, j, j, k);
  }
}
