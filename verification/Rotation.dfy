/**
 The log directory of one collector: the live file and its numbered archives, and the
 rename loop that rotates them (`_maybe_rotate`, `_prune`, the clamps of `read_conf`).

 A live file that does not exist is the empty one: both have size 0 and are opened O_CREAT.
 */
module Rotation {
  import opened ByteStrings

  type Archives = map<nat, Bytes>

  const MAX_LOG_KEEP: int := 50
  const MAX_LOG_MB: int := 20
  const DEFAULT_LOG_MB: int := 5
  const DEFAULT_LOG_KEEP: int := 5

  /** A numeric setting as `read_conf` reads it; None is text that is no number. */
  function Clamped(value: Option<int>, lo: int, cap: int, default: int): (r: int)
    requires lo <= default <= cap
    ensures lo <= r <= cap
    ensures value.Some? && lo <= value.value <= cap ==> r == value.value
    ensures value.Some? && value.value < lo ==> r == lo
    ensures value.Some? && value.value > cap ==> r == cap
    ensures value.None? ==> r == default
  {
    if value.None? then default
    else if (if value.value < lo then lo else value.value) > cap then cap
    else if value.value < lo then lo else value.value
  }

  /** The settings as they stand in the conf file. */
  datatype Conf = Conf(maxMb: Option<int>, keep: Option<int>)

  function Keep(conf: Conf): nat { Clamped(conf.keep, 2, MAX_LOG_KEEP, DEFAULT_LOG_KEEP) }

  function MaxBytes(conf: Conf): nat { Clamped(conf.maxMb, 1, MAX_LOG_MB, DEFAULT_LOG_MB) * 1024 * 1024 }

  /** The limits a conf comes to: from 1 to 20 MiB, 5 by default, and from 2 to 50 files, 5 by default. */
  lemma LimitsAre(conf: Conf)
    ensures match conf.maxMb
            case None => MaxBytes(conf) == 5 * 1048576
            case Some(n) => MaxBytes(conf) == (if n < 1 then 1 else if n > 20 then 20 else n) * 1048576
    ensures match conf.keep
            case None => Keep(conf) == 5
            case Some(n) => Keep(conf) == if n < 2 then 2 else if n > 50 then 50 else n
  {
  }

  /**
   The archives once the rename loop has dealt with every index from `from` up: those one
   higher, unless that would reach `keep`, the rest untouched.
   */
  function Shifted(a: Archives, from: nat, keep: nat): Archives {
    map i: nat | i in Places(a.Keys) && Filled(a, from, keep, i) :: if i < from then a[i] else a[i - 1]
  }

  predicate Filled(a: Archives, from: nat, keep: nat, i: nat) {
    if i < from then i in a else from < i < keep && i - 1 in a
  }

  /** Every index that exists, and the one above it. */
  function Places(indices: set<nat>): (r: set<nat>)
    ensures forall i :: i in indices ==> i in r && i + 1 in r
  {
    indices + (set i | i in indices :: i + 1)
  }

  /** What a rotation got to before it ended: a stop after the indices from `from` up, or the end. */
  datatype Progress = StoppedAt(from: nat) | Complete

  function Rotated(live: Bytes, a: Archives, keep: nat, p: Progress): (r: (Bytes, Archives)) {
    match p
    case StoppedAt(from) => (live, Shifted(a, from, keep))
    case Complete => ([], Shifted(a, 0, keep)[1 := live])
  }

  /** What the loop body does with one archive: `os.remove`, or `os.replace` with the name above. */
  function Bumped(a: Archives, n: nat, keep: nat): Archives
    requires n in a
  {
    if n + 1 >= keep then a - {n} else (a - {n})[n + 1 := a[n]]
  }

  /** Shifting one more index is what the loop body does with the highest index left. */
  lemma ShiftOne(a: Archives, n: nat, above: nat, keep: nat)
    requires n in a && n < above
    requires forall i :: i in a ==> i <= n || i >= above
    ensures n in Shifted(a, above, keep)
    ensures Shifted(a, n, keep) == Bumped(Shifted(a, above, keep), n, keep)
  {
    var before, after := Shifted(a, above, keep), Shifted(a, n, keep);
    assert n in before && before[n] == a[n];
    if n + 1 < keep {
      assert n + 1 in after;
    }
  }

  lemma NothingShifted(a: Archives, from: nat, keep: nat)
    requires forall i :: i in a ==> i < from
    ensures Shifted(a, from, keep) == a
  {
  }

  /** Below the lowest index there is nothing left to move. */
  lemma AllShifted(a: Archives, above: nat, keep: nat)
    requires forall i :: i in a ==> i >= above
    ensures Shifted(a, above, keep) == Shifted(a, 0, keep)
  {
    var x, y := Shifted(a, above, keep), Shifted(a, 0, keep);
    forall i | i in y ensures i in x && x[i] == y[i] {
      assert i - 1 in a;
    }
  }

  class LogDir {
    var live: Bytes
    var archives: Archives

    constructor ()
      ensures live == [] && archives == map[]
    {
      live, archives := [], map[];
    }

    /** The loop over the archives, from the highest index down. */
    method ShiftArchives(keep: nat, failAt: nat) returns (ops: nat, stopped: bool, ghost from: nat)
      modifies this`archives
      ensures archives == Shifted(old(archives), if stopped then from else 0, keep)
      ensures if stopped then ops == failAt < old(|archives|) else ops == old(|archives|)
    {
      ghost var a := archives;
      from := if a != map[] then Highest(a.Keys) + 1 else 0;
      NothingShifted(a, from, keep);
      var indices := archives.Keys;
      ops := 0;
      while indices != {}
        invariant forall i :: i in indices <==> i in a && i < from
        invariant archives == Shifted(a, from, keep)
        invariant ops + |indices| == |a|
        decreases indices
      {
        var n := Highest(indices);
        if ops == failAt {
          return ops, true, from;
        }
        ShiftOne(a, n, from, keep);
        archives := Bumped(archives, n, keep);
        indices := indices - {n};
        from := n;
        ops := ops + 1;
      }
      AllShifted(a, from, keep);
      stopped := false;
    }

    /**
     `_maybe_rotate`: `failAt` is the number of file operations that succeed before one
     raises OSError, which ends the rotation where it stands.
     */
    method MaybeRotate(conf: Conf, failAt: nat) returns (ghost p: Option<Progress>)
      modifies this
      ensures p.None? <==> old(|live|) <= MaxBytes(conf)
      ensures p.None? ==> live == old(live) && archives == old(archives)
      ensures p.Some? ==> (live, archives) == Rotated(old(live), old(archives), Keep(conf), p.value)
      ensures p.Some? && failAt > old(|archives|) ==> p.value == Complete
    {
      if |live| <= MaxBytes(conf) {
        return None;
      }
      var ops, stopped, from := ShiftArchives(Keep(conf), failAt);
      if stopped {
        return Some(StoppedAt(from));
      }
      if ops == failAt {
        return Some(StoppedAt(0));
      }
      archives := archives[1 := live];
      live := [];
      return Some(Complete);
    }

    /** `_prune`, over the indices in listing order; `failAt` as above. */
    method Prune(conf: Conf, failAt: nat)
      modifies this`archives
      ensures archives.Keys <= old(archives.Keys)
      ensures forall i :: i in archives ==> archives[i] == old(archives)[i]
      ensures forall i :: i in old(archives) && i < Keep(conf) ==> i in archives
      ensures failAt >= old(|archives|) ==> forall i :: i in archives ==> i < Keep(conf)
    {
      var indices, ops := archives.Keys, 0;
      while indices != {}
        invariant indices <= archives.Keys <= old(archives.Keys)
        invariant forall i :: i in archives ==> archives[i] == old(archives)[i]
        invariant forall i :: i in old(archives) && i < Keep(conf) ==> i in archives
        invariant forall i :: i in archives && i !in indices ==> i < Keep(conf)
        invariant ops + |indices| <= old(|archives|)
        decreases indices
      {
        var n :| n in indices;
        if n >= Keep(conf) {
          if ops == failAt {
            return;
          }
          archives := archives - {n};
          ops := ops + 1;
        }
        indices := indices - {n};
      }
    }
  }

  /** The first of `sorted(indices, reverse=True)`. */
  function Highest(s: set<nat>): (m: nat)
    requires s != {}
    ensures m in s && forall i :: i in s ==> i <= m
  {
    HighestExists(s);
    var m :| m in s && forall i :: i in s ==> i <= m;
    m
  }

  lemma {:induction false} HighestExists(s: set<nat>)
    requires s != {}
    ensures exists m :: m in s && forall i :: i in s ==> i <= m
  {
    var x :| x in s;
    if s != {x} {
      HighestExists(s - {x});
      var m :| m in s - {x} && forall i :: i in s - {x} ==> i <= m;
      var top := if m < x then x else m;
      assert top in s && forall i :: i in s ==> i <= top by {
        forall i | i in s ensures i <= top {
          assert i == x || i in s - {x};
        }
      }
    }
  }

  // ----- what a rotation keeps

  /** The file `f` is still there: in the live file or in some archive. */
  ghost predicate Holds(live: Bytes, a: Archives, f: Bytes) {
    live == f || exists i :: i in a && a[i] == f
  }

  /** Archive `i` is where it was or one place up. */
  predicate Survives(a: Archives, after: Archives, i: nat)
    requires i in a
  {
    (i in after && after[i] == a[i]) || (i + 1 in after && after[i + 1] == a[i])
  }

  /** Archive `i` was there before, or one place down. */
  predicate CameFrom(a: Archives, after: Archives, i: nat)
    requires i in after
  {
    (i in a && after[i] == a[i]) || (i > 0 && i - 1 in a && after[i] == a[i - 1])
  }

  lemma ShiftedAt(a: Archives, keep: nat, i: nat)
    requires i > 0
    ensures var s := Shifted(a, 0, keep); (i in s <==> i < keep && i - 1 in a) && (i in s ==> s[i] == a[i - 1])
  {
    if i - 1 in a {
      assert i - 1 in a.Keys && i == (i - 1) + 1 && i in Places(a.Keys);
    }
  }

  lemma ArchiveSurvives(live: Bytes, a: Archives, keep: nat, p: Progress, i: nat)
    requires i in a && i + 1 < keep && (i > 0 || p != Complete)
    ensures Survives(a, Rotated(live, a, keep, p).1, i)
  {
    if p.Complete? {
      ShiftedAt(a, keep, i + 1);
    } else {
      var k := if i < p.from then i else i + 1;
      assert k in Places(a.Keys) && Filled(a, p.from, keep, k);
    }
  }

  lemma ArchiveCameFrom(live: Bytes, a: Archives, keep: nat, p: Progress, i: nat)
    requires i in Rotated(live, a, keep, p).1 && (i != 1 || p != Complete)
    ensures CameFrom(a, Rotated(live, a, keep, p).1, i)
  {
    var from := if p.Complete? then 0 else p.from;
    assert i in Shifted(a, from, keep);
    assert Filled(a, from, keep, i);
  }

  /**
   Wherever it stops, a rotation moves an archive up by at most one place, keeps the live
   file live or makes it archive 1, and drops only archives from `keep - 1` up (and, where
   there is one, archive 0, onto whose new place it moves the live file in the end).
   */
  lemma RotationKeeps(live: Bytes, a: Archives, conf: Conf, p: Progress)
    ensures var (live', a') := Rotated(live, a, Keep(conf), p);
            && (forall i :: i in a && i + 1 < Keep(conf) && (i > 0 || p != Complete) ==> Survives(a, a', i))
            && ((live' == live && p != Complete) || (live' == [] && 1 in a' && a'[1] == live))
            && (forall i :: i in a' && (i != 1 || p != Complete) ==> CameFrom(a, a', i))
  {
    var a' := Rotated(live, a, Keep(conf), p).1;
    forall i | i in a && i + 1 < Keep(conf) && (i > 0 || p != Complete) ensures Survives(a, a', i) {
      ArchiveSurvives(live, a, Keep(conf), p, i);
    }
    forall i | i in a' && (i != 1 || p != Complete) ensures CameFrom(a, a', i) {
      ArchiveCameFrom(live, a, Keep(conf), p, i);
    }
  }

  /** A rotation that runs to the end: every place filled from the one below, and at most `keep` files. */
  lemma FullRotation(live: Bytes, a: Archives, conf: Conf)
    ensures var keep := Keep(conf);
            var (live', a') := Rotated(live, a, keep, Complete);
            && live' == [] && 1 in a' && a'[1] == live
            && (forall i :: i > 1 ==> (i in a' <==> i < keep && i - 1 in a))
            && (forall i :: i > 1 && i in a' ==> a'[i] == a[i - 1])
            && 1 + |a'| <= keep
  {
    var keep := Keep(conf);
    var a' := Rotated(live, a, keep, Complete).1;
    forall i | i > 1 ensures (i in a' <==> i < keep && i - 1 in a) && (i in a' ==> a'[i] == a[i - 1]) {
      ShiftedAt(a, keep, i);
    }
    BoundedKeys(a'.Keys, keep);
  }

  lemma {:induction false} BoundedKeys(s: set<nat>, keep: nat)
    requires keep >= 1 && forall i :: i in s ==> 1 <= i < keep
    ensures |s| <= keep - 1
    decreases keep
  {
    if keep == 1 {
      assert s == {};
    } else {
      BoundedKeys(s - {keep - 1}, keep - 1);
    }
  }

  /**
   The names `dispatcharr.log.0` would also be taken for an archive, and the last rename
   lands on what it was moved to: with it, and only with it, a full rotation can lose a
   file below `keep - 1`.
   */
  lemma ArchiveZeroIsOverwritten(live: Bytes, a: Archives, conf: Conf)
    requires forall i, j :: i in a && j in a && i != j ==> a[i] != a[j]
    requires forall i :: i in a ==> a[i] != live && a[i] != []
    ensures var keep := Keep(conf);
            var (live', a') := Rotated(live, a, keep, Complete);
            (forall i :: i in a && i + 1 < keep ==> Holds(live', a', a[i])) <==> 0 !in a
  {
    var keep := Keep(conf);
    var (live', a') := Rotated(live, a, keep, Complete);
    if 0 in a {
      forall i | i in a' ensures a'[i] != a[0] {
        if i != 1 {
          assert i - 1 in a;
        }
      }
      assert !Holds(live', a', a[0]);
    } else {
      RotationKeeps(live, a, conf, Complete);
      forall i | i in a && i + 1 < keep ensures Holds(live', a', a[i]) {
        assert Survives(a, a', i);
      }
    }
  }
}
