/**
 The shared cache of one settings group (`_get_group`, `invalidate_group_cache`): any number of
 read-through fills interleaved with any number of saves. Every access to the cache or the
 database is one step, and every step on the cache may find the backend unreachable (`down`).

 A settings value is represented by the number of the save that wrote it, 0 for what was there
 first; version values are the times of the bumps, so they are always fresh.
 */
module SettingsCache {
  import opened ByteStrings

  /** A cached value; which fill put it there, when it loaded, last read the version, and stored. */
  datatype Entry = Entry(value: nat, filler: nat, loadedAt: nat, checkedAt: nat, setAt: nat)

  datatype Fill =
    | Missed
    | Versioned(before: Option<nat>)
    | Loaded(before: Option<nat>, value: nat, loadedAt: nat)
    | Checked(value: nat, loadedAt: nat, checkedAt: nat)
    | Bypass                            // a read failed: use the database and store nothing
    | Returned(value: nat, hit: Option<Entry>)   // from the cache, if there was a hit

  /** A committed save; when its delete and its bump reached the cache, and how far it has come. */
  datatype Save = Save(next: SaveStep, deletedAt: Option<nat>, bumpedAt: Option<nat>)

  datatype SaveStep = ToDelete | ToBump | Done

  /** `saves[k - 1]` is save number `k`; `erred` is the fills that met an error on a read. */
  datatype State = State(
    now: nat, entry: Option<Entry>, ver: Option<nat>, saves: seq<Save>, fills: map<nat, Fill>, erred: set<nat>)

  datatype Event =
    | ReadEntry(fill: nat, down: bool)
    | ReadVersion(fill: nat, down: bool)
    | Load(fill: nat)
    | CheckVersion(fill: nat, down: bool)
    | Store(fill: nat, down: bool)
    | Commit
    | Delete(save: nat, down: bool)
    | Bump(save: nat, down: bool)
    | Expire

  const INIT := State(1, None, None, [], map[], {})

  predicate Can(s: State, e: Event) {
    match e
    case ReadEntry(f, _) => f !in s.fills
    case ReadVersion(f, _) => f in s.fills && s.fills[f].Missed?
    case Load(f) => f in s.fills && (s.fills[f].Versioned? || s.fills[f].Bypass?)
    case CheckVersion(f, _) => f in s.fills && s.fills[f].Loaded?
    case Store(f, _) => f in s.fills && s.fills[f].Checked?
    case Commit => true
    case Delete(k, _) => 0 < k <= |s.saves| && s.saves[k - 1].next == ToDelete
    case Bump(k, _) => 0 < k <= |s.saves| && s.saves[k - 1].next == ToBump
    case Expire => true
  }

  function Step(s: State, e: Event): State
    requires Can(s, e)
  {
    var t := s.(now := s.now + 1);
    match e
    case ReadEntry(f, down) =>
      if down then t.(fills := s.fills[f := Bypass], erred := s.erred + {f})
      else if s.entry.Some? then t.(fills := s.fills[f := Returned(s.entry.value.value, s.entry)])
      else t.(fills := s.fills[f := Missed])
    case ReadVersion(f, down) =>
      if down then t.(fills := s.fills[f := Bypass], erred := s.erred + {f})
      else t.(fills := s.fills[f := Versioned(s.ver)])
    case Load(f) =>
      if s.fills[f].Bypass? then t.(fills := s.fills[f := Returned(|s.saves|, None)])
      else t.(fills := s.fills[f := Loaded(s.fills[f].before, |s.saves|, s.now)])
    case CheckVersion(f, down) =>
      if down then t.(fills := s.fills[f := Returned(s.fills[f].value, None)], erred := s.erred + {f})
      else if s.ver != s.fills[f].before then t.(fills := s.fills[f := Returned(s.fills[f].value, None)])
      else t.(fills := s.fills[f := Checked(s.fills[f].value, s.fills[f].loadedAt, s.now)])
    case Store(f, down) =>
      var u := t.(fills := s.fills[f := Returned(s.fills[f].value, None)]);
      if down then u else u.(entry := Some(Entry(s.fills[f].value, f, s.fills[f].loadedAt, s.fills[f].checkedAt, s.now)))
    case Commit => t.(saves := s.saves + [Save(ToDelete, None, None)])
    case Delete(k, down) =>
      var save := s.saves[k - 1].(next := ToBump);
      if down then t.(saves := s.saves[k - 1 := save])
      else t.(saves := s.saves[k - 1 := save.(deletedAt := Some(s.now))], entry := None)
    case Bump(k, down) =>
      var save := s.saves[k - 1].(next := Done);
      if down then t.(saves := s.saves[k - 1 := save])
      else t.(saves := s.saves[k - 1 := save.(bumpedAt := Some(s.now))], ver := Some(s.now))
    case Expire => t.(entry := None)
  }

  predicate CanRun(s: State, es: seq<Event>)
    decreases |es|
  {
    es == [] || (Can(s, es[0]) && CanRun(Step(s, es[0]), es[1..]))
  }

  function Run(s: State, es: seq<Event>): State
    requires CanRun(s, es)
    decreases |es|
  {
    if es == [] then s else Run(Step(s, es[0]), es[1..])
  }

  /** Save `k`'s bump reached the cache before time `at`. */
  predicate BumpedBefore(s: State, k: nat, at: nat) {
    0 < k <= |s.saves| && s.saves[k - 1].bumpedAt.Some? && s.saves[k - 1].bumpedAt.value < at
  }

  /** What was loaded as `value` at `loaded` came after every bump before `at`: no such save is newer. */
  ghost predicate AsNewAs(s: State, value: nat, loaded: nat, at: nat) {
    forall k :: BumpedBefore(s, k, at) ==> value >= k && s.saves[k - 1].bumpedAt.value < loaded
  }

  ghost predicate FillFine(s: State, f: nat)
    requires f in s.fills
  {
    match s.fills[f]
    case Versioned(before) => f !in s.erred && Past(s, before)
    case Loaded(before, value, loaded) =>
      f !in s.erred && Past(s, before) && loaded < s.now && (before.Some? ==> AsNewAs(s, value, loaded, before.value + 1))
    case Checked(value, loaded, at) => f !in s.erred && loaded <= at < s.now && AsNewAs(s, value, loaded, at)
    case Missed => f !in s.erred
    case Bypass => true
    case Returned(_, _) => true
  }

  predicate Past(s: State, time: Option<nat>) {
    time.Some? ==> time.value < s.now
  }

  ghost predicate Inv(s: State) {
    && s.erred <= s.fills.Keys
    && (forall f :: f in s.fills ==> FillFine(s, f))
    && (forall save :: save in s.saves ==> SaveFine(s, save))
    && Past(s, s.ver)
    && (s.entry.Some? ==> EntryFine(s, s.entry.value))
  }

  /** The version is the latest bump there was. */
  ghost predicate SaveFine(s: State, save: Save) {
    && Past(s, save.deletedAt)
    && (save.bumpedAt.Some? ==> s.ver.Some? && save.bumpedAt.value <= s.ver.value < s.now)
    && (save.next == ToDelete ==> save.deletedAt.None?)
    && (save.next != Done ==> save.bumpedAt.None?)
  }

  ghost predicate EntryFine(s: State, e: Entry) {
    && e.filler !in s.erred && e.filler in s.fills && s.fills[e.filler].Returned?
    && e.checkedAt <= e.setAt < s.now
    && AsNewAs(s, e.value, e.loadedAt, e.checkedAt)
    && (forall save :: save in s.saves && save.deletedAt.Some? ==> save.deletedAt.value < e.setAt)
  }

  /** Bumps only ever come later, so what was as new as all of them stays so. */
  lemma StillAsNew(s: State, e: Event, value: nat, loaded: nat, at: nat)
    requires Can(s, e) && at <= s.now && AsNewAs(s, value, loaded, at)
    ensures AsNewAs(Step(s, e), value, loaded, at)
  {
    var t := Step(s, e);
    forall k | BumpedBefore(t, k, at) ensures value >= k && t.saves[k - 1].bumpedAt.value < loaded {
      assert BumpedBefore(s, k, at);
    }
  }

  /** The fill whose step it is. */
  predicate Steps(e: Event, f: nat) {
    (e.ReadEntry? || e.ReadVersion? || e.Load? || e.CheckVersion? || e.Store?) && e.fill == f
  }

  lemma OwnFillFine(s: State, e: Event, f: nat)
    requires Inv(s) && Can(s, e) && Steps(e, f)
    ensures f in Step(s, e).fills && FillFine(Step(s, e), f)
  {
    var t := Step(s, e);
    if e.Load? {
      assert forall k :: BumpedBefore(t, k, s.now) ==> |s.saves| >= k;
    }
    if e.CheckVersion? && t.fills[f].Checked? {
      var value, loaded := s.fills[f].value, s.fills[f].loadedAt;
      assert FillFine(s, f);
      forall k | BumpedBefore(t, k, s.now) ensures value >= k && t.saves[k - 1].bumpedAt.value < loaded {
        assert SaveFine(s, s.saves[k - 1]);
        assert BumpedBefore(s, k, s.ver.value + 1);
      }
    }
  }

  lemma OtherFillFine(s: State, e: Event, f: nat)
    requires Inv(s) && Can(s, e) && !Steps(e, f) && f in s.fills
    ensures f in Step(s, e).fills && FillFine(Step(s, e), f)
  {
    var fill := s.fills[f];
    assert FillFine(s, f) && Step(s, e).fills[f] == fill;
    if fill.Loaded? && fill.before.Some? {
      StillAsNew(s, e, fill.value, fill.loadedAt, fill.before.value + 1);
    }
    if fill.Checked? {
      StillAsNew(s, e, fill.value, fill.loadedAt, fill.checkedAt);
    }
  }

  lemma FillsStayFine(s: State, e: Event, f: nat)
    requires Inv(s) && Can(s, e) && f in Step(s, e).fills
    ensures FillFine(Step(s, e), f)
  {
    if Steps(e, f) {
      OwnFillFine(s, e, f);
    } else {
      OtherFillFine(s, e, f);
    }
  }

  lemma EntryStaysFine(s: State, e: Event)
    requires Inv(s) && Can(s, e) && Step(s, e).entry.Some?
    ensures EntryFine(Step(s, e), Step(s, e).entry.value)
  {
    var t := Step(s, e);
    if e.Store? && !e.down {
      var f := e.fill;
      assert FillFine(s, f);
      StillAsNew(s, e, s.fills[f].value, s.fills[f].loadedAt, s.fills[f].checkedAt);
      assert forall save :: save in s.saves ==> SaveFine(s, save);
    } else {
      StillAsNew(s, e, s.entry.value.value, s.entry.value.loadedAt, s.entry.value.checkedAt);
      assert !e.Delete? || e.down;
      forall save | save in t.saves && save.deletedAt.Some?
        ensures save.deletedAt.value < s.entry.value.setAt
      {
        SavesOnlyMove(s, e, save);
      }
    }
  }

  /** A save after a step is a save from before it, moved on, or a new one. */
  lemma SavesOnlyMove(s: State, e: Event, save: Save)
    requires Can(s, e) && save in Step(s, e).saves
    ensures save == Save(ToDelete, None, None)
         || exists was :: was in s.saves
              && (save.deletedAt == was.deletedAt || (e.Delete? && !e.down && save.deletedAt == Some(s.now)))
              && (save.bumpedAt == was.bumpedAt || (e.Bump? && !e.down && save.bumpedAt == Some(s.now)))
              && (save.next == was.next || (was.next == ToDelete && save.next == ToBump) || (was.next == ToBump && save.next == Done))
  {
    var t := Step(s, e);
    var i :| 0 <= i < |t.saves| && t.saves[i] == save;
    if i < |s.saves| {
      assert s.saves[i] in s.saves;
    }
  }

  lemma SavesStayFine(s: State, e: Event, save: Save)
    requires Inv(s) && Can(s, e) && save in Step(s, e).saves
    ensures SaveFine(Step(s, e), save)
  {
    var t := Step(s, e);
    assert t.ver == s.ver || t.ver == Some(s.now);
    var i :| 0 <= i < |t.saves| && t.saves[i] == save;
    if i < |s.saves| {
      assert SaveFine(s, s.saves[i]);
    }
  }

  lemma StepKeeps(s: State, e: Event)
    requires Inv(s) && Can(s, e)
    ensures Inv(Step(s, e))
  {
    var t := Step(s, e);
    forall f | f in t.fills ensures FillFine(t, f) {
      FillsStayFine(s, e, f);
    }
    if t.entry.Some? {
      EntryStaysFine(s, e);
    }
    forall save | save in t.saves ensures SaveFine(t, save) {
      SavesStayFine(s, e, save);
    }
  }

  lemma {:induction false} RunKeeps(s: State, es: seq<Event>)
    requires Inv(s) && CanRun(s, es)
    ensures Inv(Run(s, es))
    decreases |es|
  {
    if es != [] {
      StepKeeps(s, es[0]);
      RunKeeps(Step(s, es[0]), es[1..]);
    }
  }

  /**
   In every run: what is cached, or about to be, was loaded after the bump of every save whose bump
   came before the fill's second look at the version, so it is no older than that save; and it came
   from a fill none of whose reads failed.
   */
  lemma NoStaleFillAfterABump(es: seq<Event>)
    requires CanRun(INIT, es)
    ensures var s := Run(INIT, es);
            && (s.entry.Some? ==> AsNewAs(s, s.entry.value.value, s.entry.value.loadedAt, s.entry.value.checkedAt) && s.entry.value.filler !in s.erred)
            && (forall f :: f in s.fills && s.fills[f].Checked? ==> AsNewAs(s, s.fills[f].value, s.fills[f].loadedAt, s.fills[f].checkedAt) && f !in s.erred)
  {
    RunKeeps(INIT, es);
    var s := Run(INIT, es);
    forall f | f in s.fills && s.fills[f].Checked?
      ensures AsNewAs(s, s.fills[f].value, s.fills[f].loadedAt, s.fills[f].checkedAt) && f !in s.erred
    {
      assert FillFine(s, f);
    }
  }

  /**
   A cached value older than save `k`, both of whose cache writes got through, can only have come
   from a fill that last read the version before the bump and stored after the delete.
   */
  lemma StaleOnlyThroughTheWindow(es: seq<Event>, k: nat)
    requires CanRun(INIT, es)
    requires var s := Run(INIT, es);
             && 0 < k <= |s.saves| && s.saves[k - 1].deletedAt.Some? && s.saves[k - 1].bumpedAt.Some?
             && s.entry.Some? && s.entry.value.value < k
    ensures var s := Run(INIT, es);
            && s.entry.value.checkedAt <= s.saves[k - 1].bumpedAt.value
            && s.saves[k - 1].deletedAt.value < s.entry.value.setAt
  {
    RunKeeps(INIT, es);
    var s := Run(INIT, es);
    if s.saves[k - 1].bumpedAt.value < s.entry.value.checkedAt {
      assert BumpedBefore(s, k, s.entry.value.checkedAt);
    }
  }

  /** Both cache writes of save `k` got through. */
  predicate Reached(s: State, k: nat) {
    0 < k <= |s.saves| && s.saves[k - 1].next.Done? && s.saves[k - 1].deletedAt.Some? && s.saves[k - 1].bumpedAt.Some?
  }

  /** The entry came through the window of the save: last checked before its bump, stored after its delete. */
  predicate ThroughTheWindow(e: Entry, save: Save)
    requires save.deletedAt.Some? && save.bumpedAt.Some?
  {
    e.checkedAt <= save.bumpedAt.value && save.deletedAt.value < e.setAt
  }

  /** What a fill has in hand is as new as save `k`, or was cached through that save's window. */
  ghost predicate ReadFine(s: State, f: nat, k: nat)
    requires Reached(s, k)
  {
    f in s.fills ==>
      match s.fills[f]
      case Loaded(_, value, _) => value >= k
      case Checked(value, _, _) => value >= k
      case Returned(value, hit) =>
        value >= k || (hit.Some? && hit.value.value == value && ThroughTheWindow(hit.value, s.saves[k - 1]))
      case _ => true
  }

  lemma ReadStep(s: State, e: Event, f: nat, k: nat)
    requires Inv(s) && Can(s, e) && Reached(s, k) && ReadFine(s, f, k)
    ensures var t := Step(s, e); Reached(t, k) && t.saves[k - 1] == s.saves[k - 1] && ReadFine(t, f, k)
  {
    if e.ReadEntry? && e.fill == f && !e.down && s.entry.Some? {
      assert EntryFine(s, s.entry.value);
      assert s.saves[k - 1] in s.saves;
      if s.entry.value.value < k {
        assert !BumpedBefore(s, k, s.entry.value.checkedAt);
      }
    }
  }

  lemma {:induction false} ReadStaysFine(s: State, es: seq<Event>, f: nat, k: nat)
    requires Inv(s) && CanRun(s, es) && Reached(s, k) && ReadFine(s, f, k)
    ensures var t := Run(s, es); Reached(t, k) && t.saves[k - 1] == s.saves[k - 1] && ReadFine(t, f, k)
    decreases |es|
  {
    if es != [] {
      ReadStep(s, es[0], f, k);
      StepKeeps(s, es[0]);
      ReadStaysFine(Step(s, es[0]), es[1..], f, k);
    }
  }

  /**
   A read of the settings group begun once both cache writes of save `k` have got through, whatever
   happens meanwhile, returns a value as new as `k`, or one that was cached through its window.
   */
  lemma ReadsAreFresh(es: seq<Event>, rest: seq<Event>, f: nat, k: nat)
    requires CanRun(INIT, es) && CanRun(Run(INIT, es), rest)
    requires Reached(Run(INIT, es), k) && f !in Run(INIT, es).fills
    ensures var s, t := Run(INIT, es), Run(Run(INIT, es), rest);
            f in t.fills && t.fills[f].Returned? ==>
              var Returned(value, hit) := t.fills[f];
              value >= k || (hit.Some? && hit.value.value == value && ThroughTheWindow(hit.value, s.saves[k - 1]))
  {
    RunKeeps(INIT, es);
    ReadStaysFine(Run(INIT, es), rest, f, k);
  }

  // ----- what does get stored

  /** Some bump among these reached the cache. */
  predicate Bumps(es: seq<Event>) {
    exists i :: 0 <= i < |es| && es[i].Bump? && !es[i].down
  }

  lemma BumpsFirst(es: seq<Event>)
    requires es != []
    ensures Bumps(es) <==> (es[0].Bump? && !es[0].down) || Bumps(es[1..])
  {
    if i :| 0 <= i < |es| && es[i].Bump? && !es[i].down {
      assert i == 0 || es[1..][i - 1] == es[i];
    }
    if i :| 0 <= i < |es| - 1 && es[1..][i].Bump? && !es[1..][i].down {
      assert es[1..][i] == es[i + 1];
    }
  }

  /** Versions never come back: the version is what it was exactly if no bump came. */
  lemma {:induction false} SameVersionIff(s: State, es: seq<Event>)
    requires Inv(s) && CanRun(s, es)
    ensures var t := Run(s, es);
            && t.now >= s.now
            && (!Bumps(es) ==> t.ver == s.ver)
            && (Bumps(es) ==> t.ver.Some? && t.ver.value >= s.now)
    decreases |es|
  {
    if es != [] {
      var e, rest := es[0], es[1..];
      StepKeeps(s, e);
      SameVersionIff(Step(s, e), rest);
      BumpsFirst(es);
    }
  }

  /** The fill has looked at the version, which was this one. */
  predicate Looked(s: State, f: nat, v: Option<nat>) {
    && f in s.fills && !s.fills[f].Missed?
    && (s.fills[f].Versioned? || s.fills[f].Loaded? ==> s.fills[f].before == v)
  }

  lemma {:induction false} LookedStays(s: State, es: seq<Event>, f: nat, v: Option<nat>)
    requires CanRun(s, es) && Looked(s, f, v)
    ensures Looked(Run(s, es), f, v)
    decreases |es|
  {
    if es != [] {
      LookedStays(Step(s, es[0]), es[1..], f, v);
    }
  }

  /**
   What a fill has loaded goes on to be stored if and only if no bump reached the cache since it read
   the version. (`es` is the run up to that, `rest` what happens up to its second look.)
   */
  lemma StoredIffNoBump(es: seq<Event>, rest: seq<Event>, f: nat)
    requires CanRun(INIT, es) && Can(Run(INIT, es), ReadVersion(f, false))
    requires var s := Step(Run(INIT, es), ReadVersion(f, false));
             CanRun(s, rest) && Can(Run(s, rest), CheckVersion(f, false))
    ensures var t := Run(Step(Run(INIT, es), ReadVersion(f, false)), rest);
            Step(t, CheckVersion(f, false)).fills[f].Checked? <==> !Bumps(rest)
  {
    RunKeeps(INIT, es);
    var s := Step(Run(INIT, es), ReadVersion(f, false));
    StepKeeps(Run(INIT, es), ReadVersion(f, false));
    LookedStays(s, rest, f, s.ver);
    SameVersionIff(s, rest);
  }

  function WholeFill(f: nat): seq<Event> {
    [ReadEntry(f, false), ReadVersion(f, false), Load(f), CheckVersion(f, false), Store(f, false)]
  }

  /** A fill that nothing comes between leaves the newest value in the cache, and returns it; the next read gets it from there. */
  lemma AFillFills(s: State, f: nat, g: nat)
    requires f !in s.fills && g !in s.fills && f != g && s.entry.None?
    ensures CanRun(s, WholeFill(f))
    ensures var t := Run(s, WholeFill(f));
            && t.entry.Some? && t.entry.value.value == |s.saves|
            && f in t.fills && t.fills[f] == Returned(|s.saves|, None)
            && Can(t, ReadEntry(g, false)) && Step(t, ReadEntry(g, false)).fills[g] == Returned(|s.saves|, t.entry)
  {
    var s1 := Step(s, ReadEntry(f, false));
    var s2 := Step(s1, ReadVersion(f, false));
    var s3 := Step(s2, Load(f));
    var s4 := Step(s3, CheckVersion(f, false));
    var s5 := Step(s4, Store(f, false));
    var es := Before(s4, Store(f, false), s5, [], s5);
    es := Before(s3, CheckVersion(f, false), s4, es, s5);
    es := Before(s2, Load(f), s3, es, s5);
    es := Before(s1, ReadVersion(f, false), s2, es, s5);
    es := Before(s, ReadEntry(f, false), s1, es, s5);
    assert es == WholeFill(f);
  }

  /** Nothing older than save `k` is cached, and no fill that passed its check could still put it there. */
  ghost predicate Quiet(s: State, k: nat) {
    && BumpedBefore(s, k, s.now)
    && (s.entry.Some? ==> s.entry.value.value >= k)
    && (forall f :: f in s.fills && s.fills[f].Checked? ==> s.fills[f].value >= k)
  }

  lemma BumpedStays(s: State, e: Event, k: nat, at: nat)
    requires Can(s, e) && Inv(s) && BumpedBefore(s, k, at)
    ensures BumpedBefore(Step(s, e), k, at)
  {
    assert SaveFine(s, s.saves[k - 1]);
  }

  lemma QuietStays(s: State, e: Event, k: nat)
    requires Inv(s) && Can(s, e) && Quiet(s, k)
    ensures Quiet(Step(s, e), k)
  {
    var t := Step(s, e);
    BumpedStays(s, e, k, s.now);
    forall f | f in t.fills && t.fills[f].Checked? ensures t.fills[f].value >= k {
      if !(f in s.fills && s.fills[f].Checked?) {
        FillsStayFine(s, e, f);
        assert BumpedBefore(t, k, t.fills[f].checkedAt);
      }
    }
  }

  /** Once that is so, it is so for good. */
  lemma {:induction false} FreshForever(s: State, es: seq<Event>, k: nat)
    requires Inv(s) && CanRun(s, es) && Quiet(s, k)
    ensures Quiet(Run(s, es), k)
    decreases |es|
  {
    if es != [] {
      StepKeeps(s, es[0]);
      QuietStays(s, es[0], k);
      FreshForever(Step(s, es[0]), es[1..], k);
    }
  }

  /** The window is real: a run that leaves the old value cached after a save that did everything. */
  lemma TheWindowIsOpen() returns (es: seq<Event>)
    ensures CanRun(INIT, es)
    ensures var s := Run(INIT, es);
            && s.saves == [Save(Done, Some(6), Some(7))]
            && s.entry == Some(Entry(0, 0, 3, 4, 8))
  {
    var s4 := State(5, None, None, [], map[0 := Checked(0, 3, 4)], {});
    es := ThenTheSave(s4);
    var s8 := Run(s4, es);
    var s1 := State(2, None, None, [], map[0 := Missed], {});
    var s2 := State(3, None, None, [], map[0 := Versioned(None)], {});
    var s3 := State(4, None, None, [], map[0 := Loaded(None, 0, 3)], {});
    es := Before(s3, CheckVersion(0, false), s4, es, s8);
    es := Before(s2, Load(0), s3, es, s8);
    es := Before(s1, ReadVersion(0, false), s2, es, s8);
    es := Before(INIT, ReadEntry(0, false), s1, es, s8);
  }

  lemma ThenTheSave(s4: State) returns (es: seq<Event>)
    requires s4 == State(5, None, None, [], map[0 := Checked(0, 3, 4)], {})
    ensures CanRun(s4, es)
    ensures Run(s4, es) == State(9, Some(Entry(0, 0, 3, 4, 8)), Some(7), [Save(Done, Some(6), Some(7))], map[0 := Returned(0, None)], {})
  {
    var s5 := s4.(now := 6, saves := [Save(ToDelete, None, None)]);
    var s6 := s5.(now := 7, saves := [Save(ToBump, Some(6), None)]);
    var s7 := s6.(now := 8, saves := [Save(Done, Some(6), Some(7))], ver := Some(7));
    var s8 := s7.(now := 9, entry := Some(Entry(0, 0, 3, 4, 8)), fills := map[0 := Returned(0, None)]);
    es := [];
    es := Before(s7, Store(0, false), s8, es, s8);
    es := Before(s6, Bump(1, false), s7, es, s8);
    es := Before(s5, Delete(1, false), s6, es, s8);
    es := Before(s4, Commit, s5, es, s8);
  }

  /** One more event in front of a run. */
  lemma Before(s: State, e: Event, t: State, es: seq<Event>, end: State) returns (r: seq<Event>)
    requires Can(s, e) && Step(s, e) == t && CanRun(t, es) && Run(t, es) == end
    ensures r == [e] + es && CanRun(s, r) && Run(s, r) == end
  {
    r := [e] + es;
    assert r[1..] == es;
  }
}
