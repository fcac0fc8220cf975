/**
 Periodic tasks and the schedule rows they refer to (core/scheduling.py). The interval and the
 crontab table are one map here, keyed by table and id.
 */
module Schedules {
  import opened ByteStrings

  datatype Ref = Interval(id: nat) | Crontab(id: nat)

  /** The contents of a schedule row; a cron line is its parts and the time zone it is read in. */
  datatype Schedule = EveryHours(hours: nat) | Cron(parts: seq<string>, zone: string)

  datatype Task = Task(path: string, interval: Option<nat>, crontab: Option<nat>, enabled: bool, kwargs: string)

  /** `made` is the rows these functions inserted. */
  datatype Tables = Tables(tasks: map<string, Task>, rows: map<Ref, Schedule>, made: set<Ref>)

  /** A call to `create_or_update_periodic_task`; `cron` is the expression split at blanks. */
  datatype Wish = Wish(name: string, path: string, kwargs: string, hours: int, cron: seq<string>, zone: string, enabled: bool)

  datatype Result = Done | InvalidCron | NoSuchTask

  predicate Uses(task: Task, ref: Ref) {
    match ref
    case Interval(id) => task.interval == Some(id)
    case Crontab(id) => task.crontab == Some(id)
  }

  predicate InUse(tasks: map<string, Task>, ref: Ref) {
    exists name :: name in tasks && Uses(tasks[name], ref)
  }

  predicate SameTable(ref: Ref, s: Schedule) {
    ref.Interval? <==> s.EveryHours?
  }

  /** The schedule a wish comes to. */
  function Wanted(w: Wish): Schedule {
    if w.cron != [] then Cron(w.cron, w.zone)
    else EveryHours(if w.hours > 1 then w.hours else 1)
  }

  function Valid(w: Wish): bool {
    w.cron == [] || |w.cron| == 5
  }

  function TaskFor(w: Wish, ref: Ref): Task {
    Task(w.path, if ref.Interval? then Some(ref.id) else None, if ref.Crontab? then Some(ref.id) else None,
         w.enabled && (w.cron != [] || w.hours > 0), w.kwargs)
  }

  predicate IsRow(rows: map<Ref, Schedule>, s: Schedule, ref: Ref) {
    ref in rows && rows[ref] == s && SameTable(ref, s)
  }

  /** `get_or_create`: the row there is, or a new one under an id the database picks. */
  ghost predicate GotOrMade(t: Tables, s: Schedule, ref: Ref, u: Tables) {
    if exists r :: IsRow(t.rows, s, r) then IsRow(t.rows, s, ref) && u == t
    else ref !in t.rows && SameTable(ref, s) && u == t.(rows := t.rows[ref := s], made := t.made + {ref})
  }

  /** The clean-up of one row: gone if no task refers to it; deleting a row would take its tasks along. */
  function Cleaned(t: Tables, ref: Ref): Tables {
    if InUse(t.tasks, ref) then t
    else t.(rows := t.rows - {ref}, tasks := map name | name in t.tasks && !Uses(t.tasks[name], ref) :: t.tasks[name])
  }

  function CleanedInterval(t: Tables, was: Task, now: Option<Ref>): Tables {
    if was.interval.Some? && now != Some(Interval(was.interval.value)) then Cleaned(t, Interval(was.interval.value)) else t
  }

  function CleanedCrontab(t: Tables, was: Task, now: Option<Ref>): Tables {
    if was.crontab.Some? && now != Some(Crontab(was.crontab.value)) then Cleaned(t, Crontab(was.crontab.value)) else t
  }

  /** A task's old schedules cleaned up, except the one it still has. */
  function CleanedAfter(t: Tables, was: Option<Task>, now: Option<Ref>): Tables {
    if was.None? then t
    else if now.Some? && now.value.Interval? then CleanedInterval(CleanedCrontab(t, was.value, now), was.value, now)
    else CleanedCrontab(CleanedInterval(t, was.value, now), was.value, now)
  }

  function Existing(t: Tables, name: string): Option<Task> {
    if name in t.tasks then Some(t.tasks[name]) else None
  }

  /** A valid wish carried out by way of this schedule row. */
  ghost predicate CreatedBy(t: Tables, w: Wish, u: Tables, ref: Ref, mid: Tables) {
    && GotOrMade(t, Wanted(w), ref, mid)
    && u == CleanedAfter(mid.(tasks := mid.tasks[w.name := TaskFor(w, ref)]), Existing(t, w.name), Some(ref))
  }

  ghost predicate Created(t: Tables, w: Wish, u: Tables) {
    exists ref, mid :: CreatedBy(t, w, u, ref, mid)
  }

  function Deleted(t: Tables, name: string): Tables {
    CleanedAfter(t.(tasks := t.tasks - {name}), Existing(t, name), None)
  }

  class Scheduler {
    var tasks: map<string, Task>
    var rows: map<Ref, Schedule>
    var made: set<Ref>  // for the statements only

    function View(): Tables
      reads this
    {
      Tables(tasks, rows, made)
    }

    constructor (tasks: map<string, Task>, rows: map<Ref, Schedule>)
      ensures View() == Tables(tasks, rows, {})
    {
      this.tasks, this.rows, this.made := tasks, rows, {};
    }

    method GetOrCreate(s: Schedule, freshId: nat) returns (ref: Ref)
      requires Interval(freshId) !in rows && Crontab(freshId) !in rows
      modifies this`rows, this`made
      ensures GotOrMade(old(View()), s, ref, View())
    {
      if exists r :: r in rows.Keys && IsRow(rows, s, r) {
        ref :| ref in rows.Keys && IsRow(rows, s, ref);
        return;
      }
      ref := if s.EveryHours? then Interval(freshId) else Crontab(freshId);
      rows := rows[ref := s];
      made := made + {ref};
    }

    method CleanupOrphaned(ref: Ref)
      modifies this`tasks, this`rows
      ensures View() == Cleaned(old(View()), ref)
    {
      if exists name :: name in tasks.Keys && Uses(tasks[name], ref) {
        return;
      }
      rows := rows - {ref};
      tasks := map name | name in tasks && !Uses(tasks[name], ref) :: tasks[name];
    }

    method CreateOrUpdatePeriodicTask(w: Wish, freshId: nat) returns (r: Result)
      requires Interval(freshId) !in rows && Crontab(freshId) !in rows
      modifies this
      ensures r == if w.cron != [] && |w.cron| != 5 then InvalidCron else Done
      ensures Valid(w) ==> Created(old(View()), w, View())
      ensures !Valid(w) ==> View() == old(View())
    {
      var was := Existing(View(), w.name);
      ghost var before := View();
      if w.cron != [] {
        if |w.cron| != 5 {
          return InvalidCron;
        }
        var crontab := GetOrCreate(Cron(w.cron, w.zone), freshId);
        ghost var mid := View();
        tasks := tasks[w.name := TaskFor(w, crontab)];
        if was.Some? && was.value.interval.Some? && crontab != Interval(was.value.interval.value) {
          CleanupOrphaned(Interval(was.value.interval.value));
        }
        if was.Some? && was.value.crontab.Some? && crontab != Crontab(was.value.crontab.value) {
          CleanupOrphaned(Crontab(was.value.crontab.value));
        }
        assert CreatedBy(before, w, View(), crontab, mid);
      } else {
        var interval := GetOrCreate(EveryHours(if w.hours > 1 then w.hours else 1), freshId);
        ghost var mid := View();
        tasks := tasks[w.name := TaskFor(w, interval)];
        if was.Some? && was.value.crontab.Some? && interval != Crontab(was.value.crontab.value) {
          CleanupOrphaned(Crontab(was.value.crontab.value));
        }
        if was.Some? && was.value.interval.Some? && interval != Interval(was.value.interval.value) {
          CleanupOrphaned(Interval(was.value.interval.value));
        }
        assert CreatedBy(before, w, View(), interval, mid);
      }
      return Done;
    }

    method DeletePeriodicTask(name: string) returns (r: Result)
      modifies this
      ensures r == if name in old(tasks) then Done else NoSuchTask
      ensures View() == if name in old(tasks) then Deleted(old(View()), name) else old(View())
    {
      if name !in tasks {
        return NoSuchTask;
      }
      var task := tasks[name];
      tasks := tasks - {name};
      if task.interval.Some? {
        CleanupOrphaned(Interval(task.interval.value));
      }
      if task.crontab.Some? {
        CleanupOrphaned(Crontab(task.crontab.value));
      }
      return Done;
    }
  }

  // ----- what every call keeps

  /** Each task has exactly one schedule, and its row is there. */
  predicate TaskFine(rows: map<Ref, Schedule>, task: Task) {
    && task.interval.Some? != task.crontab.Some?
    && (task.interval.Some? ==> Interval(task.interval.value) in rows)
    && (task.crontab.Some? ==> Crontab(task.crontab.value) in rows)
  }

  ghost predicate Good(t: Tables) {
    && (forall name :: name in t.tasks ==> TaskFine(t.rows, t.tasks[name]))
    && (forall a, b, s :: IsRow(t.rows, s, a) && IsRow(t.rows, s, b) ==> a == b)
    && (forall ref :: ref in t.made && ref in t.rows ==> InUse(t.tasks, ref))
  }

  /** The row a task refers to. */
  function RefOf(task: Task): Ref
    requires task.interval.Some? || task.crontab.Some?
  {
    if task.interval.Some? then Interval(task.interval.value) else Crontab(task.crontab.value)
  }

  /** A clean-up takes no task with it: the old row goes if it was the last task's, and is not the one now used. */
  lemma CleanedAfterOne(t: Tables, was: Option<Task>, now: Option<Ref>)
    requires was.Some? ==> was.value.interval.Some? != was.value.crontab.Some?
    ensures var u := CleanedAfter(t, was, now);
            && u.tasks == t.tasks && u.made == t.made
            && u.rows == if was.Some? && now != Some(RefOf(was.value)) && !InUse(t.tasks, RefOf(was.value))
                         then t.rows - {RefOf(was.value)} else t.rows
  {
  }

  /** The task a wish asks for: enabled only if it is to run at all, by a cron line or every so many hours. */
  predicate IsTaskFor(task: Task, w: Wish) {
    && task.path == w.path && task.kwargs == w.kwargs
    && (task.enabled <==> w.enabled && (w.cron != [] || w.hours > 0))
  }

  /** The schedule it asks for: the cron line before the hours, and never less than one hour. */
  predicate IsScheduleFor(s: Schedule, w: Wish) {
    if w.cron != [] then s == Cron(w.cron, w.zone)
    else s.EveryHours? && s.hours >= 1 && (w.hours >= 1 ==> s.hours == w.hours) && (w.hours < 1 ==> s.hours == 1)
  }

  /** What a valid wish does to well-formed tables. */
  lemma CreateDoes(t: Tables, w: Wish, u: Tables) returns (ref: Ref)
    requires Good(t) && Created(t, w, u)
    ensures Good(u)
    ensures w.name in u.tasks && u.tasks == t.tasks[w.name := u.tasks[w.name]]
    ensures Uses(u.tasks[w.name], ref) && IsTaskFor(u.tasks[w.name], w)
    ensures ref in u.rows && IsScheduleFor(u.rows[ref], w)
    ensures forall r :: r in u.rows && r != ref ==> r in t.rows && u.rows[r] == t.rows[r]
    ensures forall r :: r in t.rows && r !in u.rows <==>
              w.name in t.tasks && r == RefOf(t.tasks[w.name]) && !InUse(u.tasks, r)
  {
    var r, mid :| CreatedBy(t, w, u, r, mid);
    ref := r;
    assert TaskFine(mid.rows, TaskFor(w, ref));
    var was := Existing(t, w.name);
    CleanedAfterOne(mid.(tasks := mid.tasks[w.name := TaskFor(w, ref)]), was, Some(ref));
    assert InUse(u.tasks, ref) by {
      assert Uses(u.tasks[w.name], ref);
    }
    CreateKeepsGood(t, w, u, ref, mid);
  }

  lemma CreateKeepsGood(t: Tables, w: Wish, u: Tables, ref: Ref, mid: Tables)
    requires Good(t) && GotOrMade(t, Wanted(w), ref, mid)
    requires u.tasks == t.tasks[w.name := TaskFor(w, ref)] && u.made == mid.made
    requires var was := Existing(t, w.name);
             u.rows == if was.Some? && ref != RefOf(was.value) && !InUse(u.tasks, RefOf(was.value))
                       then mid.rows - {RefOf(was.value)} else mid.rows
    ensures Good(u)
  {
    var was := Existing(t, w.name);
    forall name | name in u.tasks ensures TaskFine(u.rows, u.tasks[name]) {
      if name != w.name {
        assert TaskFine(t.rows, t.tasks[name]);
        assert Uses(u.tasks[name], RefOf(u.tasks[name]));
      }
    }
    forall a, b, s | IsRow(u.rows, s, a) && IsRow(u.rows, s, b) ensures a == b {
      assert a != b ==> IsRow(t.rows, s, a) || IsRow(t.rows, s, b);
      if IsRow(t.rows, s, a) && IsRow(t.rows, s, b) {
      }
    }
    forall r | r in u.made && r in u.rows ensures InUse(u.tasks, r) {
      if r == ref {
        assert Uses(u.tasks[w.name], r);
      } else {
        assert InUse(t.tasks, r);
        var name :| name in t.tasks && Uses(t.tasks[name], r);
        if name == w.name {
          assert r == RefOf(was.value);
        } else {
          assert Uses(u.tasks[name], r);
        }
      }
    }
  }

  lemma DeleteDoes(t: Tables, name: string)
    requires Good(t) && name in t.tasks
    ensures var u := Deleted(t, name);
            && Good(u) && u.tasks == t.tasks - {name}
            && u.rows == if InUse(t.tasks - {name}, RefOf(t.tasks[name])) then t.rows else t.rows - {RefOf(t.tasks[name])}
  {
    var u := Deleted(t, name);
    var was := t.tasks[name];
    assert TaskFine(t.rows, was);
    CleanedAfterOne(t.(tasks := t.tasks - {name}), Some(was), None);
    forall n | n in u.tasks ensures TaskFine(u.rows, u.tasks[n]) {
      assert TaskFine(t.rows, t.tasks[n]);
      assert Uses(u.tasks[n], RefOf(u.tasks[n]));
    }
    forall a, b, s | IsRow(u.rows, s, a) && IsRow(u.rows, s, b) ensures a == b {
      assert IsRow(t.rows, s, a) && IsRow(t.rows, s, b);
    }
    forall r | r in u.made && r in u.rows ensures InUse(u.tasks, r) {
      assert InUse(t.tasks, r);
      var n :| n in t.tasks && Uses(t.tasks[n], r);
      if n == name {
        assert r == RefOf(was);
      } else {
        assert Uses(u.tasks[n], r);
      }
    }
  }

  // ----- any run

  datatype Call = Create(wish: Wish) | Delete(name: string)

  /** One call: an invalid cron line or an unknown name changes nothing. */
  ghost predicate Step(t: Tables, c: Call, u: Tables) {
    match c
    case Create(w) => if Valid(w) then Created(t, w, u) else u == t
    case Delete(name) => u == if name in t.tasks then Deleted(t, name) else t
  }

  ghost predicate IsRun(ts: seq<Tables>, calls: seq<Call>) {
    |ts| == |calls| + 1 && forall i :: 0 <= i < |calls| ==> Step(ts[i], calls[i], ts[i + 1])
  }

  lemma {:induction false} EveryRunKeepsGood(ts: seq<Tables>, calls: seq<Call>, i: nat)
    requires IsRun(ts, calls) && Good(ts[0]) && i < |ts|
    ensures Good(ts[i])
  {
    if i > 0 {
      EveryRunKeepsGood(ts, calls, i - 1);
      assert Step(ts[i - 1], calls[i - 1], ts[i]);
      match calls[i - 1]
      case Create(w) =>
        if Valid(w) {
          var _ := CreateDoes(ts[i - 1], w, ts[i]);
        }
      case Delete(name) =>
        if name in ts[i - 1].tasks {
          DeleteDoes(ts[i - 1], name);
        }
    }
  }

  /**
   In every run from well-formed tables (empty ones, say): each task has exactly one of interval
   and crontab, no task refers to a deleted row, and every row made here is some task's.
   */
  lemma NoOrphansNoDanglers(ts: seq<Tables>, calls: seq<Call>, i: nat)
    requires IsRun(ts, calls) && Good(ts[0]) && i < |ts|
    ensures forall name :: name in ts[i].tasks ==>
              var task := ts[i].tasks[name];
              (task.interval.Some? != task.crontab.Some?) && RefOf(task) in ts[i].rows
    ensures forall ref :: ref in ts[i].made && ref in ts[i].rows ==> InUse(ts[i].tasks, ref)
  {
    EveryRunKeepsGood(ts, calls, i);
    assert forall name :: name in ts[i].tasks ==> TaskFine(ts[i].rows, ts[i].tasks[name]);
  }

  /**
   Creating a new task and deleting it again leaves tasks and schedules as they were, exactly when
   no unused row with that schedule was lying about: such a row is taken up, and then cleaned away.
   */
  lemma CreateThenDelete(t: Tables, w: Wish, u: Tables)
    requires Good(t) && w.name !in t.tasks && Valid(w) && Created(t, w, u)
    ensures var v := Deleted(u, w.name);
            && v.tasks == t.tasks
            && (v.rows == t.rows <==> forall ref :: IsRow(t.rows, Wanted(w), ref) ==> InUse(t.tasks, ref))
  {
    var ref := CreateDoes(t, w, u);
    DeleteDoes(u, w.name);
    var v := Deleted(u, w.name);
    assert u.tasks - {w.name} == t.tasks;
    assert RefOf(u.tasks[w.name]) == ref;
    if exists r :: IsRow(t.rows, Wanted(w), r) {
      var r :| IsRow(t.rows, Wanted(w), r);
      assert r in u.rows;
      assert r == ref;
      assert u.rows == t.rows;
    }
  }
}
