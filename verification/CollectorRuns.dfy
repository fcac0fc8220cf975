/**
 Every interleaving of the reader thread with the writer thread. A step is one locked region,
 one write attempt or one rotation; the writer's position between them is its `Stage`.
 */
module CollectorRuns {
  import opened ByteStrings
  import opened Collector
  import opened Rotation
  import opened RecordCap

  /** Where the writer stands inside `_drain`. */
  datatype Stage =
    | Idle
    | Taken(batch: seq<Entry>, count: nat)
    | Ready(batch: seq<Entry>, marked: nat)
    | Wrote
    | Failed(batch: seq<Entry>, written: nat, marked: nat)

  /** What a write attempt put into the stream of file bytes. */
  datatype Segment = Whole(entry: Entry) | Torn(data: Bytes)

  /**
   `segments` and `rotatedOut` are the history: everything ever written, attempt by attempt,
   and every file a rotation moved away.
   */
  datatype Machine = Machine(
    sh: Shared, stage: Stage, tailOpen: bool, started: bool,
    live: Bytes, archives: Archives, rotatedOut: seq<Bytes>, segments: seq<Segment>)

  datatype Event =
    | Accept(line: Bytes)               // reader: evict and append
    | StartLine(data: Bytes)            // writer, between drains
    | Take                              // writer: the batch and the drop count
    | AddMarker(data: Bytes)            // ... reported by a marker in front of the batch
    | GiveBack                          // ... or put back while the file's tail is open
    | Proceed                           // ... or nothing to report
    | Write(written: nat, ok: bool)
    | Requeue
    | Settle(conf: Conf, progress: Progress)  // rotate if that is due
    | Prune(kept: Archives)

  /**
   A collector that starts. A restart in the same container takes up the file where the last
   collector left it: what is there already counts as one torn segment.
   */
  function Start(live: Bytes, archives: Archives): Machine {
    Machine(Shared([], 0, 0, []), Idle, false, false, live, archives, [], if live == [] then [] else [Torn(live)])
  }

  predicate Can(m: Machine, e: Event) {
    match e
    case Accept(_) => true
    case StartLine(_) => m.stage.Idle? && !m.started
    case Take => m.stage.Idle?
    case AddMarker(_) => m.stage.Taken? && m.stage.count > 0 && !m.tailOpen
    case GiveBack => m.stage.Taken? && m.stage.count > 0 && m.tailOpen
    case Proceed => m.stage.Taken? && m.stage.count == 0
    case Write(written, ok) =>
      m.stage.Ready? && written <= |Data(m.stage.batch)| && (ok ==> written == |Data(m.stage.batch)|)
    case Requeue => m.stage.Failed?
    case Settle(_, _) => m.stage.Wrote?
    case Prune(kept) => m.stage.Idle? && kept.Keys <= m.archives.Keys && forall i :: i in kept ==> kept[i] == m.archives[i]
  }

  function Step(m: Machine, e: Event): Machine
    requires Can(m, e)
  {
    match e
    case Accept(line) => m.(sh := Put(Evict(m.sh, |line|), line))
    case StartLine(data) => m.(sh := Put(m.sh, data), started := true)
    case Take => m.(sh := AfterTake(m.sh), stage := Taken(Batch(m.sh), m.sh.dropped))
    case AddMarker(data) =>
      m.(stage := Ready([Marker(m.stage.count, data)] + m.stage.batch, m.stage.count))
    case GiveBack =>
      m.(sh := m.sh.(dropped := m.sh.dropped + m.stage.count), stage := ReadyOrDone(m.stage.batch))
    case Proceed => m.(stage := ReadyOrDone(m.stage.batch))
    case Write(written, ok) =>
      var batch := m.stage.batch;
      m.(stage := if ok then Wrote else Failed(batch, written, m.stage.marked),
         tailOpen := TailOpen(Data(batch), written, ok),
         live := m.live + Data(batch)[..written],
         segments := m.segments + Segments(batch, written))
    case Requeue =>
      m.(sh := AfterRequeue(m.sh, m.stage.batch, m.stage.written, m.stage.marked), stage := Idle)
    case Settle(conf, progress) =>
      if m.tailOpen || |m.live| <= MaxBytes(conf) then m.(stage := Idle)
      else
        var (live, archives) := Rotated(m.live, m.archives, Keep(conf), progress);
        m.(stage := Idle, live := live, archives := archives,
           rotatedOut := if progress.Complete? then m.rotatedOut + [m.live] else m.rotatedOut)
    case Prune(kept) => m.(archives := kept)
  }

  /** `if not batch: return` */
  function ReadyOrDone(batch: seq<Entry>): Stage {
    if batch == [] then Idle else Ready(batch, 0)
  }

  function Segments(batch: seq<Entry>, written: nat): seq<Segment> {
    if batch == [] then []
    else if written < |batch[0].data| then if written == 0 then [] else [Torn(batch[0].data[..written])]
    else [Whole(batch[0])] + Segments(batch[1..], written - |batch[0].data|)
  }

  predicate CanRun(m: Machine, es: seq<Event>)
    decreases |es|
  {
    es == [] || (Can(m, es[0]) && CanRun(Step(m, es[0]), es[1..]))
  }

  function Run(m: Machine, es: seq<Event>): Machine
    requires CanRun(m, es)
    decreases |es|
  {
    if es == [] then m else Run(Step(m, es[0]), es[1..])
  }

  // ----- what every run keeps

  function SegmentBytes(segments: seq<Segment>): Bytes {
    if segments == [] then []
    else BytesOf(segments[0]) + SegmentBytes(segments[1..])
  }

  function LinesOf(entries: seq<Entry>): seq<Entry> {
    if entries == [] then []
    else (if entries[0].Line? then [entries[0]] else []) + LinesOf(entries[1..])
  }

  /** The lines that reached the file whole. */
  function Filed(segments: seq<Segment>): seq<Entry> {
    if segments == [] then []
    else LineOf(segments[0]) + Filed(segments[1..])
  }

  /** The drops that whole markers in the file account for. */
  function Reported(segments: seq<Segment>): nat {
    if segments == [] then 0
    else (if segments[0].Whole? && segments[0].entry.Marker? then segments[0].entry.count else 0)
         + Reported(segments[1..])
  }

  /** The lines the writer holds. */
  function InFlight(stage: Stage): seq<Entry> {
    match stage
    case Idle => []
    case Wrote => []
    case Taken(batch, _) => batch
    case Ready(batch, marked) => LinesOf(batch)
    case Failed(batch, written, marked) => Unwritten(batch, written, marked)
  }

  /** The drops the writer has taken off the counter and not yet reported. */
  function Held(stage: Stage): nat {
    match stage
    case Idle => 0
    case Wrote => 0
    case Taken(_, count) => count
    case Ready(_, marked) => marked
    case Failed(batch, written, marked) => if WholeCount(batch, written) == 0 && batch != [] then marked else 0
  }

  /** A batch is lines, after at most one marker. */
  predicate BatchShape(batch: seq<Entry>, marked: nat) {
    if marked == 0 then AllLines(batch)
    else batch != [] && batch[0].Marker? && batch[0].count == marked && AllLines(batch[1..])
  }

  predicate AllLines(entries: seq<Entry>) {
    entries == [] || (entries[0].Line? && AllLines(entries[1..]))
  }

  predicate StageShape(stage: Stage) {
    match stage
    case Idle => true
    case Wrote => true
    case Taken(batch, _) => AllLines(batch)
    case Ready(batch, marked) => BatchShape(batch, marked)
    case Failed(batch, written, marked) => BatchShape(batch, marked)
  }

  /** These are lines accepted in this order, each with its own bytes: a subsequence of them. */
  predicate InOrder(lines: seq<Entry>, accepted: seq<Bytes>) {
    forall i {:trigger InPlace(lines, accepted, i)} :: 0 <= i < |lines| ==> InPlace(lines, accepted, i)
  }

  predicate InPlace(lines: seq<Entry>, accepted: seq<Bytes>, i: nat)
    requires i < |lines|
  {
    && lines[i].Line? && lines[i].no < |accepted| && accepted[lines[i].no] == lines[i].data
    && (i > 0 ==> lines[i - 1].Line? && lines[i - 1].no < lines[i].no)
  }

  lemma {:induction false} Ascending(lines: seq<Entry>, accepted: seq<Bytes>, i: nat, j: nat)
    requires InOrder(lines, accepted) && i < j < |lines|
    ensures lines[i].Line? && lines[j].Line? && lines[i].no < lines[j].no
    decreases j
  {
    assert InPlace(lines, accepted, i) && InPlace(lines, accepted, j);
    if i < j - 1 {
      Ascending(lines, accepted, i, j - 1);
    }
  }

  /** Filed, in flight, buffered: in the order they were accepted. */
  function Kept(m: Machine): seq<Entry> {
    Filed(m.segments) + InFlight(m.stage) + m.sh.buf
  }

  ghost predicate Conserved(m: Machine) {
    && m.sh.bufBytes == Size(m.sh.buf)
    && StageShape(m.stage)
    && InOrder(Kept(m), m.sh.accepted)
    && |m.sh.accepted| == |Kept(m)| + m.sh.dropped + Held(m.stage) + Reported(m.segments)
    && FilesFine(m)
  }

  /** The files hold what was written, and the ones rotated out end a line. */
  ghost predicate FilesFine(m: Machine) {
    && Join(m.rotatedOut) + m.live == SegmentBytes(m.segments)
    && (forall i :: 0 <= i < |m.rotatedOut| ==> EndsLine(m.rotatedOut[i]))
    && (m.stage.Wrote? && !m.tailOpen ==> EndsLine(m.live))
  }

  // ----- lemmas on the pieces

  lemma {:induction false} LinesOfAll(entries: seq<Entry>)
    requires AllLines(entries)
    ensures LinesOf(entries) == entries
  {
    if entries != [] {
      LinesOfAll(entries[1..]);
    }
  }

  lemma LinesOfBatch(batch: seq<Entry>, marked: nat)
    requires BatchShape(batch, marked)
    ensures LinesOf(batch) == if marked == 0 then batch else batch[1..]
  {
    if marked == 0 {
      LinesOfAll(batch);
    } else {
      LinesOfAll(batch[1..]);
    }
  }

  function BytesOf(segment: Segment): Bytes {
    if segment.Whole? then segment.entry.data else segment.data
  }

  function LineOf(segment: Segment): seq<Entry> {
    if segment.Whole? && segment.entry.Line? then [segment.entry] else []
  }

  lemma {:induction false} FiledAppend(a: seq<Segment>, b: seq<Segment>)
    ensures Filed(a + b) == Filed(a) + Filed(b)
    ensures Reported(a + b) == Reported(a) + Reported(b)
  {
    if a == [] {
      assert a + b == b;
    } else {
      assert (a + b)[1..] == a[1..] + b;
      FiledAppend(a[1..], b);
      Assoc(LineOf(a[0]), Filed(a[1..]), Filed(b));
    }
  }

  lemma {:induction false} BytesAppend(a: seq<Segment>, b: seq<Segment>)
    ensures SegmentBytes(a + b) == SegmentBytes(a) + SegmentBytes(b)
  {
    if a == [] {
      assert a + b == b;
    } else {
      assert (a + b)[1..] == a[1..] + b;
      BytesAppend(a[1..], b);
      Assoc(BytesOf(a[0]), SegmentBytes(a[1..]), SegmentBytes(b));
    }
  }

  /** A write attempt files exactly the bytes it wrote ... */
  lemma {:induction false} SegmentsAreTheBytes(batch: seq<Entry>, written: nat)
    requires written <= |Data(batch)|
    ensures SegmentBytes(Segments(batch, written)) == Data(batch)[..written]
  {
    if batch != [] {
      var d := batch[0].data;
      if written < |d| {
        assert Data(batch)[..written] == d[..written];
        if written > 0 {
          assert Segments(batch, written)[1..] == [];
        }
      } else {
        SegmentsAreTheBytes(batch[1..], written - |d|);
        assert Data(batch)[..written] == d + Data(batch[1..])[..written - |d|];
      }
    }
  }

  lemma {:induction false} LinesFrom(entries: seq<Entry>, k: nat)
    requires AllLines(entries) && k <= |entries|
    ensures AllLines(entries[k..])
  {
    if k > 0 {
      LinesFrom(entries[1..], k - 1);
      assert entries[1..][k - 1..] == entries[k..];
    } else {
      assert entries[0..] == entries;
    }
  }

  /** ... and, of a batch of lines, the ones that do not come back. */
  lemma {:induction false} SegmentsOfLines(batch: seq<Entry>, written: nat)
    requires AllLines(batch)
    ensures Filed(Segments(batch, written)) == batch[..WholeCount(batch, written)]
    ensures Reported(Segments(batch, written)) == 0
  {
    if batch != [] {
      var segments := Segments(batch, written);
      if written < |batch[0].data| {
        if written > 0 {
          assert segments[1..] == [];
        }
        assert Filed(segments) == [];
      } else {
        var tail, left := batch[1..], written - |batch[0].data|;
        SegmentsOfLines(tail, left);
        assert segments[1..] == Segments(tail, left);
        assert Filed(segments) == [batch[0]] + tail[..WholeCount(tail, left)];
        assert batch == [batch[0]] + tail;
      }
    }
  }

  lemma MarkerTorn(batch: seq<Entry>, written: nat, marked: nat)
    requires BatchShape(batch, marked) && marked > 0 && written < |batch[0].data|
    ensures Filed(Segments(batch, written)) == [] && Reported(Segments(batch, written)) == 0
    ensures WholeCount(batch, written) == 0 && Unwritten(batch, written, marked) == batch[1..]
  {
    var segments := Segments(batch, written);
    if written > 0 {
      assert segments[1..] == [];
    }
    assert batch[0..] == batch;
  }

  lemma MarkerWhole(batch: seq<Entry>, written: nat, marked: nat)
    requires BatchShape(batch, marked) && marked > 0 && written >= |batch[0].data|
    ensures var tail := batch[1..];
            var k := WholeCount(tail, written - |batch[0].data|);
            && WholeCount(batch, written) == 1 + k
            && Filed(Segments(batch, written)) == tail[..k] && Unwritten(batch, written, marked) == tail[k..]
            && Reported(Segments(batch, written)) == marked
  {
    var tail, left := batch[1..], written - |batch[0].data|;
    var k := WholeCount(tail, left);
    SegmentsOfLines(tail, left);
    assert Segments(batch, written)[1..] == Segments(tail, left);
    Slices(batch, 1, 1 + k);
  }

  /** The marker in front is reported once it is whole, and folded back otherwise. */
  lemma SegmentsOfMarked(batch: seq<Entry>, written: nat, marked: nat)
    requires BatchShape(batch, marked) && marked > 0
    ensures Filed(Segments(batch, written)) + Unwritten(batch, written, marked) == batch[1..]
    ensures Reported(Segments(batch, written)) == if WholeCount(batch, written) > 0 then marked else 0
    ensures AllLines(Unwritten(batch, written, marked))
  {
    if written < |batch[0].data| {
      MarkerTorn(batch, written, marked);
    } else {
      MarkerWhole(batch, written, marked);
      LinesFrom(batch[1..], WholeCount(batch[1..], written - |batch[0].data|));
      Parts(batch[1..], WholeCount(batch[1..], written - |batch[0].data|));
    }
  }

  lemma SegmentsOfBatch(batch: seq<Entry>, written: nat, marked: nat)
    requires BatchShape(batch, marked)
    ensures Filed(Segments(batch, written)) + Unwritten(batch, written, marked) == LinesOf(batch)
    ensures Reported(Segments(batch, written))
            == if marked > 0 && WholeCount(batch, written) > 0 then marked else 0
    ensures AllLines(Unwritten(batch, written, marked))
  {
    LinesOfBatch(batch, marked);
    if marked == 0 {
      var k := WholeCount(batch, written);
      SegmentsOfLines(batch, written);
      LinesFrom(batch, k);
      Parts(batch, k);
    } else {
      SegmentsOfMarked(batch, written, marked);
    }
  }

  /** A full write leaves nothing to come back. */
  lemma {:induction false} WholeWhenAllWritten(batch: seq<Entry>)
    ensures WholeCount(batch, |Data(batch)|) == |batch|
  {
    if batch != [] {
      WholeWhenAllWritten(batch[1..]);
    }
  }

  lemma InOrderWithout(a: seq<Entry>, b: seq<Entry>, c: seq<Entry>, accepted: seq<Bytes>)
    requires InOrder(a + b + c, accepted)
    ensures InOrder(a + c, accepted)
  {
    var s, t := a + b + c, a + c;
    forall i | 0 <= i < |t| ensures InPlace(t, accepted, i) {
      var k := if i < |a| then i else i + |b|;
      assert InPlace(s, accepted, k);
      assert t[i] == s[k];
      if i > 0 {
        var h := if i - 1 < |a| then i - 1 else i - 1 + |b|;
        assert t[i - 1] == s[h];
        Ascending(s, accepted, h, k);
      }
    }
  }

  lemma InOrderPut(lines: seq<Entry>, accepted: seq<Bytes>, data: Bytes)
    requires InOrder(lines, accepted)
    ensures InOrder(lines + [Line(|accepted|, data)], accepted + [data])
  {
    var t := lines + [Line(|accepted|, data)];
    forall i | 0 <= i < |t| ensures InPlace(t, accepted + [data], i) {
      if i < |lines| {
        assert InPlace(lines, accepted, i);
      } else if i > 0 {
        assert InPlace(lines, accepted, i - 1);
      }
    }
  }

  /** What is in order is all lines. */
  lemma {:induction false} InOrderLines(a: seq<Entry>, b: seq<Entry>, c: seq<Entry>, accepted: seq<Bytes>)
    requires InOrder(a + b + c, accepted)
    ensures AllLines(b)
    decreases |b|
  {
    if b != [] {
      var s := a + b + c;
      assert InPlace(s, accepted, |a|) && s[|a|] == b[0];
      assert s == (a + [b[0]]) + b[1..] + c;
      InOrderLines(a + [b[0]], b[1..], c, accepted);
    }
  }

  // ----- the invariant, step by step

  lemma EvictKeeps(prefix: seq<Entry>, s: Shared, need: nat)
    requires s.bufBytes == Size(s.buf) && InOrder(prefix + s.buf, s.accepted)
    ensures var t := Evict(s, need);
            && t.bufBytes == Size(t.buf) && t.accepted == s.accepted
            && InOrder(prefix + t.buf, s.accepted)
            && |t.buf| + t.dropped == |s.buf| + s.dropped
  {
    var k := EvictsTheLeast(s, need);
    Parts(s.buf, k);
    Assoc(prefix, s.buf[..k], s.buf[k..]);
    InOrderWithout(prefix, s.buf[..k], s.buf[k..], s.accepted);
  }

  lemma PutKeeps(prefix: seq<Entry>, s: Shared, data: Bytes)
    requires s.bufBytes == Size(s.buf) && InOrder(prefix + s.buf, s.accepted)
    ensures var t := Put(s, data);
            t.bufBytes == Size(t.buf) && InOrder(prefix + t.buf, t.accepted)
  {
    var last := [Line(|s.accepted|, data)];
    SizeAppend(s.buf, last);
    assert Size(last) == |data|;
    InOrderPut(prefix + s.buf, s.accepted, data);
    assert prefix + s.buf + last == prefix + (s.buf + last);
  }

  lemma AcceptKeeps(m: Machine, line: Bytes)
    requires Conserved(m)
    ensures Conserved(Step(m, Event.Accept(line)))
  {
    var prefix := Filed(m.segments) + InFlight(m.stage);
    EvictKeeps(prefix, m.sh, |line|);
    PutKeeps(prefix, Evict(m.sh, |line|), line);
  }

  lemma TakeKeeps(m: Machine)
    requires Conserved(m) && Can(m, Take)
    ensures Conserved(Step(m, Take))
  {
    var n := BatchLen(m.sh.buf, 0);
    var filed, front, rest := Filed(m.segments), m.sh.buf[..n], m.sh.buf[n..];
    Parts(m.sh.buf, n);
    SizeAppend(front, rest);
    Assoc(filed, front, rest);
    assert filed + [] == filed;
    InOrderLines(filed, front, rest, m.sh.accepted);
  }

  /** Adding a marker, or none, changes neither the lines in flight nor the drops on record. */
  lemma ReadySame(m: Machine, e: Event)
    requires StageShape(m.stage) && Can(m, e) && (e.AddMarker? || e.GiveBack? || e.Proceed?)
    ensures var m' := Step(m, e);
            && InFlight(m'.stage) == InFlight(m.stage) && StageShape(m'.stage)
            && m'.sh.dropped + Held(m'.stage) == m.sh.dropped + Held(m.stage)
  {
    var batch := m.stage.batch;
    LinesOfAll(batch);
    if e.AddMarker? {
      var marked := [Marker(m.stage.count, e.data)] + batch;
      assert marked[1..] == batch;
      LinesOfBatch(marked, m.stage.count);
    }
  }

  lemma ReadyKeeps(m: Machine, e: Event)
    requires Conserved(m) && Can(m, e) && (e.AddMarker? || e.GiveBack? || e.Proceed?)
    ensures Conserved(Step(m, e))
  {
    ReadySame(m, e);
    assert Kept(Step(m, e)) == Kept(m);
  }

  /** A write attempt moves lines from the batch to the file; it neither adds nor loses one. */
  lemma WriteMovesLines(m: Machine, written: nat, ok: bool)
    requires StageShape(m.stage) && Can(m, Write(written, ok))
    ensures Kept(Step(m, Write(written, ok))) == Kept(m)
  {
    var batch, marked := m.stage.batch, m.stage.marked;
    var segments, back := Segments(batch, written), Unwritten(batch, written, marked);
    FiledAppend(m.segments, segments);
    SegmentsOfBatch(batch, written, marked);
    Assoc(Filed(m.segments), Filed(segments), back);
    if ok {
      WholeWhenAllWritten(batch);
      assert back == [];
    }
  }

  lemma WriteCounts(m: Machine, written: nat, ok: bool)
    requires StageShape(m.stage) && Can(m, Write(written, ok))
    ensures var m' := Step(m, Write(written, ok));
            && StageShape(m'.stage)
            && Held(m'.stage) + Reported(m'.segments) == Held(m.stage) + Reported(m.segments)
  {
    var batch, marked := m.stage.batch, m.stage.marked;
    FiledAppend(m.segments, Segments(batch, written));
    SegmentsOfBatch(batch, written, marked);
    if ok {
      WholeWhenAllWritten(batch);
    }
  }

  lemma WriteFiles(m: Machine, written: nat, ok: bool)
    requires FilesFine(m) && Can(m, Write(written, ok))
    ensures FilesFine(Step(m, Write(written, ok)))
  {
    var batch := m.stage.batch;
    var data := Data(batch)[..written];
    BytesAppend(m.segments, Segments(batch, written));
    SegmentsAreTheBytes(batch, written);
    Assoc(Join(m.rotatedOut), m.live, data);
    if ok {
      assert data == Data(batch);
    }
    if ok && EndsLine(data) {
      assert (m.live + data)[|m.live + data| - 1] == data[|data| - 1];
    }
  }

  lemma WriteKeeps(m: Machine, written: nat, ok: bool)
    requires Conserved(m) && Can(m, Write(written, ok))
    ensures Conserved(Step(m, Write(written, ok)))
  {
    WriteMovesLines(m, written, ok);
    WriteCounts(m, written, ok);
    WriteFiles(m, written, ok);
  }

  lemma RequeueKeeps(m: Machine)
    requires Conserved(m) && Can(m, Requeue)
    ensures Conserved(Step(m, Requeue))
  {
    var back := Unwritten(m.stage.batch, m.stage.written, m.stage.marked);
    var filed := Filed(m.segments);
    SizeAppend(back, m.sh.buf);
    assert Kept(Step(m, Requeue)) == Kept(m) by {
      Assoc(filed, back, m.sh.buf);
      assert filed + [] == filed;
    }
  }

  lemma SettleKeeps(m: Machine, e: Event)
    requires Conserved(m) && Can(m, e) && e.Settle?
    ensures Conserved(Step(m, e))
  {
    if !m.tailOpen && |m.live| > MaxBytes(e.conf) && e.progress.Complete? {
      JoinOne(m.rotatedOut, m.live);
    }
  }

  lemma StepKeeps(m: Machine, e: Event)
    requires Conserved(m) && Can(m, e)
    ensures Conserved(Step(m, e))
  {
    match e
    case Accept(line) => AcceptKeeps(m, line);
    case StartLine(data) => PutKeeps(Filed(m.segments) + InFlight(m.stage), m.sh, data);
    case Take => TakeKeeps(m);
    case AddMarker(_) => ReadyKeeps(m, e);
    case GiveBack => ReadyKeeps(m, e);
    case Proceed => ReadyKeeps(m, e);
    case Write(written, ok) => WriteKeeps(m, written, ok);
    case Requeue => RequeueKeeps(m);
    case Settle(_, _) => SettleKeeps(m, e);
    case Prune(_) =>
  }

  lemma {:induction false} RunKeeps(m: Machine, es: seq<Event>)
    requires Conserved(m) && CanRun(m, es)
    ensures Conserved(Run(m, es))
    decreases |es|
  {
    if es != [] {
      StepKeeps(m, es[0]);
      RunKeeps(Step(m, es[0]), es[1..]);
    }
  }

  lemma StartConserves(live: Bytes, archives: Archives)
    ensures Conserved(Start(live, archives))
  {
    var m := Start(live, archives);
    if live != [] {
      assert m.segments[1..] == [];
      assert SegmentBytes(m.segments) == live + [];
      assert Filed(m.segments) == [];
    }
    assert Kept(m) == [];
  }

  /** The lines a run brings, in order: the reader's and the writer's own. */
  function Arrived(es: seq<Event>): seq<Bytes> {
    if es == [] then [] else Brought(es[0]) + Arrived(es[1..])
  }

  function Brought(e: Event): seq<Bytes> {
    match e
    case Accept(line) => [line]
    case StartLine(data) => [data]
    case _ => []
  }

  lemma AcceptedStep(m: Machine, e: Event)
    requires Conserved(m) && Can(m, e)
    ensures Step(m, e).sh.accepted == m.sh.accepted + Brought(e)
  {
    if e.Accept? {
      var _ := EvictsTheLeast(m.sh, |e.line|);
    }
  }

  lemma {:induction false} AcceptedIsWhatCame(m: Machine, es: seq<Event>)
    requires Conserved(m) && CanRun(m, es)
    ensures Run(m, es).sh.accepted == m.sh.accepted + Arrived(es)
    decreases |es|
  {
    if es != [] {
      var t := Step(m, es[0]);
      AcceptedStep(m, es[0]);
      StepKeeps(m, es[0]);
      AcceptedIsWhatCame(t, es[1..]);
      Assoc(m.sh.accepted, Brought(es[0]), Arrived(es[1..]));
    }
  }

  /**
   Whatever the interleaving and whatever fails, whatever was in the file: the lines filed whole,
   then those in flight, then the buffer are accepted lines in the order of acceptance; each line
   missing from them is counted exactly once, by the counter, by the count in flight or by a marker
   in the file; the byte count is right; the files hold what was written; and every file rotated
   out ends a line. The accepted lines are those that came, all of them.
   */
  lemma EveryRunConserves(live: Bytes, archives: Archives, es: seq<Event>)
    requires CanRun(Start(live, archives), es)
    ensures Conserved(Run(Start(live, archives), es))
    ensures Run(Start(live, archives), es).sh.accepted == Arrived(es)
  {
    StartConserves(live, archives);
    RunKeeps(Start(live, archives), es);
    AcceptedIsWhatCame(Start(live, archives), es);
  }

  /**
   At any moment, accepting a line drops the oldest lines buffered and no more of them than it must:
   with one fewer gone, the new line would not have fitted the buffer.
   */
  lemma AcceptDropsTheLeast(m: Machine, line: Bytes) returns (k: nat)
    requires Conserved(m)
    ensures k <= |m.sh.buf|
    ensures var t := Step(m, Event.Accept(line));
            && t.sh.buf == m.sh.buf[k..] + [Line(|m.sh.accepted|, line)] && t.sh.dropped == m.sh.dropped + k
            && t == m.(sh := t.sh)
    ensures k == |m.sh.buf| || Size(m.sh.buf[k..]) + |line| <= BUFFER_BYTES
    ensures k > 0 ==> Size(m.sh.buf[k - 1..]) + |line| > BUFFER_BYTES
  {
    k := EvictsTheLeast(m.sh, |line|);
  }

  /** A drain takes the oldest lines, the fewest that reach the batch size, or all there are. */
  lemma TakesAFullBatch(m: Machine) returns (n: nat)
    requires Can(m, Take)
    ensures n <= |m.sh.buf|
    ensures var t := Step(m, Take);
            && t.stage == Taken(m.sh.buf[..n], m.sh.dropped) && t.sh.buf == m.sh.buf[n..] && t.sh.dropped == 0
    ensures n == |m.sh.buf| || Size(m.sh.buf[..n]) >= BATCH_BYTES
    ensures n > 0 ==> Size(m.sh.buf[..n - 1]) < BATCH_BYTES
  {
    n := BatchLen(m.sh.buf, 0);
    BatchIsTheShortest(m.sh.buf, 0);
  }

  /** Once the writer has caught up, every accepted line is in the file or in a marker's count. */
  lemma CaughtUp(live: Bytes, archives: Archives, es: seq<Event>)
    requires CanRun(Start(live, archives), es)
    ensures var m := Run(Start(live, archives), es);
            m.stage.Idle? && m.sh.buf == [] && m.sh.dropped == 0 ==>
              && |Arrived(es)| == |Filed(m.segments)| + Reported(m.segments)
              && InOrder(Filed(m.segments), Arrived(es))
              && (Reported(m.segments) == 0 ==>
                    forall i :: 0 <= i < |Arrived(es)| ==> Filed(m.segments)[i] == Line(i, Arrived(es)[i]))
  {
    EveryRunConserves(live, archives, es);
    var m := Run(Start(live, archives), es);
    var filed := Filed(m.segments);
    if m.stage.Idle? && m.sh.buf == [] && m.sh.dropped == 0 {
      assert Kept(m) == filed;
      if Reported(m.segments) == 0 {
        Consecutive(filed, m.sh.accepted);
      }
    }
  }

  /** As many lines in order as were accepted: all of them. */
  lemma Consecutive(lines: seq<Entry>, accepted: seq<Bytes>)
    requires InOrder(lines, accepted) && |lines| == |accepted|
    ensures forall i :: 0 <= i < |lines| ==> lines[i] == Line(i, accepted[i])
  {
    forall i | 0 <= i < |lines| ensures lines[i] == Line(i, accepted[i]) {
      assert InPlace(lines, accepted, i);
      AtLeast(lines, accepted, i);
      AtMost(lines, accepted, i);
    }
  }

  lemma {:induction false} AtLeast(lines: seq<Entry>, accepted: seq<Bytes>, i: nat)
    requires InOrder(lines, accepted) && i < |lines|
    ensures lines[i].Line? && lines[i].no >= i
  {
    assert InPlace(lines, accepted, i);
    if i > 0 {
      AtLeast(lines, accepted, i - 1);
    }
  }

  lemma {:induction false} AtMost(lines: seq<Entry>, accepted: seq<Bytes>, i: nat)
    requires InOrder(lines, accepted) && i < |lines| == |accepted|
    ensures lines[i].Line? && lines[i].no <= i
    decreases |lines| - i
  {
    assert InPlace(lines, accepted, i);
    if i + 1 < |lines| {
      assert InPlace(lines, accepted, i + 1);
      AtMost(lines, accepted, i + 1);
    }
  }

  // ----- what `_tail_open` says

  /** The file is empty or ends a line. */
  predicate Closed(file: Bytes) {
    file == [] || EndsLine(file)
  }

  /**
   `_tail_open` is not "the live file's last line is open": a write attempt leaves it saying that
   exactly when the attempt got a byte out, or the file's last line was complete before it.
   */
  lemma TailFlagIsRightIff(m: Machine, written: nat, ok: bool)
    requires Can(m, Write(written, ok)) && Data(m.stage.batch) != []
    ensures var m' := Step(m, Write(written, ok));
            (m'.tailOpen <==> !Closed(m'.live)) <==> (written > 0 || Closed(m.live))
  {
    var data := Data(m.stage.batch)[..written];
    if written > 0 {
      assert (m.live + data)[|m.live + data| - 1] == data[written - 1];
      assert ok ==> data == Data(m.stage.batch);
    } else {
      assert m.live + data == m.live;
    }
  }

  /** Whether the last write attempt so far got a byte out. */
  predicate Moved(moved: bool, es: seq<Event>)
    decreases |es|
  {
    if es == [] then moved else Moved(if es[0].Write? then es[0].written > 0 else moved, es[1..])
  }

  /** A batch that could be written whole was not empty: no line is. */
  predicate NoEmptyLines(es: seq<Event>) {
    forall i :: 0 <= i < |es| && es[i].Write? && es[i].ok ==> es[i].written > 0
  }

  /** No write attempt broke off before its first byte. */
  predicate NoEmptyWrites(es: seq<Event>) {
    forall i :: 0 <= i < |es| && es[i].Write? ==> es[i].written > 0
  }

  lemma FlagStep(m: Machine, e: Event, moved: bool)
    requires Can(m, e) && (e.Write? && e.ok ==> e.written > 0)
    requires m.tailOpen <==> !Closed(m.live) && moved
    ensures var t := Step(m, e);
            t.tailOpen <==> !Closed(t.live) && if e.Write? then e.written > 0 else moved
  {
    if e.Write? {
      if e.written > 0 {
        TailFlagIsRightIff(m, e.written, e.ok);
      } else {
        assert m.live + Data(m.stage.batch)[..0] == m.live;
      }
    }
  }

  lemma {:induction false} RunKeepsFlag(m: Machine, es: seq<Event>, moved: bool)
    requires CanRun(m, es) && NoEmptyLines(es)
    requires m.tailOpen <==> !Closed(m.live) && moved
    ensures var t := Run(m, es);
            t.tailOpen <==> !Closed(t.live) && Moved(moved, es)
    decreases |es|
  {
    if es != [] {
      FlagStep(m, es[0], moved);
      RunKeepsFlag(Step(m, es[0]), es[1..], if es[0].Write? then es[0].written > 0 else moved);
    }
  }

  /**
   `_tail_open` is set exactly when the file ends inside a line and the last write attempt got a
   byte out: it is wrong if and only if the file ends inside a line and the last attempt wrote
   nothing, or there was none yet.
   */
  lemma FlagMeans(live: Bytes, archives: Archives, es: seq<Event>)
    requires CanRun(Start(live, archives), es) && NoEmptyLines(es)
    ensures var m := Run(Start(live, archives), es);
            && (m.tailOpen <==> !Closed(m.live) && Moved(false, es))
            && ((m.tailOpen <==> !Closed(m.live)) <==> Closed(m.live) || Moved(false, es))
  {
    RunKeepsFlag(Start(live, archives), es, false);
  }

  /**
   As long as no write attempt breaks off before its first byte, `_tail_open` is right at every
   moment if and only if the file was empty or ended a line when the collector started ...
   */
  lemma FlagRightFromStartIff(live: Bytes, archives: Archives)
    ensures Closed(live) <==>
            forall es :: CanRun(Start(live, archives), es) && NoEmptyWrites(es) ==>
              var m := Run(Start(live, archives), es);
              m.tailOpen <==> !Closed(m.live)
  {
    var start := Start(live, archives);
    if Closed(live) {
      forall es | CanRun(start, es) && NoEmptyWrites(es)
        ensures var m := Run(start, es); m.tailOpen <==> !Closed(m.live)
      {
        RunKeepsFlag(start, es, true);
        MovedStays(es);
      }
    } else {
      var none: seq<Event> := [];
      assert CanRun(start, none) && NoEmptyWrites(none) && Run(start, none) == start;
    }
  }

  lemma {:induction false} MovedStays(es: seq<Event>)
    requires NoEmptyWrites(es)
    ensures Moved(true, es)
  {
    if es != [] {
      MovedStays(es[1..]);
    }
  }

  /**
   ... and then neither a marker nor a rotation ever comes in the middle of a line, and neither is put
   off for any other reason: drops go back on the counter only where the file ends inside a line, and
   past the size limit a file that ends a line is rotated out whole.
   */
  lemma NothingSplicesALine(live: Bytes, archives: Archives, es: seq<Event>, e: Event)
    requires CanRun(Start(live, archives), es) && Can(Run(Start(live, archives), es), e) && Closed(live)
    requires NoEmptyWrites(es)
    ensures var m := Run(Start(live, archives), es);
            && (e.AddMarker? || (e.Settle? && Step(m, e).live != m.live) ==> Closed(m.live))
            && (e.GiveBack? ==> !Closed(m.live))
            && (e.Settle? && e.progress.Complete? && Closed(m.live) && |m.live| > MaxBytes(e.conf) ==>
                  var t := Step(m, e); t.live == [] && 1 in t.archives && t.archives[1] == m.live)
  {
    FlagRightFromStartIff(live, archives);
  }

  /** The writer tries the one buffered line, and breaks off `written` bytes into it. */
  lemma TriesTheOne(m: Machine, entry: Entry, written: nat) returns (t: Machine)
    requires m.stage.Idle? && m.sh == Shared([entry], |entry.data|, 0, [entry.data]) && entry.Line? && written < |entry.data|
    ensures CanRun(m, Try(written)) && Run(m, Try(written)) == t
    ensures t == m.(tailOpen := written > 0 && !EndsLine(entry.data[..written]), live := m.live + entry.data[..written],
                    segments := t.segments)
  {
    var taken := m.(sh := Shared([], 0, 0, m.sh.accepted), stage := Taken([entry], 0));
    TakeTheOne(m, entry);
    var ready := taken.(stage := Ready([entry], 0));
    var data := entry.data + Data([]);
    assert data == entry.data && Data([entry]) == entry.data;
    var failed := Step(ready, Write(written, false));
    assert [entry][0..] == [entry];
    assert WholeCount([entry], written) == 0;
    assert Unwritten([entry], written, 0) == [entry];
    assert Size([entry]) == |entry.data|;
    t := Step(failed, Requeue);
    var es := Before(failed, Requeue, t, [], t);
    es := Before(ready, Write(written, false), failed, es, t);
    es := Before(taken, Proceed, ready, es, t);
    es := Before(m, Take, taken, es, t);
    assert es == Try(written);
  }

  function Try(written: nat): seq<Event> {
    [Take, Proceed, Write(written, false), Requeue]
  }

  /** A wrong flag can be reached: the line AB is torn after the A, and the next attempt writes nothing. */
  lemma TheFlagCanBeWrong() returns (es: seq<Event>)
    ensures CanRun(Start([], map[]), es) && NoEmptyLines(es)
    ensures var m := Run(Start([], map[]), es); !m.tailOpen && m.live == [65]
  {
    var entry := Line(0, [65, 66]);
    var m := AcceptsTheOne(entry);
    var torn := TriesTheOne(m, entry, 1);
    var end := TriesTheOne(torn, entry, 0);
    RunThen(m, Try(1), Try(0));
    es := Before(Start([], map[]), Event.Accept(entry.data), m, Try(1) + Try(0), end);
  }

  lemma AcceptsTheOne(entry: Entry) returns (m: Machine)
    requires entry == Line(0, [65, 66])
    ensures Step(Start([], map[]), Event.Accept(entry.data)) == m && Can(Start([], map[]), Event.Accept(entry.data))
    ensures m == Start([], map[]).(sh := Shared([entry], 2, 0, [entry.data]))
  {
    m := Start([], map[]).(sh := Shared([entry], 2, 0, [entry.data]));
  }

  lemma {:induction false} RunThen(m: Machine, a: seq<Event>, b: seq<Event>)
    requires CanRun(m, a) && CanRun(Run(m, a), b)
    ensures CanRun(m, a + b) && Run(m, a + b) == Run(Run(m, a), b)
    decreases |a|
  {
    if a == [] {
      assert a + b == b;
    } else {
      assert (a + b)[1..] == a[1..] + b;
      RunThen(Step(m, a[0]), a[1..], b);
    }
  }

  lemma TakeTheOne(m: Machine, entry: Entry)
    requires Can(m, Take) && m.sh.buf == [entry] && m.sh.bufBytes == |entry.data|
    ensures Step(m, Take) == m.(sh := Shared([], 0, 0, m.sh.accepted), stage := Taken([entry], m.sh.dropped))
  {
    assert BatchLen([entry], 0) == 1;
    assert [entry][..1] == [entry] && [entry][1..] == [];
    assert Size([entry]) == |entry.data|;
  }

  /** One more event in front of a run. */
  lemma Before(m: Machine, e: Event, t: Machine, es: seq<Event>, end: Machine) returns (r: seq<Event>)
    requires Can(m, e) && Step(m, e) == t && CanRun(t, es) && Run(t, es) == end
    ensures r == [e] + es && CanRun(m, r) && Run(m, r) == end
  {
    r := [e] + es;
    assert r[1..] == es;
  }

  // ----- memory

  /** The longest line a reader accepts: `Framing.FiledShape`. */
  const MAX_FILED: nat := MAX_RECORD_BYTES + 58

  /** The reader's lines are capped, and the start line and the markers are no longer than that. */
  predicate Short(e: Event) {
    && (e.Accept? ==> |e.line| <= MAX_FILED)
    && (e.StartLine? ==> |e.data| <= MAX_FILED)
    && (e.AddMarker? ==> |e.data| <= MAX_FILED)
  }

  predicate Bounded(es: seq<Event>) {
    forall i :: 0 <= i < |es| ==> Short(es[i])
  }

  function StartBytes(m: Machine): nat {
    if m.started then MAX_FILED else 0
  }

  predicate AllShort(entries: seq<Entry>) {
    entries == [] || (|entries[0].data| <= MAX_FILED && AllShort(entries[1..]))
  }

  lemma {:induction false} ShortAppend(a: seq<Entry>, b: seq<Entry>)
    ensures AllShort(a + b) <==> AllShort(a) && AllShort(b)
    ensures Size(a + b) == Size(a) + Size(b)
  {
    if a == [] {
      assert a + b == b;
    } else {
      assert (a + b)[1..] == a[1..] + b;
      ShortAppend(a[1..], b);
    }
  }

  /** The batch the writer holds in memory, its marker included. */
  function Carried(stage: Stage): seq<Entry> {
    match stage
    case Idle => []
    case Wrote => []
    case Taken(batch, _) => batch
    case Ready(batch, _) => batch
    case Failed(batch, _, _) => batch
  }

  /** Its lines are less than a batch and one more; so with the buffer. */
  ghost predicate WithinMemory(m: Machine) {
    var batch, lines := Carried(m.stage), LinesOf(Carried(m.stage));
    && AllShort(m.sh.buf) && AllShort(batch) && AllShort(lines)
    && Size(batch) <= Size(lines) + MAX_FILED
    && Size(lines) < BATCH_BYTES + MAX_FILED
    && Size(m.sh.buf) + Size(lines) < BUFFER_BYTES + BATCH_BYTES + MAX_FILED + StartBytes(m)
  }

  lemma {:induction false} BatchSize(buf: seq<Entry>, bytes: nat)
    requires AllShort(buf) && bytes < BATCH_BYTES + MAX_FILED
    ensures bytes + Size(buf[..BatchLen(buf, bytes)]) < BATCH_BYTES + MAX_FILED
    decreases |buf|
  {
    var n := BatchLen(buf, bytes);
    if n > 0 {
      BatchSize(buf[1..], bytes + |buf[0].data|);
      assert buf[..n][1..] == buf[1..][..n - 1];
    }
  }

  lemma PutShort(s: Shared, data: Bytes)
    requires AllShort(s.buf) && |data| <= MAX_FILED
    ensures AllShort(Put(s, data).buf) && Size(Put(s, data).buf) == Size(s.buf) + |data|
  {
    var line := [Line(|s.accepted|, data)];
    ShortAppend(s.buf, line);
    assert Size(line) == |data| && AllShort(line);
  }

  /** What an append leaves buffered is within the buffer, whatever was there before. */
  lemma AcceptWithin(m: Machine, line: Bytes)
    requires m.sh.bufBytes == Size(m.sh.buf) && WithinMemory(m) && |line| <= MAX_FILED
    ensures WithinMemory(Step(m, Event.Accept(line)))
    ensures Size(Step(m, Event.Accept(line)).sh.buf) <= BUFFER_BYTES
  {
    var k := EvictsTheLeast(m.sh, |line|);
    ShortAppend(m.sh.buf[..k], m.sh.buf[k..]);
    Parts(m.sh.buf, k);
    PutShort(Evict(m.sh, |line|), line);
  }

  lemma TakeWithin(m: Machine)
    requires Conserved(m) && WithinMemory(m) && Can(m, Take)
    ensures WithinMemory(Step(m, Take))
  {
    var n := BatchLen(m.sh.buf, 0);
    BatchSize(m.sh.buf, 0);
    ShortAppend(m.sh.buf[..n], m.sh.buf[n..]);
    Parts(m.sh.buf, n);
    TakeKeeps(m);
    LinesOfAll(m.sh.buf[..n]);
  }

  lemma AddMarkerWithin(m: Machine, data: Bytes)
    requires StageShape(m.stage) && WithinMemory(m) && Can(m, AddMarker(data)) && |data| <= MAX_FILED
    ensures WithinMemory(Step(m, AddMarker(data)))
  {
    var batch, marker := m.stage.batch, [Marker(m.stage.count, data)];
    LinesOfAll(batch);
    assert (marker + batch)[1..] == batch;
    LinesOfBatch(marker + batch, m.stage.count);
    ShortAppend(marker, batch);
    assert Size(marker) == |data| && AllShort(marker);
  }

  /** What comes back from a write is no more than the lines that went into it. */
  lemma BackInFront(batch: seq<Entry>, written: nat, marked: nat, buf: seq<Entry>)
    requires BatchShape(batch, marked) && AllShort(LinesOf(batch)) && AllShort(buf)
    ensures AllShort(Unwritten(batch, written, marked) + buf)
    ensures Size(Unwritten(batch, written, marked) + buf) <= Size(LinesOf(batch)) + Size(buf)
  {
    SegmentsOfBatch(batch, written, marked);
    ShortAppend(Filed(Segments(batch, written)), Unwritten(batch, written, marked));
    ShortAppend(Unwritten(batch, written, marked), buf);
  }

  lemma StepWithin(m: Machine, e: Event)
    requires Conserved(m) && WithinMemory(m) && Can(m, e) && Short(e)
    ensures WithinMemory(Step(m, e))
  {
    match e
    case Accept(line) => AcceptWithin(m, line);
    case StartLine(data) => PutShort(m.sh, data);
    case Take => TakeWithin(m);
    case AddMarker(data) => AddMarkerWithin(m, data);
    case Requeue => BackInFront(m.stage.batch, m.stage.written, m.stage.marked, m.sh.buf);
    case _ => OtherWithin(m, e);
  }

  lemma OtherWithin(m: Machine, e: Event)
    requires WithinMemory(m) && Can(m, e)
    requires e.GiveBack? || e.Proceed? || e.Write? || e.Settle? || e.Prune?
    ensures WithinMemory(Step(m, e))
  {
    var t := Step(m, e);
    assert t.sh.buf == m.sh.buf && t.started == m.started;
    assert Carried(t.stage) == Carried(m.stage) || Carried(t.stage) == [];
  }

  lemma {:induction false} RunWithin(m: Machine, es: seq<Event>)
    requires Conserved(m) && WithinMemory(m) && CanRun(m, es) && Bounded(es)
    ensures WithinMemory(Run(m, es))
    decreases |es|
  {
    if es != [] {
      StepKeeps(m, es[0]);
      StepWithin(m, es[0]);
      RunWithin(Step(m, es[0]), es[1..]);
    }
  }

  /**
   However fast the reader is and whatever fails: the bytes buffered and those of the batch the
   writer holds stay under the buffer, a batch, one capped record, the start line and a marker.
   */
  lemma EveryRunFitsInMemory(live: Bytes, archives: Archives, es: seq<Event>)
    requires CanRun(Start(live, archives), es) && Bounded(es)
    ensures var m := Run(Start(live, archives), es);
            m.sh.bufBytes + Size(Carried(m.stage)) < BUFFER_BYTES + BATCH_BYTES + MAX_FILED + StartBytes(m) + MAX_FILED
  {
    StartConserves(live, archives);
    RunWithin(Start(live, archives), es);
    RunKeeps(Start(live, archives), es);
  }
}
