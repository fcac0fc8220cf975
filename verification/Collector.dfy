/**
 The collector's bounded buffer and its writer (`reader`'s locked region, `_enqueue`, `_drain`,
 `_requeue`, `_write_batch`), first as functions on the fields the lock protects, then as the
 class that updates them.

 An entry carries the number of the accept that made it: two lines with the same bytes are two
 entries of the deque. Nothing the collector does looks at that number.
 */
module Collector {
  import opened ByteStrings

  const BATCH_BYTES: nat := 128 * 1024
  const BUFFER_BYTES: nat := 2 * 1024 * 1024

  datatype Entry =
    | Line(no: nat, data: Bytes)
    | Marker(count: nat, data: Bytes)

  /** The fields under `_lock`, and every line accepted so far. */
  datatype Shared = Shared(buf: seq<Entry>, bufBytes: int, dropped: nat, accepted: seq<Bytes>)

  function Size(entries: seq<Entry>): nat {
    if entries == [] then 0 else |entries[0].data| + Size(entries[1..])
  }

  function Data(entries: seq<Entry>): Bytes {
    if entries == [] then [] else entries[0].data + Data(entries[1..])
  }

  /** Drop the oldest until `need` more bytes fit or nothing is left. */
  function Evict(s: Shared, need: nat): Shared
    decreases |s.buf|
  {
    if s.bufBytes + need > BUFFER_BYTES && s.buf != [] then
      Evict(s.(buf := s.buf[1..], bufBytes := s.bufBytes - |s.buf[0].data|, dropped := s.dropped + 1), need)
    else s
  }

  function Put(s: Shared, data: Bytes): Shared {
    s.(buf := s.buf + [Line(|s.accepted|, data)], bufBytes := s.bufBytes + |data|, accepted := s.accepted + [data])
  }

  /** How many entries a batch takes off the front, `bytes` being in it already. */
  function BatchLen(buf: seq<Entry>, bytes: nat): (n: nat)
    ensures n <= |buf|
  {
    if buf != [] && bytes < BATCH_BYTES then 1 + BatchLen(buf[1..], bytes + |buf[0].data|) else 0
  }

  function Batch(s: Shared): seq<Entry> {
    s.buf[..BatchLen(s.buf, 0)]
  }

  function AfterTake(s: Shared): Shared {
    s.(buf := s.buf[BatchLen(s.buf, 0)..], bufBytes := s.bufBytes - Size(Batch(s)), dropped := 0)
  }

  /** How many entries of a batch lie wholly in its first `written` bytes. */
  function WholeCount(batch: seq<Entry>, written: nat): (n: nat)
    ensures n <= |batch|
  {
    if batch == [] || written < |batch[0].data| then 0
    else 1 + WholeCount(batch[1..], written - |batch[0].data|)
  }

  /** What goes back to the front of the buffer after a failed write. */
  function Unwritten(batch: seq<Entry>, written: nat, markerCount: nat): seq<Entry> {
    var rest := batch[WholeCount(batch, written)..];
    if markerCount > 0 && |rest| == |batch| > 0 then rest[1..] else rest
  }

  function AfterRequeue(s: Shared, batch: seq<Entry>, written: nat, markerCount: nat): Shared {
    var rest := Unwritten(batch, written, markerCount);
    s.(buf := rest + s.buf, bufBytes := s.bufBytes + Size(rest),
       dropped := s.dropped + if markerCount > 0 && WholeCount(batch, written) == 0 && batch != [] then markerCount else 0)
  }

  /** `_tail_open` after a write attempt that got `written` bytes of `data` out. */
  function TailOpen(data: Bytes, written: nat, ok: bool): bool
    requires written <= |data|
  {
    if ok then !EndsLine(data) else written > 0 && !EndsLine(data[..written])
  }

  lemma {:induction false} SizeAppend(a: seq<Entry>, b: seq<Entry>)
    ensures Size(a + b) == Size(a) + Size(b)
  {
    if a == [] {
      assert a + b == b;
    } else {
      assert (a + b)[1..] == a[1..] + b;
      SizeAppend(a[1..], b);
    }
  }

  /**
   An eviction takes the oldest entries, and no more of them than it must: either what is left and
   the new bytes fit, or nothing is left; and with one entry fewer gone they would not have fitted.
   */
  lemma {:induction false} EvictsTheLeast(s: Shared, need: nat) returns (k: nat)
    requires s.bufBytes == Size(s.buf)
    ensures k <= |s.buf|
    ensures Evict(s, need) == s.(buf := s.buf[k..], bufBytes := Size(s.buf[k..]), dropped := s.dropped + k)
    ensures k == |s.buf| || Size(s.buf[k..]) + need <= BUFFER_BYTES
    ensures k > 0 ==> Size(s.buf[k - 1..]) + need > BUFFER_BYTES
    decreases |s.buf|
  {
    k := 0;
    if s.bufBytes + need > BUFFER_BYTES && s.buf != [] {
      var rest := s.(buf := s.buf[1..], bufBytes := s.bufBytes - |s.buf[0].data|, dropped := s.dropped + 1);
      var n := EvictsTheLeast(rest, need);
      k := n + 1;
      Slices(s.buf, 1, k);
      if n > 0 {
        Slices(s.buf, 1, n);
      }
    }
  }

  /** A batch is the shortest front of the buffer that reaches the batch size, or all of it. */
  lemma {:induction false} BatchIsTheShortest(buf: seq<Entry>, bytes: nat)
    requires bytes < BATCH_BYTES
    ensures var n := BatchLen(buf, bytes);
            && (n == |buf| || bytes + Size(buf[..n]) >= BATCH_BYTES)
            && (n > 0 ==> bytes + Size(buf[..n - 1]) < BATCH_BYTES)
    decreases |buf|
  {
    if buf != [] {
      var n, next := BatchLen(buf, bytes), bytes + |buf[0].data|;
      assert buf[..n][1..] == buf[1..][..n - 1];
      if next < BATCH_BYTES {
        BatchIsTheShortest(buf[1..], next);
        if n > 1 {
          assert buf[..n - 1][1..] == buf[1..][..n - 2];
        }
      } else {
        assert BatchLen(buf[1..], next) == 0;
        assert buf[..n - 1] == [];
      }
    }
  }

  /** Written whole: as many entries as fit in the bytes written. */
  lemma {:induction false} WholeCountIsTheMost(batch: seq<Entry>, written: nat)
    ensures var k := WholeCount(batch, written);
            Size(batch[..k]) <= written && (k < |batch| ==> Size(batch[..k + 1]) > written)
    decreases |batch|
  {
    if batch != [] {
      var k := WholeCount(batch, written);
      if written < |batch[0].data| {
        assert batch[..1][1..] == [];
      } else {
        WholeCountIsTheMost(batch[1..], written - |batch[0].data|);
        assert batch[..k][1..] == batch[1..][..k - 1];
        if k < |batch| {
          assert batch[..k + 1][1..] == batch[1..][..k];
        }
      }
    }
  }

  class LogCollector {
    var buf: seq<Entry>
    var bufBytes: int
    var dropped: nat
    var tailOpen: bool
    var live: Bytes
    var accepted: seq<Bytes>  // for the statements only: every line accepted

    ghost function View(): Shared
      reads this
    {
      Shared(buf, bufBytes, dropped, accepted)
    }

    constructor ()
      ensures View() == Shared([], 0, 0, []) && !tailOpen && live == []
    {
      buf, bufBytes, dropped, tailOpen, live, accepted := [], 0, 0, false, [], [];
    }

    /** The reader's locked region. */
    method Accept(line: Bytes) returns (over: bool)
      modifies this`buf, this`bufBytes, this`dropped, this`accepted
      ensures View() == Put(Evict(old(View()), |line|), line)
      ensures over <==> bufBytes >= BATCH_BYTES
    {
      while bufBytes + |line| > BUFFER_BYTES && buf != []
        invariant Evict(View(), |line|) == Evict(old(View()), |line|)
        invariant accepted == old(accepted)
        decreases |buf|
      {
        var oldest := buf[0];
        buf := buf[1..];
        bufBytes := bufBytes - |oldest.data|;
        dropped := dropped + 1;
      }
      var no := |accepted|;
      buf := buf + [Line(no, line)];
      bufBytes := bufBytes + |line|;
      accepted := accepted + [line];
      over := bufBytes >= BATCH_BYTES;
    }

    /** `_enqueue` */
    method Enqueue(data: Bytes)
      modifies this`buf, this`bufBytes, this`accepted
      ensures View() == Put(old(View()), data)
    {
      var no := |accepted|;
      buf := buf + [Line(no, data)];
      bufBytes := bufBytes + |data|;
      accepted := accepted + [data];
    }

    /** The first locked region of `_drain`. */
    method TakeBatch() returns (batch: seq<Entry>, taken: nat)
      modifies this`buf, this`bufBytes, this`dropped
      ensures batch == Batch(old(View())) && taken == old(dropped)
      ensures View() == AfterTake(old(View()))
    {
      batch := [];
      var batchBytes := 0;
      ghost var n := BatchLen(buf, 0);
      while buf != [] && batchBytes < BATCH_BYTES
        invariant batch + buf == old(buf) && batchBytes == Size(batch)
        invariant |batch| + BatchLen(buf, batchBytes) == n
        invariant bufBytes == old(bufBytes) && dropped == old(dropped)
        decreases |buf|
      {
        var item := buf[0];
        SizeAppend(batch, [item]);
        assert Size([item]) == |item.data|;
        buf := buf[1..];
        batch := batch + [item];
        batchBytes := batchBytes + |item.data|;
      }
      assert batch == old(buf)[..n] && buf == old(buf)[n..];
      bufBytes := bufBytes - batchBytes;
      taken, dropped := dropped, 0;
    }

    /** The second one: a marker that may not be written yet goes back into the counter. */
    method GiveBack(count: nat)
      modifies this`dropped
      ensures View() == old(View()).(dropped := old(dropped) + count)
    {
      dropped := dropped + count;
    }

    method Requeue(batch: seq<Entry>, written: nat, markerCount: nat)
      modifies this`buf, this`bufBytes, this`dropped
      ensures View() == AfterRequeue(old(View()), batch, written, markerCount)
    {
      var idx, left := 0, written;
      while idx < |batch| && left >= |batch[idx].data|
        invariant 0 <= idx <= |batch| && 0 <= left
        invariant idx + WholeCount(batch[idx..], left) == WholeCount(batch, written)
      {
        assert batch[idx..][1..] == batch[idx + 1..];
        left := left - |batch[idx].data|;
        idx := idx + 1;
      }
      var remainder := batch[idx..];
      if markerCount > 0 && idx == 0 && remainder != [] {
        remainder := remainder[1..];
        dropped := dropped + markerCount;
      }
      buf := remainder + buf;
      bufBytes := bufBytes + Size(remainder);
    }

    /**
     `_write_batch`: each number of `writes` is how much one `os.write` takes; a 0, or the end
     of the list, is the OSError that ends the attempt. `canOpen` is whether opening worked.
     */
    method WriteBatch(batch: seq<Entry>, canOpen: bool, writes: seq<nat>) returns (ok: bool, written: nat)
      modifies this`live, this`tailOpen
      ensures written <= |Data(batch)| && (ok ==> written == |Data(batch)|)
      ensures live == old(live) + Data(batch)[..written]
      ensures tailOpen == TailOpen(Data(batch), written, ok)
    {
      var data := Data(batch);
      written := 0;
      var next := 0;
      ok := canOpen;
      assert data[..0] == [];
      while ok && written < |data|
        invariant 0 <= written <= |data| && 0 <= next <= |writes|
        invariant live == old(live) + data[..written]
        decreases ok, |data| - written
      {
        if next == |writes| || writes[next] == 0 {
          ok := false;
        } else {
          var n := if writes[next] <= |data| - written then writes[next] else |data| - written;
          assert data[..written + n] == data[..written] + data[written..written + n];
          live := live + data[written..written + n];
          written := written + n;
          next := next + 1;
        }
      }
      tailOpen := if ok then !EndsLine(data) else written > 0 && !EndsLine(data[..written]);
    }
  }
}
