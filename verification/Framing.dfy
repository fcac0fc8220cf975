/**
 The reader thread: stdin is read in chunks, each physical line is normalised and forwarded
 whole, and records of capped length go to the file side (`Collector.reader`).

 `norm(i, chunk)` stands for what `_normalize` makes of the first chunk of line `i`, and
 `persist(i, p)` for the persist setting when the reader looks at it for piece `p` of line `i`; both
 may depend on anything that happened before, so they are arbitrary functions of these numbers.
 */
module Framing {
  import opened ByteStrings
  import opened RecordCap

  const MAX_LINE_BYTES: nat := 256 * 1024

  type Normalizer = (nat, Bytes) -> Bytes

  type Setting = (nat, nat) -> bool

  /** The length of the physical line `s` starts with, its newline included. */
  function LineLen(s: Bytes): (n: nat)
    ensures n <= |s| && (s != [] ==> n > 0)
    ensures forall i :: 0 <= i < n - 1 ==> s[i] != NEWLINE
    ensures n < |s| ==> s[n - 1] == NEWLINE
  {
    if s == [] then 0 else if s[0] == NEWLINE then 1 else 1 + LineLen(s[1..])
  }

  /** `stream.readline(limit)` on a stream that still holds `s`. */
  function ReadLine(s: Bytes, limit: nat): Bytes {
    if LineLen(s) <= limit then s[..LineLen(s)] else s[..limit]
  }

  /** The physical lines of the input. */
  function Lines(s: Bytes): seq<Bytes>
    decreases |s|
  {
    if s == [] then [] else [s[..LineLen(s)]] + Lines(s[LineLen(s)..])
  }

  function Head(line: Bytes): Bytes {
    if |line| <= MAX_LINE_BYTES then line else line[..MAX_LINE_BYTES]
  }

  function Tail(line: Bytes): Bytes {
    line[|Head(line)|..]
  }

  /** The one record the file side gets for a line. */
  function RecordOf(normalised: Bytes): Bytes {
    if |normalised| > MAX_RECORD_BYTES then Capped(normalised) else normalised
  }

  /** What a sequence of lines, numbered from `i`, is to be forwarded as. */
  function Forwarded(lines: seq<Bytes>, i: nat, norm: Normalizer): Bytes {
    if lines == [] then []
    else norm(i, Head(lines[0])) + Tail(lines[0]) + Forwarded(lines[1..], i + 1, norm)
  }

  /** The rest of a long line, in the pieces it is read in. */
  function Chunks(rest: Bytes): seq<Bytes> {
    if rest == [] then []
    else if |rest| <= MAX_LINE_BYTES then [rest]
    else [rest[..MAX_LINE_BYTES]] + Chunks(rest[MAX_LINE_BYTES..])
  }

  /** The pieces of line `i`, from number `p` on, that are met with persist on. */
  function Persisted(chunks: seq<Bytes>, i: nat, p: nat, persist: Setting): seq<Bytes> {
    if chunks == [] then []
    else (if persist(i, p) then [chunks[0]] else []) + Persisted(chunks[1..], i, p + 1, persist)
  }

  /** The records of the rest of a line: none if it is oversize. */
  function PiecesRest(rest: Bytes, overrun: bool, i: nat, p: nat, persist: Setting): seq<Bytes> {
    if overrun then [] else Persisted(Chunks(rest), i, p, persist)
  }

  /**
   The records line `i` is filed as: its first piece, capped, stands for all of it if it is oversize
   once normalised; otherwise each further piece is a record too.
   */
  function RecordsOf(line: Bytes, normalised: Bytes, i: nat, persist: Setting): seq<Bytes> {
    (if persist(i, 0) then [RecordOf(normalised)] else [])
    + PiecesRest(Tail(line), |normalised| > MAX_RECORD_BYTES, i, 1, persist)
  }

  /** The records those lines are to be filed as. */
  function Filed(lines: seq<Bytes>, i: nat, norm: Normalizer, persist: Setting): seq<Bytes> {
    if lines == [] then []
    else RecordsOf(lines[0], norm(i, Head(lines[0])), i, persist) + Filed(lines[1..], i + 1, norm, persist)
  }

  /** Normalising swaps a stamp for a stamp: a full chunk never shrinks below the record cap. */
  ghost predicate KeepsLongLinesLong(norm: Normalizer) {
    forall i: nat, c: Bytes :: |c| == MAX_LINE_BYTES ==> |norm(i, c)| > MAX_RECORD_BYTES
  }

  /** No byte of the input falls between two lines. */
  lemma {:induction false} LinesJoin(s: Bytes)
    ensures Join(Lines(s)) == s
    decreases |s|
  {
    if s != [] {
      LinesJoin(s[LineLen(s)..]);
      assert s == s[..LineLen(s)] + s[LineLen(s)..];
    }
  }

  lemma {:induction false} LineLenSkip(s: Bytes, k: nat)
    requires k <= LineLen(s)
    requires k < LineLen(s) || (s != [] ==> s[k - 1] != NEWLINE)
    ensures LineLen(s[k..]) == LineLen(s) - k
  {
    if k == 0 {
      assert s[0..] == s;
    } else {
      assert s[1..][k - 1..] == s[k..];
      LineLenSkip(s[1..], k - 1);
    }
  }

  method Reader(input: Bytes, norm: Normalizer, persist: Setting)
    returns (filed: seq<Bytes>, forwarded: Bytes)
    ensures filed == Filed(Lines(input), 0, norm, persist)
    ensures forwarded == Forwarded(Lines(input), 0, norm)
  {
    filed, forwarded := [], [];
    var stream, at := input, At(0, 0, 0);
    var midLine, overrun := false, false;
    ghost var rest: Bytes, later := [], Lines(input);
    ghost var all := Work(Filed(later, 0, norm, persist), Forwarded(later, 0, norm));
    Nothing(all.filed);
    Nothing(all.forwarded);
    while stream != []
      invariant Ahead(stream, midLine, rest, later)
      invariant Accounted(all, Work(filed, forwarded), rest, later, overrun, at, norm, persist)
      decreases |stream|
    {
      var chunk := ReadLine(stream, MAX_LINE_BYTES);
      ghost var rest', later' := ReadStep(stream, midLine, rest, later);
      Advance(all, Work(filed, forwarded), chunk, midLine, rest, later, rest', later', overrun, at, norm, persist);
      rest, later := rest', later';
      stream := stream[|chunk|..];
      var more := !EndsLine(chunk);
      var tail := midLine;
      var line := chunk;
      if !midLine {
        line := norm(at.next, chunk);
        overrun := |line| > MAX_RECORD_BYTES;
      }
      var persisted := IsPersisted(at, midLine, persist);
      at := ReadOn(at, midLine);
      midLine := more;
      forwarded := forwarded + line;
      if overrun {
        if tail {
          continue;
        }
        line := CapRecord(line);
      }
      if !persisted {
        continue;
      }
      filed := filed + [line];
    }
    assert rest == [] && later == [];
  }

  /** The number of the next line, of the line the reader is in, and of the next piece of that one. */
  datatype At = At(next: nat, line: nat, piece: nat)

  function ReadOn(at: At, midLine: bool): At {
    if midLine then at.(piece := at.piece + 1) else At(at.next + 1, at.next, 1)
  }

  predicate IsPersisted(at: At, midLine: bool, persist: Setting) {
    if midLine then persist(at.line, at.piece) else persist(at.next, 0)
  }

  /** What the reader puts out: the records it files and the bytes it forwards. */
  datatype Work = Work(filed: seq<Bytes>, forwarded: Bytes)

  /** The rest of the line the reader is in, and the lines after it. */
  predicate Ahead(stream: Bytes, midLine: bool, rest: Bytes, later: seq<Bytes>) {
    rest == RestOfLine(stream, midLine) && later == Lines(AfterLine(stream, midLine))
  }

  /** What has been put out, and what these are to give, make up all of it. */
  predicate Accounted(all: Work, done: Work, rest: Bytes, later: seq<Bytes>, overrun: bool, at: At,
                      norm: Normalizer, persist: Setting) {
    && done.filed + (PiecesRest(rest, overrun, at.line, at.piece, persist) + Filed(later, at.next, norm, persist)) == all.filed
    && done.forwarded + (rest + Forwarded(later, at.next, norm)) == all.forwarded
  }

  /** What is left of the physical line the reader is in the middle of. */
  function RestOfLine(stream: Bytes, midLine: bool): Bytes {
    if midLine then stream[..LineLen(stream)] else []
  }

  /** The input past that line. */
  function AfterLine(stream: Bytes, midLine: bool): Bytes {
    if midLine then stream[LineLen(stream)..] else stream
  }

  /** Reading on in the middle of a line. */
  lemma ChunkStep(s: Bytes)
    requires s != []
    ensures var chunk := ReadLine(s, MAX_LINE_BYTES);
            var stream, more := s[|chunk|..], !EndsLine(chunk);
            && chunk != []
            && |chunk| <= |s|
            && RestOfLine(s, true) == chunk + RestOfLine(stream, more)
            && AfterLine(s, true) == AfterLine(stream, more)
  {
    var n := LineLen(s);
    var chunk := ReadLine(s, MAX_LINE_BYTES);
    var k := |chunk|;
    if EndsLine(chunk) {
      assert s[k - 1] == NEWLINE;
      assert k == n;
    } else {
      LineLenSkip(s, k);
      assert s[..n] == s[..k] + s[k..][..n - k];
      assert s[n..] == s[k..][n - k..];
    }
  }

  /** `chunk` is the next piece read: of the line the reader is in, or the first of the next one. */
  predicate IsRead(chunk: Bytes, midLine: bool, rest: Bytes, later: seq<Bytes>, rest': Bytes, later': seq<Bytes>) {
    if midLine then rest == chunk + rest' && later == later' && Chunks(rest) == [chunk] + Chunks(rest')
    else
      && rest == [] && later == [chunk + rest'] + later'
      && Head(chunk + rest') == chunk && Tail(chunk + rest') == rest'
  }

  lemma ReadStep(s: Bytes, midLine: bool, rest: Bytes, later: seq<Bytes>) returns (rest': Bytes, later': seq<Bytes>)
    requires s != [] && Ahead(s, midLine, rest, later)
    ensures var chunk := ReadLine(s, MAX_LINE_BYTES);
            && 0 < |chunk| <= |s|
            && Ahead(s[|chunk|..], !EndsLine(chunk), rest', later')
            && IsRead(chunk, midLine, rest, later, rest', later')
  {
    ChunkStep(s);
    var chunk := ReadLine(s, MAX_LINE_BYTES);
    var stream, more := s[|chunk|..], !EndsLine(chunk);
    rest', later' := RestOfLine(stream, more), Lines(AfterLine(stream, more));
    if midLine {
      ChunksStep(s);
    } else {
      assert s[..LineLen(s)] == RestOfLine(s, true);
    }
  }

  /** The next piece of a long line. */
  lemma ChunksStep(s: Bytes)
    requires s != []
    ensures var chunk := ReadLine(s, MAX_LINE_BYTES);
            Chunks(RestOfLine(s, true)) == [chunk] + Chunks(RestOfLine(s[|chunk|..], !EndsLine(chunk)))
  {
    ChunkStep(s);
    var chunk := ReadLine(s, MAX_LINE_BYTES);
    var line, rest := RestOfLine(s, true), RestOfLine(s[|chunk|..], !EndsLine(chunk));
    if |line| <= MAX_LINE_BYTES {
      assert rest == [];
    } else {
      assert line[..MAX_LINE_BYTES] == chunk && line[MAX_LINE_BYTES..] == rest;
    }
  }

  lemma Nothing<T>(s: seq<T>)
    ensures [] + s == s && [] + ([] + s) == s
  {
  }

  /** The records so far, and the one, if any, that what has just been read makes. */
  function Added(filed: seq<Bytes>, midLine: bool, overrun: bool, line: Bytes, persisted: bool): seq<Bytes> {
    if !persisted || (midLine && overrun) then filed
    else filed + [if midLine then line else RecordOf(line)]
  }

  /** Whether that line is oversize. */
  function Overruns(midLine: bool, overrun: bool, line: Bytes): bool {
    if midLine then overrun else |line| > MAX_RECORD_BYTES
  }

  /** One record more, or none, moved from what is to come to what is done. */
  lemma MoveOver(done: seq<Bytes>, record: Bytes, makes: bool, pieces: seq<Bytes>, rest: seq<Bytes>)
    ensures done + (((if makes then [record] else []) + pieces) + rest)
         == (if makes then done + [record] else done) + (pieces + rest)
  {
    if makes {
      Assoc([record], pieces, rest);
      Assoc(done, [record], pieces + rest);
    } else {
      assert [] + pieces == pieces;
    }
  }

  lemma TailFiled(done: seq<Bytes>, chunk: Bytes, rest: Bytes, rest': Bytes, f: seq<Bytes>, overrun: bool, i: nat, p: nat, persist: Setting)
    requires Chunks(rest) == [chunk] + Chunks(rest')
    ensures done + (PiecesRest(rest, overrun, i, p, persist) + f)
         == (if !overrun && persist(i, p) then done + [chunk] else done) + (PiecesRest(rest', overrun, i, p + 1, persist) + f)
  {
    assert ([chunk] + Chunks(rest'))[1..] == Chunks(rest');
    assert PiecesRest(rest, overrun, i, p, persist)
        == (if !overrun && persist(i, p) then [chunk] else []) + PiecesRest(rest', overrun, i, p + 1, persist);
    MoveOver(done, chunk, !overrun && persist(i, p), PiecesRest(rest', overrun, i, p + 1, persist), f);
  }

  lemma LineFiled(done: seq<Bytes>, chunk: Bytes, line: Bytes, later': seq<Bytes>, i: nat, norm: Normalizer, persist: Setting)
    requires Head(line) == chunk
    ensures var normalised := norm(i, chunk);
            done + Filed([line] + later', i, norm, persist)
            == (if persist(i, 0) then done + [RecordOf(normalised)] else done)
               + (PiecesRest(Tail(line), |normalised| > MAX_RECORD_BYTES, i, 1, persist) + Filed(later', i + 1, norm, persist))
  {
    assert ([line] + later')[1..] == later';
    var normalised := norm(i, chunk);
    MoveOver(done, RecordOf(normalised), persist(i, 0),
             PiecesRest(Tail(line), |normalised| > MAX_RECORD_BYTES, i, 1, persist), Filed(later', i + 1, norm, persist));
  }

  lemma LineForwarded(done: Bytes, chunk: Bytes, line: Bytes, later': seq<Bytes>, i: nat, norm: Normalizer)
    requires Head(line) == chunk
    ensures done + Forwarded([line] + later', i, norm)
         == done + norm(i, chunk) + (Tail(line) + Forwarded(later', i + 1, norm))
  {
    assert ([line] + later')[1..] == later';
    Assoc(norm(i, chunk), Tail(line), Forwarded(later', i + 1, norm));
    Assoc(done, norm(i, chunk), Tail(line) + Forwarded(later', i + 1, norm));
  }

  /** Whatever is read next, the reader owes that much less. */
  lemma Advance(all: Work, done: Work, chunk: Bytes, midLine: bool, rest: Bytes, later: seq<Bytes>, rest': Bytes, later': seq<Bytes>,
                overrun: bool, at: At, norm: Normalizer, persist: Setting)
    requires Accounted(all, done, rest, later, overrun, at, norm, persist)
    requires IsRead(chunk, midLine, rest, later, rest', later')
    ensures var line := if midLine then chunk else norm(at.next, chunk);
            Accounted(all, Work(Added(done.filed, midLine, overrun, line, IsPersisted(at, midLine, persist)), done.forwarded + line),
                      rest', later', Overruns(midLine, overrun, line), ReadOn(at, midLine), norm, persist)
  {
    if midLine {
      TailFiled(done.filed, chunk, rest, rest', Filed(later, at.next, norm, persist), overrun, at.line, at.piece, persist);
      Assoc(chunk, rest', Forwarded(later, at.next, norm));
      Assoc(done.forwarded, chunk, rest' + Forwarded(later, at.next, norm));
    } else {
      Nothing(Filed(later, at.next, norm, persist));
      Nothing(Forwarded(later, at.next, norm));
      LineFiled(done.filed, chunk, chunk + rest', later', at.next, norm, persist);
      LineForwarded(done.forwarded, chunk, chunk + rest', later', at.next, norm);
    }
  }

  /** A line longer than a read chunk is still oversize once normalised. */
  predicate StaysLong(line: Bytes, i: nat, norm: Normalizer) {
    |line| > MAX_LINE_BYTES ==> |norm(i, Head(line))| > MAX_RECORD_BYTES
  }

  lemma {:induction false} AllPersisted(chunks: seq<Bytes>, i: nat, p: nat, persist: Setting)
    requires forall k: nat, q: nat :: persist(k, q)
    ensures Persisted(chunks, i, p, persist) == chunks
  {
    if chunks != [] {
      AllPersisted(chunks[1..], i, p + 1, persist);
    }
  }

  lemma OneRecordIff(line: Bytes, normalised: Bytes, i: nat, persist: Setting)
    requires forall k: nat, q: nat :: persist(k, q)
    ensures |RecordsOf(line, normalised, i, persist)| >= 1
    ensures |RecordsOf(line, normalised, i, persist)| == 1 <==> |line| <= MAX_LINE_BYTES || |normalised| > MAX_RECORD_BYTES
  {
    AllPersisted(Chunks(Tail(line)), i, 1, persist);
  }

  predicate AllStayLong(lines: seq<Bytes>, i: nat, norm: Normalizer) {
    lines == [] || (StaysLong(lines[0], i, norm) && AllStayLong(lines[1..], i + 1, norm))
  }

  lemma {:induction false} AllStayLongMeans(lines: seq<Bytes>, i: nat, norm: Normalizer)
    ensures AllStayLong(lines, i, norm) <==> forall k :: 0 <= k < |lines| ==> StaysLong(lines[k], i + k, norm)
  {
    if lines != [] {
      var rest := lines[1..];
      AllStayLongMeans(rest, i + 1, norm);
      if AllStayLong(lines, i, norm) {
        forall k | 0 <= k < |lines| ensures StaysLong(lines[k], i + k, norm) {
          assert k > 0 ==> StaysLong(rest[k - 1], i + 1 + (k - 1), norm);
        }
      } else if StaysLong(lines[0], i + 0, norm) {
        var k :| 0 <= k < |rest| && !StaysLong(rest[k], i + 1 + k, norm);
        assert !StaysLong(lines[k + 1], i + (k + 1), norm);
      }
    }
  }

  lemma {:induction false} OneRecordEach(lines: seq<Bytes>, i: nat, norm: Normalizer, persist: Setting)
    requires forall k: nat, q: nat :: persist(k, q)
    ensures |Filed(lines, i, norm, persist)| >= |lines|
    ensures |Filed(lines, i, norm, persist)| == |lines| <==> AllStayLong(lines, i, norm)
  {
    if lines != [] {
      OneRecordEach(lines[1..], i + 1, norm, persist);
      OneRecordIff(lines[0], norm(i, Head(lines[0])), i, persist);
    }
  }

  /**
   Every line is filed as exactly one record, exactly when no line longer than a read chunk comes
   out of the normaliser at or under the record cap.
   */
  lemma {:induction false} OneRecordEachIff(lines: seq<Bytes>, i: nat, norm: Normalizer, persist: Setting)
    requires forall k: nat, q: nat :: persist(k, q)
    ensures |Filed(lines, i, norm, persist)| >= |lines|
    ensures |Filed(lines, i, norm, persist)| == |lines| <==> forall k :: 0 <= k < |lines| ==> StaysLong(lines[k], i + k, norm)
  {
    OneRecordEach(lines, i, norm, persist);
    AllStayLongMeans(lines, i, norm);
  }

  /** Every record filed fits the cap and its marker, and an oversize one ends its line. */
  lemma {:induction false} FiledShape(lines: seq<Bytes>, i: nat, norm: Normalizer, persist: Setting)
    requires KeepsLongLinesLong(norm)
    ensures forall d :: d in Filed(lines, i, norm, persist) ==> |d| <= MAX_RECORD_BYTES + 58
    ensures forall d :: d in Filed(lines, i, norm, persist) && |d| > MAX_RECORD_BYTES ==> EndsLine(d)
  {
    if lines != [] {
      var normalised := norm(i, Head(lines[0]));
      if |normalised| > MAX_RECORD_BYTES {
        CappedShape(normalised);
      }
      FiledShape(lines[1..], i + 1, norm, persist);
    }
  }

  // ----- what reaches the file, byte for byte

  /** Each line is its bytes up to and including the first newline; only the last may lack one. */
  lemma {:induction false} LinesShape(s: Bytes, k: nat)
    requires k < |Lines(s)|
    ensures var line := Lines(s)[k];
            && line != [] && (forall i :: 0 <= i < |line| - 1 ==> line[i] != NEWLINE)
            && (k < |Lines(s)| - 1 ==> EndsLine(line))
    decreases |s|
  {
    if k > 0 {
      LinesShape(s[LineLen(s)..], k - 1);
    }
  }

  lemma {:induction false} ChunksJoin(rest: Bytes)
    ensures Join(Chunks(rest)) == rest
  {
    if |rest| > MAX_LINE_BYTES {
      ChunksJoin(rest[MAX_LINE_BYTES..]);
    } else if rest != [] {
      assert Chunks(rest)[1..] == [];
    }
  }

  /** The part of a line `_normalize` sees. */
  function Seen(line: Bytes): Bytes {
    line[..if |line| <= MAX_LINE_BYTES then |line| else MAX_LINE_BYTES]
  }

  /** What a normalised first chunk is filed as: itself, or a cut of it if it is over the cap. */
  predicate FiledAs(normalised: Bytes, record: Bytes) {
    if |normalised| <= MAX_RECORD_BYTES then record == normalised
    else |record| >= 58 && IsCut(normalised, record, |record| - 58)
  }

  lemma OneRecord(line: Bytes, normalised: Bytes, i: nat, persist: Setting)
    requires persist(i, 0) && (|line| <= MAX_LINE_BYTES || |normalised| > MAX_RECORD_BYTES)
    ensures RecordsOf(line, normalised, i, persist) == [RecordOf(normalised)]
    ensures FiledAs(normalised, RecordOf(normalised))
  {
    var rest := PiecesRest(Tail(line), |normalised| > MAX_RECORD_BYTES, i, 1, persist);
    assert rest == [] by {
      assert |line| <= MAX_LINE_BYTES ==> Tail(line) == [];
    }
    assert [RecordOf(normalised)] + [] == [RecordOf(normalised)];
    if |normalised| > MAX_RECORD_BYTES {
      CappedShape(normalised);
    }
  }

  /** With persist on, line `k` makes record `k`: what it is normalised to, cut to the cap if it is longer. */
  lemma {:induction false} FiledAt(lines: seq<Bytes>, i: nat, norm: Normalizer, persist: Setting, k: nat)
    requires forall a: nat, p: nat :: persist(a, p)
    requires AllStayLong(lines, i, norm) && k < |lines|
    ensures |Filed(lines, i, norm, persist)| == |lines|
    ensures FiledAs(norm(i + k, Seen(lines[k])), Filed(lines, i, norm, persist)[k])
  {
    var normalised, rest := norm(i, Head(lines[0])), lines[1..];
    OneRecordEach(lines, i, norm, persist);
    OneRecord(lines[0], normalised, i, persist);
    assert Seen(lines[0]) == Head(lines[0]);
    if k > 0 {
      FiledAt(rest, i + 1, norm, persist, k - 1);
    }
  }

  /** With persist on, as long as nothing is over the cap, the file gets byte for byte what is forwarded. */
  lemma {:induction false} FiledIsForwarded(lines: seq<Bytes>, i: nat, norm: Normalizer, persist: Setting)
    requires forall a: nat, p: nat :: persist(a, p)
    requires forall k :: 0 <= k < |lines| ==> |norm(i + k, Seen(lines[k]))| <= MAX_RECORD_BYTES
    ensures Join(Filed(lines, i, norm, persist)) == Forwarded(lines, i, norm)
  {
    if lines != [] {
      var line, rest := lines[0], lines[1..];
      var normalised := norm(i, Head(line));
      assert Seen(line) == Head(line) && norm(i + 0, Seen(line)) == normalised;
      forall k | 0 <= k < |rest| ensures |norm(i + 1 + k, Seen(rest[k]))| <= MAX_RECORD_BYTES {
        assert |norm(i + (k + 1), Seen(lines[k + 1]))| <= MAX_RECORD_BYTES;
      }
      FiledIsForwarded(rest, i + 1, norm, persist);
      AllPersisted(Chunks(Tail(line)), i, 1, persist);
      var records := RecordsOf(line, normalised, i, persist);
      assert records == [normalised] + Chunks(Tail(line));
      assert Join(records) == normalised + Tail(line) by {
        assert records[1..] == Chunks(Tail(line));
        ChunksJoin(Tail(line));
      }
      JoinAppend(records, Filed(rest, i + 1, norm, persist));
    }
  }

  /** Where normalising changes nothing, the input is forwarded as it is, however long its lines ... */
  lemma {:induction false} ForwardedAsRead(lines: seq<Bytes>, i: nat, norm: Normalizer)
    requires forall k: nat, c: Bytes :: norm(k, c) == c
    ensures Forwarded(lines, i, norm) == Join(lines)
  {
    if lines != [] {
      ForwardedAsRead(lines[1..], i + 1, norm);
      assert Head(lines[0]) + Tail(lines[0]) == lines[0];
    }
  }

  /** ... and, with persist on, filed line by line where none is over the cap. */
  lemma FiledAsRead(input: Bytes, norm: Normalizer, persist: Setting)
    requires forall a: nat, p: nat :: persist(a, p)
    requires forall k: nat, c: Bytes :: norm(k, c) == c
    ensures Forwarded(Lines(input), 0, norm) == input
    ensures (forall line :: line in Lines(input) ==> |line| <= MAX_RECORD_BYTES) ==>
              Filed(Lines(input), 0, norm, persist) == Lines(input)
  {
    var lines := Lines(input);
    ForwardedAsRead(lines, 0, norm);
    LinesJoin(input);
    if forall line :: line in lines ==> |line| <= MAX_RECORD_BYTES {
      assert forall n :: 0 <= n < |lines| ==> lines[n] in lines && StaysLong(lines[n], 0 + n, norm);
      AllStayLongMeans(lines, 0, norm);
      OneRecordEach(lines, 0, norm, persist);
      forall k | 0 <= k < |lines| ensures Filed(lines, 0, norm, persist)[k] == lines[k] {
        FiledAt(lines, 0, norm, persist, k);
      }
    }
  }

  /** A piece that is read while persist is off, and only such a piece, is left out. */
  lemma {:induction false} OffMeansLeftOut(chunks: seq<Bytes>, i: nat, p: nat, persist: Setting, k: nat)
    requires k < |chunks|
    ensures Persisted(chunks, i, p, persist)
         == Persisted(chunks[..k], i, p, persist) + (if persist(i, p + k) then [chunks[k]] else [])
            + Persisted(chunks[k + 1..], i, p + k + 1, persist)
  {
    if k > 0 {
      OffMeansLeftOut(chunks[1..], i, p + 1, persist, k - 1);
      assert chunks[..k][1..] == chunks[1..][..k - 1];
      assert chunks[1..][k..] == chunks[k + 1..];
    }
  }
}
