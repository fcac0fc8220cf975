/**
 Following a log file (`get_log_file`): the cursor a response hands out, and what the next
 request with it is served.
 */
module LogTail {
  import opened ByteStrings

  const MAX_VIEW_BYTES: nat := 24 * 1024 * 1024

  // ----- cursors as text

  function Digit(d: nat): char
    requires d < 10
  {
    '0' + d as char
  }

  /** `str(n)` */
  function Decimal(n: nat): string {
    if n < 10 then [Digit(n)] else Decimal(n / 10) + [Digit(n % 10)]
  }

  predicate IsDecimal(s: string) {
    s != [] && forall i :: 0 <= i < |s| ==> '0' <= s[i] <= '9'
  }

  /** `int(s)` of decimal digits. */
  function ParseNat(s: string): nat
    requires forall i :: 0 <= i < |s| ==> '0' <= s[i] <= '9'
  {
    if s == [] then 0 else 10 * ParseNat(s[..|s| - 1]) + (s[|s| - 1] - '0') as nat
  }

  function Dash(s: string): (n: nat)
    ensures n <= |s| && (n < |s| ==> s[n] == '-') && forall i :: 0 <= i < n ==> s[i] != '-'
  {
    if s == [] || s[0] == '-' then 0 else 1 + Dash(s[1..])
  }

  /** `f"{inode}-{end}"` */
  function Render(inode: nat, end: nat): string {
    Decimal(inode) + "-" + Decimal(end)
  }

  /** The offset a cursor names in the file with this inode, if it names one. */
  function OffsetIn(cursor: string, inode: nat): Option<nat> {
    var n := Dash(cursor);
    var prevEnd := if n < |cursor| then cursor[n + 1..] else "";
    if |prevEnd| < 20 && IsDecimal(prevEnd) && cursor[..n] == Decimal(inode) then Some(ParseNat(prevEnd))
    else None
  }

  lemma {:induction false} DecimalRoundTrip(n: nat)
    ensures IsDecimal(Decimal(n)) && ParseNat(Decimal(n)) == n
  {
    if n >= 10 {
      DecimalRoundTrip(n / 10);
      var s := Decimal(n);
      assert s[..|s| - 1] == Decimal(n / 10);
    } else {
      var s := Decimal(n);
      assert s[..0] == [];
      assert ParseNat(s) == 10 * ParseNat(s[..0]) + n;
    }
  }

  function Pow10(k: nat): nat {
    if k == 0 then 1 else 10 * Pow10(k - 1)
  }

  lemma {:induction false} DecimalLen(n: nat, k: nat)
    requires k > 0 && n < Pow10(k)
    ensures |Decimal(n)| <= k
  {
    if n >= 10 {
      DecimalLen(n / 10, k - 1);
    }
  }

  lemma DecimalInjective(a: nat, b: nat)
    requires Decimal(a) == Decimal(b)
    ensures a == b
  {
    DecimalRoundTrip(a);
    DecimalRoundTrip(b);
  }

  /** A cursor names its offset in its own file and nothing in any other. */
  lemma CursorRoundTrip(inode: nat, end: nat, other: nat)
    requires end < Pow10(19)
    ensures OffsetIn(Render(inode, end), other) == if other == inode then Some(end) else None
  {
    var s := Render(inode, end);
    DecimalRoundTrip(inode);
    DecimalRoundTrip(end);
    DecimalLen(end, 19);
    var k := |Decimal(inode)|;
    assert forall i :: 0 <= i < k ==> s[i] == Decimal(inode)[i];
    DashAt(s, k);
    assert s[..k] == Decimal(inode) && s[k + 1..] == Decimal(end);
    if Decimal(other) == Decimal(inode) {
      DecimalInjective(other, inode);
    }
  }

  lemma {:induction false} DashAt(s: string, k: nat)
    requires k < |s| && s[k] == '-' && forall i :: 0 <= i < k ==> s[i] != '-'
    ensures Dash(s) == k
  {
    if k > 0 {
      DashAt(s[1..], k - 1);
    }
  }

  /** These digits after this inode and a dash. */
  predicate IsCursor(cursor: string, inode: nat, digits: string) {
    cursor == Decimal(inode) + "-" + digits && |digits| < 20 && IsDecimal(digits)
  }

  lemma CursorNames(cursor: string, inode: nat, digits: string)
    requires IsCursor(cursor, inode, digits)
    ensures OffsetIn(cursor, inode) == Some(ParseNat(digits))
  {
    var first := Decimal(inode);
    DecimalRoundTrip(inode);
    assert forall i :: 0 <= i < |first| ==> cursor[i] == first[i];
    DashAt(cursor, |first|);
    assert cursor[..|first|] == first && cursor[|first| + 1..] == digits;
  }

  lemma NamesACursor(cursor: string, inode: nat)
    requires OffsetIn(cursor, inode).Some?
    ensures var digits := cursor[Dash(cursor)..][1..];
            IsCursor(cursor, inode, digits) && OffsetIn(cursor, inode) == Some(ParseNat(digits))
  {
    var n := Dash(cursor);
    assert n < |cursor|;
    assert cursor[n..][1..] == cursor[n + 1..];
    assert cursor == cursor[..n] + "-" + cursor[n + 1..];
  }

  /** Whatever a request sends, it names an offset exactly if it is such a cursor. */
  lemma OffsetInIff(cursor: string, inode: nat, offset: nat)
    ensures OffsetIn(cursor, inode) == Some(offset) <==>
            exists digits :: IsCursor(cursor, inode, digits) && ParseNat(digits) == offset
  {
    if OffsetIn(cursor, inode) == Some(offset) {
      NamesACursor(cursor, inode);
    }
    forall digits | IsCursor(cursor, inode, digits) ensures OffsetIn(cursor, inode) == Some(ParseNat(digits)) {
      CursorNames(cursor, inode, digits);
    }
  }

  // ----- serving

  datatype Response = Response(content: Bytes, cursor: string, reset: bool, truncated: bool)

  /** A record begins at `offset`: the start of the file, or just past a newline. */
  predicate AtLineStart(file: Bytes, offset: nat) {
    offset == 0 || (offset <= |file| && file[offset - 1] == NEWLINE)
  }

  predicate NoNewline(s: Bytes) {
    forall i :: 0 <= i < |s| ==> s[i] != NEWLINE
  }

  /** One past the last newline of `s`, 0 when there is none. */
  function LinesEnd(s: Bytes): (n: nat)
    ensures n <= |s|
  {
    if s == [] || s[|s| - 1] == NEWLINE then |s| else LinesEnd(s[..|s| - 1])
  }

  /** One past the first newline of `s`, 0 when there is none. */
  function FirstLineEnd(s: Bytes): (n: nat)
    ensures n <= |s|
  {
    if s == [] then 0
    else if s[0] == NEWLINE then 1
    else var n := FirstLineEnd(s[1..]); if n == 0 then 0 else n + 1
  }

  lemma {:induction false} LinesEndIsLast(s: Bytes)
    ensures var n := LinesEnd(s);
            AtLineStart(s, n) && NoNewline(s[n..])
  {
    if s != [] && s[|s| - 1] != NEWLINE {
      var t := s[..|s| - 1];
      var n := LinesEnd(t);
      LinesEndIsLast(t);
      assert n > 0 ==> s[n - 1] == t[n - 1];
      assert s[n..] == t[n..] + [s[|s| - 1]];
    } else {
      assert s[|s|..] == [];
    }
  }

  lemma LinesEndUnique(s: Bytes, n: nat)
    requires n <= |s| && AtLineStart(s, n) && NoNewline(s[n..])
    ensures LinesEnd(s) == n
  {
    LinesEndIsLast(s);
  }

  lemma {:induction false} FirstLineEndIsFirst(s: Bytes)
    ensures var n := FirstLineEnd(s);
            if n == 0 then NoNewline(s) else s[n - 1] == NEWLINE && NoNewline(s[..n - 1])
  {
    if s != [] && s[0] != NEWLINE {
      FirstLineEndIsFirst(s[1..]);
    }
  }

  /** Where a request resumes: its cursor's offset, if that begins a record of this file. */
  function Resume(file: Bytes, inode: nat, cursor: string): Option<nat> {
    var offset := OffsetIn(cursor, inode);
    if offset.Some? && AtLineStart(file, offset.value) then offset else None
  }

  function OrZero(from: Option<nat>): nat {
    if from.Some? then from.value else 0
  }

  /** Where the response to a request resuming at `from` starts. */
  function StartOf(file: Bytes, size: nat, from: Option<nat>): nat
    requires size <= |file|
  {
    if size - OrZero(from) <= MAX_VIEW_BYTES then OrZero(from)
    else
      var cut := size - MAX_VIEW_BYTES;
      if AtLineStart(file, cut) then cut else cut + FirstLineEnd(file[cut..size])
  }

  /** `f.read(size - start)` from `start`: a negative count reads to the end. */
  function Read(file: Bytes, size: nat, start: nat): Bytes
    requires size <= |file|
  {
    if start <= size then file[start..size] else if start <= |file| then file[start..] else []
  }

  function WholeLines(data: Bytes): Bytes {
    data[..LinesEnd(data)]
  }

  /** What it serves: from there to the last newline of what `fstat` saw. */
  function Served(file: Bytes, size: nat, from: Option<nat>): Bytes
    requires size <= |file|
  {
    WholeLines(Read(file, size, StartOf(file, size, from)))
  }

  /** What a request resuming at `from` reads: from where it starts, its last line complete. */
  method ReadWholeLines(file: Bytes, size: nat, from: Option<nat>) returns (start: nat, data: Bytes, truncated: bool)
    requires size <= |file|
    ensures start == StartOf(file, size, from) && data == Served(file, size, from)
    ensures truncated <==> size - OrZero(from) > MAX_VIEW_BYTES
  {
    start := OrZero(from);
    truncated := size - start > MAX_VIEW_BYTES;
    if truncated {
      start := size - MAX_VIEW_BYTES;
    }
    data := Read(file, size, start);
    if truncated && !AtLineStart(file, start) {
      var newline := FirstLineEnd(data);
      if newline > 0 {
        start := start + newline;
        data := data[newline..];
      }
    }
    assert data == Read(file, size, start);
    data := WholeLines(data);
  }

  /**
   One request. `size` is what `fstat` said when the file was opened; `file` is its content
   while it is read, which may have grown since.
   */
  method GetLogFile(file: Bytes, size: nat, inode: nat, cursor: string) returns (r: Response)
    requires size <= |file|
    ensures var from := Resume(file, inode, cursor);
            && r.content == Served(file, size, from)
            && r.cursor == Render(inode, StartOf(file, size, from) + |r.content|)
            && (r.truncated <==> size - OrZero(from) > MAX_VIEW_BYTES)
            && (r.reset <==> from.None? || r.truncated)
  {
    var from: Option<nat> := None;
    var offset := OffsetIn(cursor, inode);
    if offset.Some? && AtLineStart(file, offset.value) {
      from := offset;
    }
    var start, data, truncated := ReadWholeLines(file, size, from);
    r := Response(data, Render(inode, start + |data|), from.None? || truncated, truncated);
  }

  // ----- following a file

  /** One poll: the file as it was then. */
  datatype Poll = Poll(file: Bytes, size: nat)

  type Polls = ps: seq<Poll> | forall i :: 0 <= i < |ps| ==> ps[i].size <= |ps[i].file|

  /** The responses of polls that each send the cursor of the one before, joined. */
  function Content(polls: Polls, inode: nat, cursor: string): Bytes
    decreases |polls|
  {
    if polls == [] then []
    else
      var p := polls[0];
      Served(p.file, p.size, Resume(p.file, inode, cursor)) + Content(polls[1..], inode, Next(p, inode, cursor))
  }

  function Next(p: Poll, inode: nat, cursor: string): string
    requires p.size <= |p.file|
  {
    var from := Resume(p.file, inode, cursor);
    Render(inode, StartOf(p.file, p.size, from) + |Served(p.file, p.size, from)|)
  }

  function LastCursor(polls: Polls, inode: nat, cursor: string): string
    decreases |polls|
  {
    if polls == [] then cursor else LastCursor(polls[1..], inode, Next(polls[0], inode, cursor))
  }

  /** No poll's response is cut to the cap. */
  predicate WithinCap(polls: Polls, inode: nat, cursor: string)
    decreases |polls|
  {
    polls == [] ||
    (polls[0].size - OrZero(Resume(polls[0].file, inode, cursor)) <= MAX_VIEW_BYTES
     && WithinCap(polls[1..], inode, Next(polls[0], inode, cursor)))
  }

  /** One file, only ever appended to: each poll's file starts with all that was there before. */
  predicate Appending(polls: Polls) {
    && (forall i :: 0 <= i < |polls| ==> |polls[i].file| < Pow10(19))
    && (forall i, j :: 0 <= i < j < |polls| ==> Grown(polls[i], polls[j]))
  }

  predicate Grown(p: Poll, q: Poll) {
    p.size <= q.size && p.size <= |p.file| && p.file[..p.size] <= q.file
  }

  lemma AppendingRest(polls: Polls)
    requires Appending(polls) && polls != []
    ensures Appending(polls[1..])
  {
    var rest := polls[1..];
    forall i, j | 0 <= i < j < |rest| ensures Grown(rest[i], rest[j]) {
      assert rest[i] == polls[i + 1] && rest[j] == polls[j + 1];
    }
  }

  /** A response within the cap: where it ends, nothing but an unfinished line is left. */
  lemma ServedFrom(file: Bytes, size: nat, from: Option<nat>)
    requires size <= |file| && OrZero(from) <= size && size - OrZero(from) <= MAX_VIEW_BYTES
    requires AtLineStart(file, OrZero(from))
    ensures var at := OrZero(from);
            var to := at + LinesEnd(file[at..size]);
            && to <= size && Served(file, size, from) == file[at..to] && StartOf(file, size, from) == at
            && AtLineStart(file, to) && NoNewline(file[to..size])
  {
    var at := OrZero(from);
    var s := file[at..size];
    LinesEndIsLast(s);
    var n := LinesEnd(s);
    assert s[n..] == file[at + n..size];
    assert s[..n] == file[at..at + n];
    if n > 0 {
      assert s[n - 1] == file[at + n - 1];
    }
  }

  lemma PollServes(p: Poll, inode: nat, cursor: string) returns (to: nat)
    requires p.size <= |p.file|
    requires var at := OrZero(Resume(p.file, inode, cursor)); at <= p.size && p.size - at <= MAX_VIEW_BYTES
    ensures var from := Resume(p.file, inode, cursor);
            && OrZero(from) <= to <= p.size && Served(p.file, p.size, from) == p.file[OrZero(from)..to]
            && AtLineStart(p.file, to) && NoNewline(p.file[to..p.size])
            && Next(p, inode, cursor) == Render(inode, to)
  {
    var from := Resume(p.file, inode, cursor);
    ServedFrom(p.file, p.size, from);
    to := OrZero(from) + LinesEnd(p.file[OrZero(from)..p.size]);
  }

  /** And the cursor it hands out is taken up exactly there, however the file has grown. */
  lemma CursorResumes(p: Poll, q: Poll, inode: nat, to: nat)
    requires Grown(p, q) && to <= p.size && |q.file| < Pow10(19) && q.size <= |q.file| && AtLineStart(p.file, to)
    ensures Resume(q.file, inode, Render(inode, to)) == Some(to) && to <= q.size
  {
    CursorRoundTrip(inode, to, inode);
    if to > 0 {
      assert p.file[..p.size][to - 1] == q.file[to - 1];
    }
  }

  /** What was already there does not change, and the next response continues it. */
  lemma Joined(p: Poll, q: Poll, at: nat, to: nat, end: nat)
    requires Grown(p, q) && at <= to <= p.size && to <= end <= |q.file|
    ensures p.file[at..to] + q.file[to..end] == q.file[at..end]
  {
    assert p.file[..p.size][at..to] == p.file[at..to];
    assert q.file[..p.size] == p.file[..p.size];
    assert q.file[..p.size][at..to] == q.file[at..to];
  }

  /**
   Following a file by its cursors: the responses are exactly its bytes from where the first one
   started to the last newline seen, none skipped and none repeated, and the cursor left is there.
   */
  lemma {:induction false} FollowingServesEverything(polls: Polls, inode: nat, cursor: string) returns (end: nat)
    requires polls != [] && Appending(polls) && WithinCap(polls, inode, cursor)
    requires OrZero(Resume(polls[0].file, inode, cursor)) <= polls[0].size
    ensures var at, last := OrZero(Resume(polls[0].file, inode, cursor)), polls[|polls| - 1];
            && at <= end <= last.size
            && Content(polls, inode, cursor) == last.file[at..end]
            && LastCursor(polls, inode, cursor) == Render(inode, end)
            && AtLineStart(last.file, end) && NoNewline(last.file[end..last.size])
    decreases |polls|
  {
    var last := polls[|polls| - 1];
    var p, rest := polls[0], polls[1..];
    var at := OrZero(Resume(p.file, inode, cursor));
    var to := PollServes(p, inode, cursor);
    var next := Next(p, inode, cursor);
    assert Content(polls, inode, cursor) == p.file[at..to] + Content(rest, inode, next);
    assert LastCursor(polls, inode, cursor) == LastCursor(rest, inode, next);
    if rest == [] {
      end := to;
      assert Content(rest, inode, next) == [];
    } else {
      assert rest[|rest| - 1] == last;
      AppendingRest(polls);
      assert Grown(p, rest[0]) && Grown(p, last);
      CursorResumes(p, rest[0], inode, to);
      end := FollowingServesEverything(rest, inode, next);
      Joined(p, last, at, to, end);
    }
  }

  /** A whole session, begun with no cursor or one this file does not know. */
  lemma SessionServesTheFile(polls: Polls, inode: nat, cursor: string)
    requires polls != [] && Appending(polls) && WithinCap(polls, inode, cursor)
    requires Resume(polls[0].file, inode, cursor).None?
    ensures var last := polls[|polls| - 1];
            var end := LinesEnd(last.file[..last.size]);
            Content(polls, inode, cursor) == last.file[..end] && LastCursor(polls, inode, cursor) == Render(inode, end)
  {
    var end := FollowingServesEverything(polls, inode, cursor);
    var last := polls[|polls| - 1];
    var seen := last.file[..last.size];
    assert seen[end..] == last.file[end..last.size];
    if end > 0 {
      assert seen[end - 1] == last.file[end - 1];
    }
    LinesEndUnique(seen, end);
    assert last.file[0..end] == last.file[..end];
  }

  /** Where a capped response starts: at the cap, or past the first newline after it if that is inside a line. */
  predicate CappedStart(file: Bytes, cut: nat, size: nat, start: nat)
    requires cut <= size <= |file|
  {
    if AtLineStart(file, cut) || NoNewline(file[cut..size]) then start == cut
    else cut < start <= size && file[start - 1] == NEWLINE && NoNewline(file[cut..start - 1])
  }

  lemma CappedStartIs(file: Bytes, size: nat, from: Option<nat>)
    requires size <= |file| && size - OrZero(from) > MAX_VIEW_BYTES
    ensures CappedStart(file, size - MAX_VIEW_BYTES, size, StartOf(file, size, from))
  {
    var cut := size - MAX_VIEW_BYTES;
    if !AtLineStart(file, cut) {
      var data := file[cut..size];
      FirstLineEndIsFirst(data);
      var n := FirstLineEnd(data);
      if n > 0 {
        assert file[cut + n - 1] == data[n - 1];
        assert data[..n - 1] == file[cut..cut + n - 1];
      }
    }
  }

  /**
   A capped response is every whole line from where it starts: it starts at the first record boundary
   from the cap on and ends at the last newline, and is empty only where there is no whole line.
   */
  lemma CappedServes(file: Bytes, size: nat, from: Option<nat>) returns (start: nat, to: nat)
    requires size <= |file| && size - OrZero(from) > MAX_VIEW_BYTES
    ensures start <= to <= size && start == StartOf(file, size, from) && Served(file, size, from) == file[start..to]
    ensures CappedStart(file, size - MAX_VIEW_BYTES, size, start)
    ensures NoNewline(file[to..size]) && (to == start || file[to - 1] == NEWLINE)
  {
    start := StartOf(file, size, from);
    CappedStartIs(file, size, from);
    var data := file[start..size];
    LinesEndIsLast(data);
    var n := LinesEnd(data);
    to := start + n;
    assert data[n..] == file[to..size] && data[..n] == file[start..to];
    assert n > 0 ==> data[n - 1] == file[to - 1];
  }

  /** A cursor past what `fstat` saw, in a file that has grown since: served from there to its last newline. */
  lemma PastTheSize(file: Bytes, size: nat, at: nat)
    requires size < at <= |file|
    ensures Served(file, size, Some(at)) == file[at..at + LinesEnd(file[at..])]
  {
  }

  /** A rotation in between is noticed: another inode is served from its own beginning. */
  lemma RotationResets(file: Bytes, size: nat, inode: nat, earlier: nat, at: nat)
    requires size <= |file| && size <= MAX_VIEW_BYTES && at < Pow10(19) && earlier != inode
    ensures Resume(file, inode, Render(earlier, at)).None?
    ensures Served(file, size, None) == file[..LinesEnd(file[..size])]
  {
    CursorRoundTrip(earlier, at, inode);
    assert file[0..size] == file[..size];
  }
}
