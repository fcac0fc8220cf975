/**
 Cutting an oversize record (`_cap_record`), and what the cut does to UTF-8 text.
 Well-formedness is section 4 of RFC 3629.
 */
module RecordCap {
  import opened ByteStrings

  const MAX_RECORD_BYTES: nat := 16 * 1024

  /** " ... [log_collector truncated this record at 16384 bytes]\n", in four pieces. */
  const T0: Bytes := [32, 46, 46, 46, 32, 91, 108, 111, 103, 95, 99, 111, 108, 108]
  const T1: Bytes := [101, 99, 116, 111, 114, 32, 116, 114, 117, 110, 99, 97, 116, 101]
  const T2: Bytes := [100, 32, 116, 104, 105, 115, 32, 114, 101, 99, 111, 114, 100, 32]
  const T3: Bytes := [97, 116, 32, 49, 54, 51, 56, 52, 32, 98, 121, 116, 101, 115, 93, 10]
  const TRUNCATED: Bytes := T0 + T1 + T2 + T3

  predicate IsContinuation(b: bv8): (r: bool)
    ensures r <==> 0x80 <= b <= 0xBF
  {
    (b & 0xC0) == 0x80
  }

  /** The length of the well-formed character `s` starts with; 0 when there is none. */
  function CharLen(s: Bytes): (n: nat)
    ensures n <= |s| && n <= 4
    ensures n > 0 ==> !IsContinuation(s[0])
    ensures forall i :: 0 < i < n ==> IsContinuation(s[i])
  {
    if s == [] then 0
    else if s[0] <= 0x7F then 1
    else if |s| >= 2 && 0xC2 <= s[0] <= 0xDF && IsContinuation(s[1]) then 2
    else if |s| >= 3 && 0xE0 <= s[0] <= 0xEF && IsContinuation(s[1]) && IsContinuation(s[2])
            && (s[0] == 0xE0 ==> 0xA0 <= s[1]) && (s[0] == 0xED ==> s[1] <= 0x9F) then 3
    else if |s| >= 4 && 0xF0 <= s[0] <= 0xF4
            && IsContinuation(s[1]) && IsContinuation(s[2]) && IsContinuation(s[3])
            && (s[0] == 0xF0 ==> 0x90 <= s[1]) && (s[0] == 0xF4 ==> s[1] <= 0x8F) then 4
    else 0
  }

  predicate ValidUtf8(s: Bytes) {
    s == [] || (CharLen(s) > 0 && ValidUtf8(s[CharLen(s)..]))
  }

  lemma CharLenOfPrefix(text: Bytes, k: nat)
    requires 0 < CharLen(text) <= k <= |text|
    ensures CharLen(text[..k]) == CharLen(text)
  {
  }

  lemma CharLenOfTruncated(text: Bytes, k: nat)
    requires 0 < k <= |text| && CharLen(text[..k]) > 0
    ensures CharLen(text[..k]) == CharLen(text)
  {
  }

  lemma ValidCons(s: Bytes, n: nat)
    requires s != [] && CharLen(s) == n > 0 && ValidUtf8(s[n..])
    ensures ValidUtf8(s)
  {
  }

  /** Cutting where a character starts leaves two well-formed halves. */
  lemma {:induction false} SplitAtBoundary(text: Bytes, k: nat)
    requires ValidUtf8(text) && k <= |text|
    requires k == |text| || !IsContinuation(text[k])
    ensures ValidUtf8(text[..k]) && ValidUtf8(text[k..])
  {
    var n := CharLen(text);
    if k == 0 {
      assert text[0..] == text;
    } else {
      assert n <= k;
      SplitAtBoundary(text[n..], k - n);
      Slices(text, n, k);
      CharLenOfPrefix(text, k);
      ValidCons(text[..k], n);
    }
  }

  /** And the other way round: both halves are well formed only where a character starts. */
  lemma {:induction false} OnlyAtBoundary(text: Bytes, k: nat)
    requires ValidUtf8(text) && k < |text| && ValidUtf8(text[..k])
    ensures !IsContinuation(text[k])
  {
    var n := CharLen(text);
    if k > 0 {
      CharLenOfTruncated(text, k);
      assert text[..k][n..] == text[n..][..k - n];
      OnlyAtBoundary(text[n..], k - n);
    }
  }

  /** No more than three bytes back from any position, a character starts. */
  lemma {:induction false} BoundaryNearby(text: Bytes, k: nat) returns (j: nat)
    requires ValidUtf8(text) && k < |text|
    ensures j <= k <= j + 3 && !IsContinuation(text[j])
  {
    var n := CharLen(text);
    if k < n {
      j := 0;
    } else {
      var i := BoundaryNearby(text[n..], k - n);
      j := n + i;
    }
  }

  /** Where the cut falls: the last index up to `k` that is 0 or not a continuation byte. */
  function CutAt(line: Bytes, k: nat): (cut: nat)
    requires k < |line|
    ensures cut <= k && (cut == 0 || !IsContinuation(line[cut]))
    ensures forall i :: cut < i <= k ==> IsContinuation(line[i])
  {
    if k > 0 && IsContinuation(line[k]) then CutAt(line, k - 1) else k
  }

  function Capped(line: Bytes): Bytes
    requires |line| > MAX_RECORD_BYTES
  {
    line[..CutAt(line, MAX_RECORD_BYTES)] + TRUNCATED
  }

  method CapRecord(line: Bytes) returns (r: Bytes)
    requires |line| > MAX_RECORD_BYTES
    ensures r == Capped(line)
  {
    var cut := MAX_RECORD_BYTES;
    while cut > 0 && IsContinuation(line[cut])
      invariant 0 <= cut <= MAX_RECORD_BYTES
      invariant CutAt(line, MAX_RECORD_BYTES) == CutAt(line, cut)
    {
      cut := cut - 1;
    }
    r := line[..cut] + TRUNCATED;
  }

  lemma {:induction false} AsciiIsValid(s: Bytes)
    requires forall i :: 0 <= i < |s| ==> s[i] <= 0x7F
    ensures ValidUtf8(s)
  {
    if s != [] {
      AsciiIsValid(s[1..]);
    }
  }

  /** Whether a character is complete does not depend on what comes after it. */
  lemma CharLenLocal(a: Bytes, b: Bytes)
    requires CharLen(a) > 0
    ensures CharLen(a + b) == CharLen(a)
  {
    var c := a + b;
    assert c[0] == a[0];
    if |a| >= 2 { assert c[1] == a[1]; }
    if |a| >= 3 { assert c[2] == a[2]; }
    if |a| >= 4 { assert c[3] == a[3]; }
  }

  lemma DropLeft(a: Bytes, b: Bytes, n: nat)
    requires n <= |a|
    ensures (a + b)[n..] == a[n..] + b
  {
  }

  lemma {:induction false} ValidAppend(a: Bytes, b: Bytes)
    requires ValidUtf8(a) && ValidUtf8(b)
    ensures ValidUtf8(a + b)
  {
    if a == [] {
      assert a + b == b;
    } else {
      var n := CharLen(a);
      ValidAppend(a[n..], b);
      CharLenLocal(a, b);
      DropLeft(a, b, n);
      ValidCons(a + b, n);
    }
  }

  lemma AsciiPieces(a: Bytes, b: Bytes, c: Bytes, d: Bytes)
    requires forall x :: (x in a || x in b || x in c || x in d) ==> x <= 0x7F
    ensures ValidUtf8(a + b + c + d)
  {
    var s := a + b + c + d;
    forall i | 0 <= i < |s| ensures s[i] <= 0x7F {
      assert s[i] in a || s[i] in b || s[i] in c || s[i] in d;
    }
    AsciiIsValid(s);
  }

  lemma MarkerIsAscii()
    ensures ValidUtf8(TRUNCATED)
  {
    AsciiPieces(T0, T1, T2, T3);
  }

  /** The marker ends the line. */
  lemma MarkerShape()
    ensures EndsLine(TRUNCATED) && |TRUNCATED| == 58
  {
  }

  /**
   A capped record is `kept` bytes of the line, and the marker: as many as the cap allows, less the
   continuation bytes just before it.
   */
  predicate IsCut(line: Bytes, r: Bytes, kept: nat) {
    && kept <= MAX_RECORD_BYTES < |line| && r == line[..kept] + TRUNCATED
    && (kept == 0 || !IsContinuation(line[kept]))
    && forall i :: kept < i <= MAX_RECORD_BYTES ==> IsContinuation(line[i])
  }

  /** Whatever the bytes, a capped record is such a cut, newline-terminated and bounded. */
  lemma CappedShape(line: Bytes)
    requires |line| > MAX_RECORD_BYTES
    ensures var r := Capped(line);
            58 <= |r| <= MAX_RECORD_BYTES + 58 && EndsLine(r) && IsCut(line, r, |r| - 58)
  {
    MarkerShape();
  }

  lemma CutIsTheLongest(text: Bytes, line: Bytes, cut: nat)
    requires ValidUtf8(text) && line <= text && |line| > MAX_RECORD_BYTES && cut == CutAt(line, MAX_RECORD_BYTES)
    ensures MAX_RECORD_BYTES - 3 <= cut && ValidUtf8(line[..cut])
    ensures forall k :: cut < k <= MAX_RECORD_BYTES ==> !ValidUtf8(line[..k])
  {
    var j := BoundaryNearby(text, MAX_RECORD_BYTES);
    assert line[j] == text[j];
    SplitAtBoundary(text, cut);
    assert text[..cut] == line[..cut];
    forall k | cut < k <= MAX_RECORD_BYTES
      ensures !ValidUtf8(line[..k])
    {
      if ValidUtf8(line[..k]) {
        assert line[..k] == text[..k];
        OnlyAtBoundary(text, k);
      }
    }
  }

  /**
   A record read out of UTF-8 text, even one whose own read stopped inside a character,
   is cut to the longest well-formed prefix the cap allows: at most three bytes are given
   up, and the filed record is itself well formed.
   */
  lemma CapNeverCutsACharacter(text: Bytes, line: Bytes) returns (kept: nat)
    requires ValidUtf8(text) && line <= text && |line| > MAX_RECORD_BYTES
    ensures MAX_RECORD_BYTES - 3 <= kept <= MAX_RECORD_BYTES
    ensures Capped(line) == line[..kept] + TRUNCATED
    ensures ValidUtf8(line[..kept]) && ValidUtf8(Capped(line))
    ensures forall k :: kept < k <= MAX_RECORD_BYTES ==> !ValidUtf8(line[..k])
  {
    kept := CutAt(line, MAX_RECORD_BYTES);
    CutIsTheLongest(text, line, kept);
    MarkerIsAscii();
    ValidAppend(line[..kept], TRUNCATED);
  }
}
