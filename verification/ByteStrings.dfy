/** Byte strings, as the collector's buffer, the log files and the cursors use them. */
module ByteStrings {
  type Bytes = seq<bv8>

  const NEWLINE: bv8 := 10

  datatype Option<+T> = None | Some(value: T)

  /** `data.endswith(b"\n")`. */
  predicate EndsLine(s: Bytes) {
    s != [] && s[|s| - 1] == NEWLINE
  }

  /** `b"".join(parts)`. */
  function Join(parts: seq<Bytes>): Bytes {
    if parts == [] then [] else parts[0] + Join(parts[1..])
  }

  predicate NoRepeats<T(==)>(s: seq<T>) {
    forall i, j :: 0 <= i < j < |s| ==> s[i] != s[j]
  }

  lemma NoRepeatsNext<T>(s: seq<T>, x: T)
    requires NoRepeats(s) && x !in s
    ensures NoRepeats(s + [x])
  {
  }

  lemma NoRepeatsFront<T>(s: seq<T>)
    requires NoRepeats(s) && s != []
    ensures var n := |s| - 1; NoRepeats(s[..n]) && s[n] !in s[..n] && s == s[..n] + [s[n]]
  {
  }

  lemma Assoc<T>(a: seq<T>, b: seq<T>, c: seq<T>)
    ensures a + b + c == a + (b + c)
  {
  }

  /** A slice of what is left after `n` is a slice of the whole. */
  lemma Slices<T>(s: seq<T>, n: nat, k: nat)
    requires n <= k <= |s|
    ensures s[n..][k - n..] == s[k..]
    ensures s[n..][..k - n] == s[..k][n..]
  {
  }

  lemma Parts<T>(s: seq<T>, k: nat)
    requires k <= |s|
    ensures s[..k] + s[k..] == s
  {
  }

  lemma {:induction false} JoinAppend(a: seq<Bytes>, b: seq<Bytes>)
    ensures Join(a + b) == Join(a) + Join(b)
  {
    if a == [] {
      assert a + b == b;
    } else {
      assert (a + b)[1..] == a[1..] + b;
      JoinAppend(a[1..], b);
    }
  }

  lemma JoinOne(a: seq<Bytes>, b: Bytes)
    ensures Join(a + [b]) == Join(a) + b
  {
    JoinAppend(a, [b]);
    assert Join([b]) == b + Join([]);
  }
}
