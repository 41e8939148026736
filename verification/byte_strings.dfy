/** Go byte strings and the library searches the parser and reader rely on
    (`bytes.IndexByte`, `strings.Index`, `strings.HasPrefix`). */
module ByteStrings {

  /** A Go `byte`. */
  type byte = b: int | 0 <= b < 256

  /** A Go `string` or `[]byte`, seen as its bytes. */
  type Bytes = seq<byte>

  datatype Option<+T> = None | Some(value: T)

  /** `a` is a suffix of `b`: what is left of a line after bytes are consumed from its front. */
  predicate IsSuffix(a: Bytes, b: Bytes) {
    |a| <= |b| && a == b[|b| - |a|..]
  }

  lemma SuffixTrans(a: Bytes, b: Bytes, c: Bytes)
    requires IsSuffix(a, b) && IsSuffix(b, c)
    ensures IsSuffix(a, c)
  {
    assert c[|c| - |b|..][|b| - |a|..] == c[|c| - |a|..];
  }

  /** What follows a prefix is a suffix. */
  lemma SuffixOfAppend(a: Bytes, b: Bytes)
    ensures IsSuffix(b, a + b)
  {
    assert (a + b)[|a|..] == b;
  }

  /** A non-empty suffix ends as the whole does. */
  lemma SuffixKeepsLast(a: Bytes, b: Bytes)
    requires IsSuffix(a, b) && |a| > 0
    ensures a[|a| - 1] == b[|b| - 1]
  {
  }

  /** `bytes.IndexByte`: the index of the first `b` in `s`, or -1. */
  function IndexByte(s: Bytes, b: byte): (r: int)
    ensures -1 <= r < |s|
    ensures r >= 0 ==> s[r] == b && b !in s[..r]
    ensures r == -1 <==> b !in s
  {
    if |s| == 0 then -1
    else if s[0] == b then 0
    else
      var k := IndexByte(s[1..], b);
      assert s[1..][..if k < 0 then 0 else k] == s[1..if k < 0 then 1 else k + 1];
      if k < 0 then -1 else k + 1
  }

  /** `pat` occurs in `s` starting at index `i`. */
  predicate OccursAt(s: Bytes, pat: Bytes, i: int) {
    0 <= i && i + |pat| <= |s| && s[i..i + |pat|] == pat
  }

  /** `i` is the first position at which `pat` occurs in `s`. */
  predicate FirstAt(s: Bytes, pat: Bytes, i: int) {
    OccursAt(s, pat, i) && forall j :: 0 <= j < i ==> !OccursAt(s, pat, j)
  }

  /** `strings.Index`: the index of the first occurrence of `pat` in `s`, or -1. */
  function Index(s: Bytes, pat: Bytes): (r: int)
    ensures r >= 0 ==> FirstAt(s, pat, r)
    ensures r == -1 <==> forall j :: !OccursAt(s, pat, j)
    ensures r >= -1
  {
    IndexFrom(s, pat, 0)
  }

  function IndexFrom(s: Bytes, pat: Bytes, i: nat): (r: int)
    requires forall j :: 0 <= j < i ==> !OccursAt(s, pat, j)
    ensures r >= 0 ==> i <= r && FirstAt(s, pat, r)
    ensures r == -1 <==> forall j :: !OccursAt(s, pat, j)
    ensures r >= -1
    decreases |s| - i
  {
    if i + |pat| > |s| then
      assert forall j :: !OccursAt(s, pat, j) by {
        forall j ensures !OccursAt(s, pat, j) {
          if j >= i {
            assert j + |pat| > |s|;
          }
        }
      }
      -1
    else if s[i..i + |pat|] == pat then i
    else
      assert !OccursAt(s, pat, i);
      IndexFrom(s, pat, i + 1)
  }

  /** `strings.HasPrefix`. */
  predicate HasPrefix(s: Bytes, pat: Bytes) {
    OccursAt(s, pat, 0)
  }

  lemma FirstAtIsIndex(s: Bytes, pat: Bytes, i: int)
    requires FirstAt(s, pat, i)
    ensures Index(s, pat) == i
  {
  }

  /** Searching a concatenation searches the front part first. */
  lemma IndexByteAppend(w: Bytes, rest: Bytes, b: byte)
    ensures IndexByte(w + rest, b)
         == if IndexByte(w, b) >= 0 then IndexByte(w, b)
            else if IndexByte(rest, b) < 0 then -1
            else |w| + IndexByte(rest, b)
  {
    var s := w + rest;
    assert s[..|w|] == w && s[|w|..] == rest;
    var i := IndexByte(w, b);
    if i >= 0 {
      assert s[..i] == w[..i];
    } else {
      var j := IndexByte(rest, b);
      if j >= 0 {
        assert s[..|w| + j] == w + rest[..j];
      }
    }
  }

  lemma IndexByteOfPrefixed(a: Bytes, b: byte, rest: Bytes)
    requires b !in a
    ensures IndexByte(a + [b] + rest, b) == |a|
  {
    var s := a + [b] + rest;
    assert s[|a|] == b;
    assert s[..|a|] == a;
  }
}
