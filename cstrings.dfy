/** C strings as the queue stores them, and the caller-supplied output
    buffer that removal from the head fills. */
module CStrings {

  /** The characters of a NUL-terminated C string; the terminator itself is
      implicit, so no character of the content is NUL. */
  type CString = s: seq<char> | '\0' !in s

  /** Exclusive upper bound of the unsigned `size_t` arithmetic used for
      buffer capacities (a 64-bit target). */
  const SizeTBound: nat := 0x1_0000_0000_0000_0000

  function Min(a: int, b: int): int { if a < b then a else b }

  /** The number of characters of `v` that fit in a buffer of `bufsize`
      slots once one slot is kept for the terminator. */
  function CopiedLength(v: CString, bufsize: nat): (k: nat)
    requires bufsize > 0
    ensures k <= |v| && k < bufsize
    ensures k == |v| || k == bufsize - 1
  {
    Min(|v|, bufsize - 1)
  }

  /** `n` NUL characters, what `memset(sp, '\0', n)` writes. */
  function Nuls(n: nat): (z: seq<char>)
    ensures |z| == n
    ensures forall i :: 0 <= i < n ==> z[i] == '\0'
  {
    seq(n, _ => '\0')
  }

  /** The first `bufsize` slots of the buffer after the removed value `v`
      has been copied into it: the longest prefix of `v` that leaves room for
      a terminator, then NULs up to the capacity. */
  function BufferImage(v: CString, bufsize: nat): (b: seq<char>)
    requires bufsize > 0
    ensures |b| == bufsize
    ensures b[bufsize - 1] == '\0'
    ensures forall i :: 0 <= i < CopiedLength(v, bufsize) ==> b[i] == v[i]
    ensures forall i :: CopiedLength(v, bufsize) <= i < bufsize ==> b[i] == '\0'
  {
    v[..CopiedLength(v, bufsize)] + Nuls(bufsize - CopiedLength(v, bufsize))
  }

  /** The C string a buffer holds: its characters before the first NUL,
      or all of them when there is none. */
  function StringIn(buf: seq<char>): (s: CString)
    ensures |s| <= |buf| && s == buf[..|s|]
    ensures |s| < |buf| ==> buf[|s|] == '\0'
  {
    if buf == [] || buf[0] == '\0' then [] else [buf[0]] + StringIn(buf[1..])
  }

  /** A C string followed by a terminator reads back as itself. */
  lemma {:induction false} StringInTerminated(v: CString, rest: seq<char>)
    requires rest != [] && rest[0] == '\0'
    ensures StringIn(v + rest) == v
  {
    if v != [] {
      assert (v + rest)[1..] == v[1..] + rest;
      StringInTerminated(v[1..], rest);
    } else {
      assert (v + rest)[0] == '\0';
    }
  }

  /** The buffer reads back as the value truncated to `bufsize - 1`
      characters: exactly `bufsize - 1` of them when the value is too long,
      all of them otherwise. */
  lemma TruncatedCopy(v: CString, bufsize: nat)
    requires bufsize > 0
    ensures StringIn(BufferImage(v, bufsize)) == v[..CopiedLength(v, bufsize)]
    ensures bufsize <= |v| ==> |StringIn(BufferImage(v, bufsize))| == bufsize - 1
    ensures bufsize > |v| ==> StringIn(BufferImage(v, bufsize)) == v
  {
    var k := CopiedLength(v, bufsize);
    var b := BufferImage(v, bufsize);
    assert b == v[..k] + b[k..];
    StringInTerminated(v[..k], b[k..]);
    assert k == |v| ==> v[..k] == v;
  }

  /** `bufsize - 1` computed in `size_t`: it wraps to the largest value when
      `bufsize` is 0. */
  function SizeTPred(bufsize: nat): (n: nat)
    requires bufsize < SizeTBound
    ensures n < SizeTBound
    ensures bufsize > 0 ==> n == bufsize - 1
    ensures bufsize == 0 ==> n == SizeTBound - 1
  {
    (bufsize - 1) % SizeTBound
  }

  /** The condition under which the removed value is copied out: a buffer is
      supplied and it has room at least for the terminator. When it holds, no
      write goes through a null buffer and the `size_t` bound `bufsize - 1`
      does not wrap: it is the true number of characters that fit. */
  function CopyGuard(spIsNull: bool, bufsize: nat): (copy: bool)
    ensures copy ==> !spIsNull
    ensures copy && bufsize < SizeTBound ==> SizeTPred(bufsize) < bufsize
    ensures !spIsNull && bufsize > 0 ==> copy
  {
    !spIsNull && bufsize > 0
  }
}
