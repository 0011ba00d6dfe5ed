/**
 * The byte primitives: iMemMove and iMemSet of the exec library and the
 * memcpy/memset of libmiss (section 7.24.2.1, 7.24.2.2 and 7.24.6.1 of
 * ISO C11). Memory is one byte array indexed by address; a pointer is an
 * index into it.
 */
module Bytes {
  /** The value stored by an `unsigned char` conversion of an int. */
  function Byte(c: int): (b: bv8)
    ensures b as int == c % 256
  {
    (c % 256) as bv8
  }

  /** m after n bytes at src are copied to dst, read all at once. */
  function Moved(m: seq<bv8>, dst: nat, src: nat, n: nat): (r: seq<bv8>)
    requires dst + n <= |m| && src + n <= |m|
  {
    seq(|m|, k requires 0 <= k < |m| => if dst <= k < dst + n then m[src + k - dst] else m[k])
  }

  /** m after n bytes at dst are set to b. */
  function Filled(m: seq<bv8>, dst: nat, b: bv8, n: nat): (r: seq<bv8>)
    requires dst + n <= |m|
  {
    seq(|m|, k requires 0 <= k < |m| => if dst <= k < dst + n then b else m[k])
  }

  /**
   * Section 7.24.2.2 of C11: memmove copies as if the n bytes were first
   * copied to a temporary array that overlaps neither object.
   */
  lemma {:induction false} MovedThroughTemporary(m: seq<bv8>, dst: nat, src: nat, n: nat)
    requires dst + n <= |m| && src + n <= |m|
    ensures var tmp := m[src..src + n];
      Moved(m, dst, src, n) == m[..dst] + tmp + m[dst + n..]
  {
    var r := Moved(m, dst, src, n);
    var t := m[..dst] + m[src..src + n] + m[dst + n..];
    assert |r| == |t|;
    forall k | 0 <= k < |r| ensures r[k] == t[k] {
      if k < dst {
      } else if k < dst + n {
        assert t[k] == m[src..src + n][k - dst];
      } else {
        assert t[k] == m[dst + n..][k - dst - n];
      }
    }
  }

  /** A zero-length move, or a move onto itself, changes nothing. */
  lemma {:induction false} MovedNothing(m: seq<bv8>, dst: nat, src: nat, n: nat)
    requires dst + n <= |m| && src + n <= |m| && (n == 0 || dst == src)
    ensures Moved(m, dst, src, n) == m
  {
    assert forall k :: 0 <= k < |m| ==> Moved(m, dst, src, n)[k] == m[k];
  }

  /** Setting the same bytes twice is setting them once. */
  lemma {:induction false} FilledTwice(m: seq<bv8>, dst: nat, b: bv8, n: nat)
    requires dst + n <= |m|
    ensures Filled(Filled(m, dst, b, n), dst, b, n) == Filled(m, dst, b, n)
  {
    assert forall k :: 0 <= k < |m| ==> Filled(Filled(m, dst, b, n), dst, b, n)[k] == Filled(m, dst, b, n)[k];
  }

  /** The result of the forward loop `*d++ = *s++`, one byte at a time. */
  function Forward(m: seq<bv8>, dst: nat, src: nat, n: nat): (r: seq<bv8>)
    requires dst + n <= |m| && src + n <= |m|
    ensures |r| == |m|
    decreases n
  {
    if n == 0 then m
    else Forward(m[dst := m[src]], dst + 1, src + 1, n - 1)
  }

  /**
   * Why iMemMove copies backwards when src < dst < src + n: the forward
   * loop would read bytes it has already overwritten.
   */
  lemma {:induction false} ForwardOverlapCorrupts()
    ensures var m: seq<bv8> := [1, 2, 0];
      Forward(m, 1, 0, 2) == [1, 1, 1] && Moved(m, 1, 0, 2) == [1, 1, 2]
  {
    var m: seq<bv8> := [1, 2, 0];
    assert Forward(m, 1, 0, 2) == Forward([1, 1, 0], 2, 1, 1) == Forward([1, 1, 1], 3, 2, 0);
    assert Moved(m, 1, 0, 2)[2] == m[1];
  }

  /**
   * The forward loop is a correct move whenever it never reads a byte it
   * has written: when dst is at or below src, or past the end of the
   * source bytes.
   */
  lemma {:induction false} ForwardMoves(m: seq<bv8>, dst: nat, src: nat, n: nat)
    requires dst + n <= |m| && src + n <= |m|
    requires dst <= src || src + n <= dst
    ensures Forward(m, dst, src, n) == Moved(m, dst, src, n)
    decreases n
  {
    if n > 0 {
      var m' := m[dst := m[src]];
      ForwardMoves(m', dst + 1, src + 1, n - 1);
      forall k | 0 <= k < |m|
        ensures Moved(m', dst + 1, src + 1, n - 1)[k] == Moved(m, dst, src, n)[k]
      {
        if dst + 1 <= k < dst + n {
          assert src + k - dst != dst;
        }
      }
    }
  }

  /**
   * iMemMove: overlap-safe copy of n bytes from src to dst. It copies
   * backwards exactly when src < dst < src + n, forwards otherwise, and
   * returns dst.
   */
  method MemMove(mem: array<bv8>, dst: nat, src: nat, n: nat) returns (r: nat)
    requires dst + n <= mem.Length && src + n <= mem.Length
    modifies mem
    ensures r == dst
    ensures mem[..] == Moved(old(mem[..]), dst, src, n)
  {
    if n == 0 {
      MovedNothing(mem[..], dst, src, n);
      return dst;
    }
    if src < dst && dst < src + n {
      CopyBackward(mem, dst, src, n);
    } else {
      CopyForward(mem, dst, src, n);
    }
    return dst;
  }

  /** The backward loop of iMemMove: `*--d = *--s` from the end. */
  method CopyBackward(mem: array<bv8>, dst: nat, src: nat, n: nat)
    requires dst + n <= mem.Length && src + n <= mem.Length && src <= dst
    modifies mem
    ensures mem[..] == Moved(old(mem[..]), dst, src, n)
  {
    ghost var m := mem[..];
    assert |m| == mem.Length;
    var i: nat := n;
    while i > 0
      invariant 0 <= i <= n
      invariant forall k :: 0 <= k < mem.Length && !(dst + i <= k < dst + n) ==> mem[k] == m[k]
      invariant forall k :: dst + i <= k < dst + n ==> mem[k] == m[k - dst + src]
    {
      i := i - 1;
      mem[dst + i] := mem[src + i];
    }
    assert forall k :: 0 <= k < mem.Length ==> mem[k] == Moved(m, dst, src, n)[k];
  }

  /** The forward loop of iMemMove and memcpy: `*d++ = *s++` from the start. */
  method CopyForward(mem: array<bv8>, dst: nat, src: nat, n: nat)
    requires dst + n <= mem.Length && src + n <= mem.Length
    requires dst <= src || src + n <= dst
    modifies mem
    ensures mem[..] == Moved(old(mem[..]), dst, src, n)
  {
    ghost var m := mem[..];
    assert |m| == mem.Length;
    var i := 0;
    while i < n
      invariant i <= n
      invariant forall k :: 0 <= k < mem.Length && !(dst <= k < dst + i) ==> mem[k] == m[k]
      invariant forall k :: dst <= k < dst + i ==> mem[k] == m[k - dst + src]
    {
      mem[dst + i] := mem[src + i];
      i := i + 1;
    }
    assert forall k :: 0 <= k < mem.Length ==> mem[k] == Moved(m, dst, src, n)[k];
  }

  /**
   * libmiss memcpy: the two objects do not overlap (restrict). Every byte
   * of dst[0..n) equals the source byte, nothing else changes, and dst0 is
   * returned.
   */
  method MemCpy(mem: array<bv8>, dst: nat, src: nat, n: nat) returns (r: nat)
    requires dst + n <= mem.Length && src + n <= mem.Length
    requires dst + n <= src || src + n <= dst
    modifies mem
    ensures r == dst
    ensures mem[..] == Moved(old(mem[..]), dst, src, n)
  {
    CopyForward(mem, dst, src, n);
    return dst;
  }

  /** iMemSet and libmiss memset: len bytes at dst become (unsigned char)c; dst is returned. */
  method MemSet(mem: array<bv8>, dst: nat, c: int, len: nat) returns (r: nat)
    requires dst + len <= mem.Length
    modifies mem
    ensures r == dst
    ensures mem[..] == Filled(old(mem[..]), dst, Byte(c), len)
  {
    ghost var m := mem[..];
    var b := Byte(c);
    var i := 0;
    while i < len
      invariant i <= len
      invariant forall k :: 0 <= k < mem.Length && !(dst <= k < dst + i) ==> mem[k] == m[k]
      invariant forall k :: dst <= k < dst + i ==> mem[k] == b
    {
      mem[dst + i] := b;
      i := i + 1;
    }
    assert forall k :: 0 <= k < mem.Length ==> mem[k] == Filled(m, dst, b, len)[k];
    return dst;
  }
}
