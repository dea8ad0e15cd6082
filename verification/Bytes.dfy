/** Bytes, byte streams and the exclusive-or masking that every chain layer is built from. */
module Bytes {

  type byte = bv8

  datatype Option<+T> = None | Some(value: T) {
    function GetOr(default: T): T {
      match this
      case Some(v) => v
      case None => default
    }
  }

  /** The bytes of `a` masked with the first |a| bytes of `mask`. */
  function Xor(a: seq<byte>, mask: seq<byte>): (r: seq<byte>)
    requires |a| <= |mask|
    ensures |r| == |a|
  {
    seq(|a|, i requires 0 <= i < |a| => a[i] ^ mask[i])
  }

  lemma XorCancels(x: byte, k: byte)
    ensures (x ^ k) ^ k == x
  {
  }

  /** Masking twice with the same mask gives the input back. */
  lemma XorTwice(a: seq<byte>, mask: seq<byte>)
    requires |a| <= |mask|
    ensures Xor(Xor(a, mask), mask) == a
  {
    forall i | 0 <= i < |a|
      ensures Xor(Xor(a, mask), mask)[i] == a[i]
    {
      XorCancels(a[i], mask[i]);
    }
  }

  /** Masking a concatenation masks the two parts with the two parts of the mask. */
  lemma XorConcat(a: seq<byte>, b: seq<byte>, mask: seq<byte>)
    requires |a| + |b| <= |mask|
    ensures Xor(a + b, mask) == Xor(a, mask[..|a|]) + Xor(b, mask[|a|..])
  {
  }

  /** Masking only looks at as much of the mask as there are bytes. */
  lemma XorPrefix(a: seq<byte>, n: nat, mask: seq<byte>, wider: seq<byte>)
    requires n <= |a| <= |wider| && n <= |mask|
    requires mask[..n] == wider[..n]
    ensures Xor(a[..n], mask) == Xor(a, wider)[..n]
  {
    forall i | 0 <= i < n
      ensures Xor(a[..n], mask)[i] == Xor(a, wider)[..n][i]
    {
      assert mask[i] == mask[..n][i] == wider[..n][i] == wider[i];
    }
  }

  lemma ConcatAssoc<T>(a: seq<T>, b: seq<T>, c: seq<T>)
    ensures (a + b) + c == a + (b + c)
  {
  }

  lemma TailOfConcat<T>(a: seq<T>, b: seq<T>)
    requires a != []
    ensures (a + b)[0] == a[0] && (a + b)[1..] == a[1..] + b
  {
  }

  function Min(a: nat, b: nat): nat { if a < b then a else b }

  /** The first n elements, or all of them. */
  function Leading<T>(s: seq<T>, n: nat): seq<T> { s[..Min(n, |s|)] }

  /** std::list::remove: every element equal to x goes, the order stays. */
  function Without<T(==)>(list: seq<T>, x: T): seq<T> {
    if list == [] then []
    else (if list[0] == x then [] else [list[0]]) + Without(list[1..], x)
  }

  /** Consecutive pieces of a stream, end to end. */
  function Join(frags: seq<seq<byte>>): seq<byte> {
    if frags == [] then [] else frags[0] + Join(frags[1..])
  }
}
