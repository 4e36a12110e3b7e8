/** Octet strings, and strings of them. */
module Octets {
  import opened Words

  type Bytes = seq<uint8>

  function Concat(parts: seq<Bytes>): Bytes {
    if parts == [] then [] else parts[0] + Concat(parts[1..])
  }

  lemma ConcatFront(first: Bytes, rest: seq<Bytes>)
    ensures Concat([first] + rest) == first + Concat(rest)
  {
    assert ([first] + rest)[1..] == rest;
  }

  lemma {:induction false} ConcatSum(a: seq<Bytes>, b: seq<Bytes>)
    ensures Concat(a + b) == Concat(a) + Concat(b)
  {
    if a == [] {
      assert a + b == b;
    } else {
      assert (a + b)[1..] == a[1..] + b;
      ConcatSum(a[1..], b);
      Regrouped(a[0], Concat(a[1..]), Concat(b));
    }
  }

  lemma Regrouped<T>(a: seq<T>, b: seq<T>, c: seq<T>)
    ensures (a + b) + c == a + (b + c)
  {
  }

  lemma PrefixGrows<T>(s: seq<T>, i: nat)
    requires i < |s|
    ensures s[..i + 1] == s[..i] + [s[i]]
  {
  }

  /** memcpy(dst + at, source, |source|). */
  method CopyIn(dst: array<uint8>, at: nat, source: Bytes)
    requires at + |source| <= dst.Length
    modifies dst
    ensures dst[..at] == old(dst[..at])
    ensures dst[at..at + |source|] == source
  {
    forall i | 0 <= i < |source| { dst[at + i] := source[i]; }
  }

  /** The number that octets in network order stand for. */
  function FromOctets(b: Bytes): nat {
    if b == [] then 0 else 0x100 * FromOctets(b[..|b| - 1]) + b[|b| - 1]
  }

  /** The low n octets of a number, in network order. */
  function ToOctets(x: nat, n: nat): (b: Bytes)
    ensures |b| == n
    decreases n, x
  {
    if n == 0 then [] else ToOctets(x / 0x100, n - 1) + [x % 0x100]
  }

  lemma {:induction false} OctetsRoundTrip(x: nat, n: nat)
    requires x < Pow2(8 * n)
    ensures FromOctets(ToOctets(x, n)) == x
    decreases n
  {
    if n > 0 {
      Pow2Add(8, 8 * (n - 1));
      assert Pow2(8) == 0x100;
      var b, rest := ToOctets(x, n), ToOctets(x / 0x100, n - 1);
      assert b[..n - 1] == rest && b[n - 1] == x % 0x100;
      OctetsRoundTrip(x / 0x100, n - 1);
    }
  }
}
