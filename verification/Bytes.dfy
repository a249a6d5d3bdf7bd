/** Bytes, byte sequences and the byte-copying loop the buffers share. */
module Bytes {

  type byte = b: int | 0 <= b < 256

  // All chunks one after another.
  function Flatten(chunks: seq<seq<byte>>): seq<byte> {
    if chunks == [] then [] else chunks[0] + Flatten(chunks[1..])
  }

  lemma {:induction false} FlattenConcat(a: seq<seq<byte>>, b: seq<seq<byte>>)
    ensures Flatten(a + b) == Flatten(a) + Flatten(b)
  {
    if a == [] {
      assert a + b == b;
    } else {
      FlattenConcat(a[1..], b);
      assert (a + b)[1..] == a[1..] + b;
      Assoc(a[0], Flatten(a[1..]), Flatten(b));
    }
  }

  lemma FlattenAppend(a: seq<seq<byte>>, chunk: seq<byte>)
    ensures Flatten(a + [chunk]) == Flatten(a) + chunk
  {
    FlattenConcat(a, [chunk]);
    assert Flatten([chunk]) == chunk + Flatten([]);
  }

  lemma FlattenPrefix(chunks: seq<seq<byte>>, i: nat)
    requires i <= |chunks|
    ensures Flatten(chunks) == Flatten(chunks[..i]) + Flatten(chunks[i..])
  {
    FlattenConcat(chunks[..i], chunks[i..]);
    assert chunks[..i] + chunks[i..] == chunks;
  }

  lemma Assoc<T>(a: seq<T>, b: seq<T>, c: seq<T>)
    ensures a + (b + c) == a + b + c
  {
  }

  lemma TakeNext<T>(s: seq<T>, i: nat)
    requires i < |s|
    ensures s[..i + 1] == s[..i] + [s[i]]
  {
  }

  lemma GrowBehind<T>(s: seq<T>, n: nat, x: T)
    requires n <= |s|
    ensures (s + [x])[n..] == s[n..] + [x] && (s + [x])[..n] == s[..n]
  {
  }

  // Taking n more elements behind the first at.
  lemma TakeMore<T>(s: seq<T>, at: nat, n: nat)
    requires at + n <= |s|
    ensures s[..at] + s[at..][..n] == s[..at + n] && s[at..][n..] == s[at + n..]
  {
  }

  // In front of more bytes, a proper prefix stays one.
  lemma ExtendPrefix<T>(a: seq<T>, b: seq<T>, c: seq<T>)
    requires b < c
    ensures a <= a + b < a + c
  {
    assert c == b + c[|b|..];
    Assoc(a, b, c[|b|..]);
  }

  lemma CutPrefix<T>(a: seq<T>, b: seq<T>, c: seq<T>)
    requires a + b <= a + c
    ensures b <= c
  {
    forall k | 0 <= k < |b| ensures k < |c| && b[k] == c[k] {
      assert (a + b)[|a| + k] == (a + c)[|a| + k];
    }
  }

  // memcpy as an ascending byte loop; safe for moving bytes left inside one array.
  method MemCopy(dst: array<byte>, d: nat, src: array<byte>, s: nat, n: nat)
    requires d + n <= dst.Length && s + n <= src.Length
    requires dst == src ==> d <= s
    modifies dst
    ensures dst[..] == old(dst[..d]) + old(src[s..s + n]) + old(dst[d + n..])
  {
    var i := 0;
    while i < n
      invariant 0 <= i <= n
      invariant forall k :: 0 <= k < dst.Length ==>
        dst[k] == if d <= k < d + i then old(src[s + k - d]) else old(dst[k])
    {
      dst[d + i] := src[s + i];
      i := i + 1;
    }
  }
}
