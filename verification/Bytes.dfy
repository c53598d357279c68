/** Bytes and the little-endian integer fields used by the binary formats. */
module Bytes {

  type byte = x: int | 0 <= x < 256

  function Pow256(n: nat): (p: nat)
    ensures p > 0
  {
    if n == 0 then 1 else 256 * Pow256(n - 1)
  }

  /** The n-byte little-endian image of v, as written by binary.LittleEndian.PutUint*. */
  function PutLE(v: nat, n: nat): (s: seq<byte>)
    ensures |s| == n
  {
    if n == 0 then [] else [v % 256] + PutLE(v / 256, n - 1)
  }

  function GetLE(s: seq<byte>): nat {
    if s == [] then 0 else s[0] + 256 * GetLE(s[1..])
  }

  lemma {:induction false} GetPut(v: nat, n: nat)
    requires v < Pow256(n)
    ensures GetLE(PutLE(v, n)) == v
  {
    if n > 0 {
      GetPut(v / 256, n - 1);
      assert PutLE(v, n)[1..] == PutLE(v / 256, n - 1);
    }
  }

  lemma {:induction false} PutGet(s: seq<byte>)
    ensures GetLE(s) < Pow256(|s|)
    ensures PutLE(GetLE(s), |s|) == s
  {
    if s != [] {
      PutGet(s[1..]);
      assert s == [s[0]] + s[1..];
    }
  }

  lemma PowConstants()
    ensures Pow256(2) == 0x1_0000 && Pow256(4) == 0x1_0000_0000 && Pow256(8) == 0x1_0000_0000_0000_0000
  {
    assert Pow256(1) == 256;
    assert Pow256(3) == 0x100_0000;
    assert Pow256(5) == 0x100_0000_0000;
    assert Pow256(6) == 0x1_0000_0000_0000;
    assert Pow256(7) == 0x100_0000_0000_0000;
  }

  /** The buffer with the bytes from position at on replaced by patch. */
  function Patched(s: seq<byte>, at: nat, patch: seq<byte>): (r: seq<byte>)
    requires at + |patch| <= |s|
    ensures |r| == |s|
    ensures forall k | 0 <= k < |s| :: r[k] == if at <= k < at + |patch| then patch[k - at] else s[k]
  {
    s[..at] + patch + s[at + |patch|..]
  }

  lemma PatchKeeps(s: seq<byte>, at: nat, patch: seq<byte>, lo: nat, hi: nat)
    requires at + |patch| <= |s| && lo <= hi <= |s| && (hi <= at || at + |patch| <= lo)
    ensures Patched(s, at, patch)[lo..hi] == s[lo..hi]
  {
  }

  lemma PatchSets(s: seq<byte>, at: nat, patch: seq<byte>)
    requires at + |patch| <= |s|
    ensures Patched(s, at, patch)[at..at + |patch|] == patch
  {
  }

  lemma PatchTwice(s: seq<byte>, at: nat, a: seq<byte>, b: seq<byte>)
    requires at + |a| + |b| <= |s|
    ensures Patched(Patched(s, at, a), at + |a|, b) == Patched(s, at, a + b)
  {
    hide Patched;
  }

  /** copy(buffer[at:], data). */
  method CopyInto(buffer: array<byte>, at: nat, data: seq<byte>)
    requires at + |data| <= buffer.Length
    modifies buffer
    ensures buffer[..] == Patched(old(buffer[..]), at, data)
  {
    var i := 0;
    while i < |data|
      invariant 0 <= i <= |data|
      invariant buffer[..] == Patched(old(buffer[..]), at, data[..i])
    {
      buffer[at + i] := data[i];
      i := i + 1;
    }
    assert data[..|data|] == data;
  }

  /** binary.LittleEndian.PutUint*, n bytes wide. */
  method PutField(buffer: array<byte>, at: nat, v: nat, n: nat)
    requires at + n <= buffer.Length
    modifies buffer
    ensures buffer[..] == Patched(old(buffer[..]), at, PutLE(v, n))
  {
    var i, rest := 0, v;
    ghost var done: seq<byte> := [];
    while i < n
      invariant 0 <= i <= n && |done| == i
      invariant done + PutLE(rest, n - i) == PutLE(v, n)
      invariant buffer[..] == Patched(old(buffer[..]), at, done)
    {
      buffer[at + i] := rest % 256;
      assert done + PutLE(rest, n - i) == done + [rest % 256] + PutLE(rest / 256, n - i - 1);
      done := done + [rest % 256];
      rest := rest / 256;
      i := i + 1;
    }
    assert done == PutLE(v, n);
  }

  /** binary.LittleEndian.Uint* of a slice. */
  method GetField(s: seq<byte>) returns (v: nat)
    ensures v == GetLE(s)
  {
    v := 0;
    var i := |s|;
    assert s[i..] == [];
    while i > 0
      invariant 0 <= i <= |s|
      invariant v == GetLE(s[i..])
    {
      i := i - 1;
      assert s[i..][1..] == s[i + 1..];
      v := s[i] + 256 * v;
    }
    assert s[0..] == s;
  }
}
