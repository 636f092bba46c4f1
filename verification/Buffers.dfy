/** Byte buffers: writing into them, and what stands where. */
module Buffers {
  import opened Bits

  /** `copy(s[at:], b)`: as much as fits, and a panic if `at` is past the end. */
  function Copied(s: seq<byte>, at: nat, b: seq<byte>): Option<seq<byte>> {
    if at > |s| then None
    else if at + |b| <= |s| then Some(s[..at] + b + s[at + |b|..])
    else Some(s[..at] + b[..|s| - at])
  }

  method Copy(s: array<byte>, at: nat, b: seq<byte>) returns (ok: bool)
    modifies s
    ensures ok <==> Copied(old(s[..]), at, b).Some?
    ensures ok ==> Some(s[..]) == Copied(old(s[..]), at, b)
  {
    if at > s.Length {
      return false;
    }
    var n := if at + |b| <= s.Length then |b| else s.Length - at;
    forall i | 0 <= i < n { s[at + i] := b[i]; }
    assert s[..] == Copied(old(s[..]), at, b).value;
    return true;
  }

  /** `t` is `s` with the bytes `b` written over it from `at` on, and nothing else changed. */
  predicate Wrote(s: seq<byte>, t: seq<byte>, at: nat, b: seq<byte>) {
    && at + |b| <= |s| == |t|
    && t[..at + |b|] == s[..at] + b
    && t[at + |b|..] == s[at + |b|..]
  }

  lemma WroteNothing(s: seq<byte>, at: nat)
    requires at <= |s|
    ensures Wrote(s, s, at, [])
  {
    assert s[..at] + [] == s[..at];
  }

  /** Two writes, one behind the other. */
  lemma WroteBoth(s: seq<byte>, t: seq<byte>, u: seq<byte>, at: nat, a: seq<byte>, b: seq<byte>)
    requires Wrote(s, t, at, a) && Wrote(t, u, at + |a|, b)
    ensures Wrote(s, u, at, a + b)
  {
    var end := at + |a| + |b|;
    assert u[..end] == s[..at] + a + b;
    assert u[end..] == t[end..] == t[at + |a|..][|b|..];
    assert s[end..] == s[at + |a|..][|b|..];
  }

  /** A fixed-width write, with room for it. */
  method Put(buf: array<byte>, at: nat, b: seq<byte>)
    requires at + |b| <= buf.Length
    modifies buf
    ensures Wrote(old(buf[..]), buf[..], at, b)
  {
    var _ := Copy(buf, at, b);
  }

  function Zeros(n: nat): (z: seq<byte>)
    ensures |z| == n
  {
    seq(n, _ => 0)
  }

  lemma AllZeros(n: nat)
    ensures forall i :: 0 <= i < n ==> Zeros(n)[i] == 0
  {
  }

  lemma ZerosFrom(n: nat, k: nat)
    requires k <= n
    ensures Zeros(n)[k..] == Zeros(n - k)
  {
    AllZeros(n);
    AllZeros(n - k);
  }

  /** The bytes `b` stand in `raw` from `pos` on. */
  predicate At(raw: seq<byte>, pos: nat, b: seq<byte>) {
    pos + |b| <= |raw| && raw[pos..pos + |b|] == b
  }

  lemma AtSplit(raw: seq<byte>, pos: nat, a: seq<byte>, b: seq<byte>)
    requires At(raw, pos, a + b)
    ensures At(raw, pos, a) && At(raw, pos + |a|, b)
  {
    var all := raw[pos..pos + |a| + |b|];
    assert raw[pos..pos + |a|] == all[..|a|];
    assert raw[pos + |a|..pos + |a| + |b|] == all[|a|..];
  }
}
