/** Little-endian integers in a byte sequence. */
module Bytes {
  import opened Layout

  type byte = n: int | 0 <= n < 256

  const U64_MAX := 0xFFFF_FFFF_FFFF_FFFF

  type u64 = n: nat | n <= U64_MAX witness 0

  function Zeros(n: nat): (r: seq<byte>)
    ensures |r| == n
  {
    seq(n, _ => 0)
  }

  function Le32(s: seq<byte>, at: nat): u32
    requires at + 4 <= |s|
  {
    (s[at] as int) + 0x100 * (s[at + 1] as int) + 0x1_0000 * (s[at + 2] as int) + 0x100_0000 * (s[at + 3] as int)
  }

  function Le64(s: seq<byte>, at: nat): u64
    requires at + 8 <= |s|
  {
    Le32(s, at) + 0x1_0000_0000 * Le32(s, at + 4)
  }

  function ToLe32(n: u32): (r: seq<byte>)
    ensures |r| == 4
  {
    [n % 0x100, n / 0x100 % 0x100, n / 0x1_0000 % 0x100, n / 0x100_0000]
  }

  function ToLe64(n: u64): (r: seq<byte>)
    ensures |r| == 8
  {
    ToLe32(n % 0x1_0000_0000) + ToLe32(n / 0x1_0000_0000)
  }

  lemma {:induction false} Le32RoundTrip(n: u32)
    ensures Le32(ToLe32(n), 0) == n
  {
    var a, b, c := n / 0x100, n / 0x1_0000, n / 0x100_0000;
    assert n == n % 0x100 + 0x100 * a;
    assert b == a / 0x100 && a == a % 0x100 + 0x100 * b;
    assert c == b / 0x100 && b == b % 0x100 + 0x100 * c;
  }

  lemma {:induction false} Le64RoundTrip(n: u64)
    ensures Le64(ToLe64(n), 0) == n
  {
    var lo, hi := n % 0x1_0000_0000, n / 0x1_0000_0000;
    Le32RoundTrip(lo);
    Le32RoundTrip(hi);
    assert forall i :: 0 <= i < 4 ==> ToLe64(n)[i] == ToLe32(lo)[i] && ToLe64(n)[4 + i] == ToLe32(hi)[i];
  }

  lemma {:induction false} SliceBytes(s: seq<byte>, at: nat, t: seq<byte>, from: nat, n: nat)
    requires at + n <= |s| && from + n <= |t| && s[at..at + n] == t[from..from + n]
    ensures forall i {:trigger s[i]} :: at <= i < at + n ==> s[i] == t[i - at + from]
  {
    forall i {:trigger s[i]} | at <= i < at + n ensures s[i] == t[i - at + from] {
      assert s[i] == s[at..at + n][i - at] && t[i - at + from] == t[from..from + n][i - at];
    }
  }

  /** Where two sequences agree on eight bytes, they hold the same number. */
  lemma {:induction false} Le64Moves(s: seq<byte>, at: nat, t: seq<byte>, from: nat)
    requires at + 8 <= |s| && from + 8 <= |t| && s[at..at + 8] == t[from..from + 8]
    ensures Le64(s, at) == Le64(t, from)
  {
    SliceBytes(s, at, t, from, 8);
  }

  lemma {:induction false} Le32Moves(s: seq<byte>, at: nat, t: seq<byte>, from: nat)
    requires at + 4 <= |s| && from + 4 <= |t| && s[at..at + 4] == t[from..from + 4]
    ensures Le32(s, at) == Le32(t, from)
  {
    SliceBytes(s, at, t, from, 4);
  }

  /** `s` cut off after `k` bytes, the rest still zero. */
  function Torn(s: seq<byte>, k: nat): (r: seq<byte>)
    requires k <= |s|
    ensures |r| == |s|
  {
    seq(|s|, i requires 0 <= i < |s| => if i < k then s[i] else 0)
  }

  /** A torn integer is never larger than the whole one; it is whole before the tear and zero after it. */
  lemma {:induction false} TornLe64(s: seq<byte>, k: nat, at: nat)
    requires k <= |s| && at + 8 <= |s|
    ensures Le64(Torn(s, k), at) <= Le64(s, at)
    ensures at + 8 <= k ==> Le64(Torn(s, k), at) == Le64(s, at)
    ensures k <= at ==> Le64(Torn(s, k), at) == 0
  {
    assert forall i :: at <= i < at + 8 ==> Torn(s, k)[i] <= s[i];
  }

  /** A torn integer that reads whole is whole, byte by byte. */
  lemma {:induction false} WholeLe64(s: seq<byte>, k: nat, at: nat)
    requires k <= |s| && at + 8 <= |s| && Le64(Torn(s, k), at) == Le64(s, at)
    ensures Torn(s, k)[at..at + 8] == s[at..at + 8]
  {
    assert forall i :: at <= i < at + 8 ==> Torn(s, k)[i] <= s[i];
    assert forall i :: at <= i < at + 8 ==> Torn(s, k)[i] == s[i];
  }

  lemma {:induction false} TornLe32(s: seq<byte>, k: nat, at: nat)
    requires k <= |s| && at + 4 <= k
    ensures Le32(Torn(s, k), at) == Le32(s, at)
  {
  }
}
