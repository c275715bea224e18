/**
 * The IGMPv2 message encoder and the Internet checksum of `internal/service/igmp`. The
 * message is the eight-byte layout of section 2 of RFC 2236 (type, max response time,
 * checksum, group address); the checksum is the one's complement of the one's-complement sum
 * of the 16-bit big-endian words, section 1 of RFC 1071. Go accumulates the words in a
 * `uint32` and then folds the carries back in; `GoChecksum` says exactly that, and
 * `RfcChecksum` is the end-around-carry definition it is proved equal to.
 */
module Checksum {
  type Byte = b: int | 0 <= b < 256

  /** The modulus of Go's `uint32` accumulator. */
  const U32: nat := 0x1_0000_0000
  /** The one's-complement modulus, 2^16 - 1. */
  const M: nat := 0xFFFF

  /** IGMPv2 message types, section 2.1 of RFC 2236. */
  const JoinReport: Byte := 0x16
  const LeaveGroup: Byte := 0x17

  /** The 16-bit word starting at byte `i`; an odd trailing byte is the high half of its word. */
  function Word(data: seq<Byte>, i: nat): (w: nat)
    requires i < |data|
    ensures w <= M
    ensures w / 256 == data[i]
    ensures w % 256 == (if i + 1 < |data| then data[i + 1] else 0)
  {
    if i + 1 < |data| then data[i] as int * 256 + data[i + 1] as int else data[i] as int * 256
  }

  /** The words the checksum adds: one per pair of bytes, the last one padded. */
  function Words(data: seq<Byte>): (ws: seq<nat>)
    ensures |ws| == (|data| + 1) / 2
    ensures forall k :: 0 <= k < |ws| ==> ws[k] == Word(data, 2 * k)
  {
    seq((|data| + 1) / 2, k requires 0 <= k < (|data| + 1) / 2 => Word(data, 2 * k))
  }

  predicate AllWords(ws: seq<nat>) {
    forall k :: 0 <= k < |ws| ==> ws[k] <= M
  }

  /** The plain arithmetic sum. */
  function Sum(ws: seq<nat>): nat {
    if ws == [] then 0 else Sum(ws[..|ws| - 1]) + ws[|ws| - 1]
  }

  lemma {:induction false} SumBound(ws: seq<nat>)
    requires AllWords(ws)
    ensures Sum(ws) <= M * |ws|
  {
    if ws != [] {
      SumBound(ws[..|ws| - 1]);
    }
  }

  /** Replacing one word changes the sum by the difference. */
  lemma {:induction false} SumUpdate(ws: seq<nat>, j: nat, v: nat)
    requires j < |ws|
    ensures Sum(ws[j := v]) + ws[j] == Sum(ws) + v
  {
    var n := |ws| - 1;
    if j < n {
      assert ws[j := v][..n] == ws[..n][j := v];
      SumUpdate(ws[..n], j, v);
    } else {
      assert ws[j := v][..n] == ws[..n];
    }
  }

  /** Go's carry fold: add the high half into the low half until the value fits 16 bits. */
  function Fold(s: nat): (r: nat)
    ensures r <= M
    ensures r == 0 <==> s == 0
    decreases s
  {
    if s > M then Fold(s % 0x10000 + s / 0x10000) else s
  }

  /** The one's-complement value of `s`: 0 only for 0, otherwise the value in 1..M congruent to `s` modulo M. */
  function Canon(s: nat): (r: nat)
    ensures r <= M && (r == 0 <==> s == 0)
    ensures r % M == s % M
  {
    if s == 0 then 0 else if s % M == 0 then M else s % M
  }

  /** `Canon` is the only value with its properties. */
  lemma CanonUnique(s: nat, r: nat)
    requires s > 0 && 1 <= r <= M && r % M == s % M
    ensures Canon(s) == r
  {
  }

  lemma ModShift(t: nat, q: nat)
    ensures (t + M * q) % M == t % M
  {
    var x := t + M * q;
    assert x == M * (q + t / M) + t % M;
  }

  /** The fold computes the one's-complement value. */
  lemma {:induction false} FoldIsCanon(s: nat)
    ensures Fold(s) == Canon(s)
    decreases s
  {
    if s > M {
      var q, r := s / 0x10000, s % 0x10000;
      var t := r + q;
      assert s == t + M * q;
      ModShift(t, q);
      FoldIsCanon(t);
      CanonUnique(s, Canon(t));
    }
  }

  /**
   * The checksum as Go computes it: the word sum wraps modulo 2^32, is folded, and
   * `uint16(^sum)` keeps the low 16 bits of its complement, which is `M - sum` once it fits.
   */
  function GoChecksum(data: seq<Byte>): (c: nat)
    ensures c <= M
  {
    M - Fold(Sum(Words(data)) % U32)
  }

  /** One's-complement addition with end-around carry. */
  function OcAdd(a: nat, b: nat): (r: nat)
    requires a <= M && b <= M
    ensures r <= M
  {
    if a + b > M then a + b - M else a + b
  }

  function OcSum(ws: seq<nat>): (r: nat)
    requires AllWords(ws)
    ensures r <= M
  {
    if ws == [] then 0 else OcAdd(OcSum(ws[..|ws| - 1]), ws[|ws| - 1])
  }

  /** The checksum of section 1 of RFC 1071: the complement of the one's-complement sum. */
  function RfcChecksum(data: seq<Byte>): (c: nat)
    ensures c <= M
  {
    M - OcSum(Words(data))
  }

  lemma ModAdd(x: nat, y: nat, w: nat)
    requires x % M == y % M
    ensures (x + w) % M == (y + w) % M
  {
    assert x == M * (x / M) + x % M;
    assert y == M * (y / M) + y % M;
    assert x + w == M * (x / M) + (x % M + w);
    assert y + w == M * (y / M) + (y % M + w);
    ModShift(x % M + w, x / M);
    ModShift(y % M + w, y / M);
  }

  /** The end-around-carry sum is the one's-complement value of the plain sum. */
  lemma {:induction false} OcSumIsCanon(ws: seq<nat>)
    requires AllWords(ws)
    ensures OcSum(ws) == Canon(Sum(ws))
  {
    if ws != [] {
      var init, w := ws[..|ws| - 1], ws[|ws| - 1];
      OcSumIsCanon(init);
      var a := Sum(init);
      var c := Canon(a);
      if a + w > 0 {
        ModAdd(c, a, w);
        if c + w > M {
          assert (c + w - M) % M == (c + w) % M by {
            ModShift(c + w - M, 1);
          }
        }
        CanonUnique(a + w, OcAdd(c, w));
      }
    }
  }

  /**
   * For every message of at most 128 KiB (where the `uint32` sum cannot wrap), Go's checksum
   * is the checksum of RFC 1071.
   */
  lemma GoMatchesRfc(data: seq<Byte>)
    requires |data| <= 0x20000
    ensures GoChecksum(data) == RfcChecksum(data)
  {
    var ws := Words(data);
    NoWrap(data);
    assert Sum(ws) % U32 == Sum(ws);
    FoldIsCanon(Sum(ws));
    OcSumIsCanon(ws);
  }

  /**
   * `newIgmpMsg`: type, zero max response time, the checksum computed over the message with
   * a zero checksum field, written big-endian into bytes 2 and 3, then the group address
   * bytes (`To4()` of the address: four bytes for an IPv4 address, none otherwise).
   */
  function Message(msgType: Byte, group: seq<Byte>): (m: seq<Byte>)
    ensures |m| == 4 + |group| && m[0] == msgType && m[1] == 0 && m[4..] == group
    ensures m[2] as int * 256 + m[3] as int == GoChecksum([msgType, 0, 0, 0] + group)
  {
    var c := GoChecksum([msgType, 0, 0, 0] + group);
    [msgType, 0, c / 256, c % 256] + group
  }

  /** Patching the checksum word into a zero field adds it to the plain sum. */
  lemma MessageSum(msgType: Byte, group: seq<Byte>)
    ensures Sum(Words(Message(msgType, group))) == Sum(Words([msgType, 0, 0, 0] + group)) + GoChecksum([msgType, 0, 0, 0] + group)
  {
    var d := [msgType, 0, 0, 0] + group;
    var m := Message(msgType, group);
    var c := GoChecksum(d);
    var wd, wm := Words(d), Words(m);
    assert wd[1] == 0;
    assert wm == wd[1 := c] by {
      forall k | 0 <= k < |wm| ensures wm[k] == wd[1 := c][k] {
        if k == 1 {
          assert wm[1] == m[2] as int * 256 + m[3] as int;
        } else {
          assert m[2 * k] == d[2 * k];
          assert 2 * k + 1 < |m| ==> m[2 * k + 1] == d[2 * k + 1];
        }
      }
    }
    SumUpdate(wd, 1, c);
  }

  /** A sum plus the complement of its one's-complement value is a nonzero multiple of M. */
  lemma ComplementCloses(s: nat)
    ensures s + (M - Canon(s)) > 0
    ensures (s + (M - Canon(s))) % M == 0
  {
    var c := Canon(s);
    ModAdd(c, s, M - c);
    assert (c + (M - c)) % M == 0;
  }

  /**
   * Recomputing the checksum over a finished message gives 0, the receiver's check of
   * section 1 of RFC 1071.
   */
  lemma MessageVerifies(msgType: Byte, group: seq<Byte>)
    requires |group| <= 0x20000 - 4
    ensures GoChecksum(Message(msgType, group)) == 0
  {
    var d := [msgType, 0, 0, 0] + group;
    var m := Message(msgType, group);
    NoWrap(m);
    NoWrap(d);
    MessageSum(msgType, group);
    var s, sm := Sum(Words(d)), Sum(Words(m));
    assert s % U32 == s;
    ClosedSumVerifies(s, sm);
  }

  /** Below 128 KiB the word sum stays below 2^32. */
  lemma NoWrap(data: seq<Byte>)
    requires |data| <= 0x20000
    ensures Sum(Words(data)) < U32
  {
    var ws := Words(data);
    SumBound(ws);
    assert M * |ws| <= M * 0x10000;
  }

  /** A sum closed by the complement of its own checksum folds to M, so its checksum is 0. */
  lemma ClosedSumVerifies(s: nat, sm: nat)
    requires s < U32 && sm < U32
    requires sm == s + (M - Fold(s))
    ensures M - Fold(sm % U32) == 0
  {
    FoldIsCanon(s);
    ComplementCloses(s);
    assert sm % U32 == sm;
    FoldIsCanon(sm);
    assert sm > 0 && sm % M == 0;
    CanonUnique(sm, M);
    assert Fold(sm) == M;
  }

  /** The join report for the all-hosts group 224.0.0.1 is `16 00 09 FE E0 00 00 01`. */
  lemma AllHostsJoinVector()
    ensures Message(JoinReport, [0xE0, 0x00, 0x00, 0x01]) == [0x16, 0x00, 0x09, 0xFE, 0xE0, 0x00, 0x00, 0x01]
  {
    var d: seq<Byte> := [0x16, 0x00, 0x00, 0x00, 0xE0, 0x00, 0x00, 0x01];
    var ws := Words(d);
    assert ws == [0x1600, 0x0000, 0xE000, 0x0001];
    assert Sum(ws[..1]) == 0x1600 by {
      assert ws[..1][..0] == [];
    }
    assert Sum(ws[..2]) == 0x1600 by {
      assert ws[..2][..1] == ws[..1];
    }
    assert Sum(ws[..3]) == 0xF600 by {
      assert ws[..3][..2] == ws[..2];
    }
    assert ws[..4] == ws;
    assert Sum(ws) == 0xF601 by {
      assert ws[..3] == ws[..|ws| - 1];
    }
    assert GoChecksum(d) == 0x09FE;
    assert [JoinReport, 0, 0, 0] + [0xE0, 0x00, 0x00, 0x01] == d;
    assert 0x09FE / 256 == 0x09 && 0x09FE % 256 == 0xFE;
  }

  /** An odd final byte is the high half of a word whose low half is zero. */
  lemma OddTrailingByte(data: seq<Byte>)
    requires |data| % 2 == 1
    ensures Words(data)[|data| / 2] == data[|data| - 1] as int * 256
  {
  }

  /** `calculateChecksum`: the word loop on a wrapping `uint32`, the fold loop, and `uint16(^sum)`. */
  method CalculateChecksum(data: seq<Byte>) returns (c: nat)
    ensures c == GoChecksum(data)
  {
    var sum := SumWords(data);
    sum := FoldCarries(sum);
    Complement16(sum);
    c := (0xFFFF_FFFF - sum) % 0x10000;
  }

  /** The word loop: each word is added to the `uint32` accumulator, which wraps. */
  method SumWords(data: seq<Byte>) returns (sum: nat)
    ensures sum == Sum(Words(data)) % U32
  {
    ghost var ws := Words(data);
    sum := 0;
    var i := 0;
    while i < |data|
      invariant i % 2 == 0 && i <= |data| + 1
      invariant sum == Sum(ws[..i / 2]) % U32
    {
      var w: nat;
      if i + 1 < |data| {
        w := data[i] as int * 256 + data[i + 1] as int;
      } else {
        w := data[i] as int * 256;
      }
      assert w == ws[i / 2];
      assert ws[..i / 2 + 1][..i / 2] == ws[..i / 2];
      WrapAdd(Sum(ws[..i / 2]), w);
      sum := (sum + w) % U32;
      i := i + 2;
    }
    assert ws[..i / 2] == ws;
  }

  /** Adding to a wrapped accumulator wraps the true sum. */
  lemma WrapAdd(a: nat, w: nat)
    ensures (a % U32 + w) % U32 == (a + w) % U32
  {
    assert a + w == U32 * (a / U32) + (a % U32 + w);
    ModShift32(a % U32 + w, a / U32);
  }

  lemma ModShift32(t: nat, q: nat)
    ensures (t + U32 * q) % U32 == t % U32
  {
    var x := t + U32 * q;
    assert x == U32 * (q + t / U32) + t % U32;
  }

  /** The fold loop: carries are added back in until the value fits 16 bits. */
  method FoldCarries(wrapped: nat) returns (sum: nat)
    ensures sum == Fold(wrapped)
  {
    sum := wrapped;
    while sum > 0xFFFF
      invariant Fold(sum) == Fold(wrapped)
      decreases sum
    {
      sum := sum % 0x10000 + sum / 0x10000;
    }
  }

  /** `uint16(^sum)` for a 16-bit `sum`: the low half of the 32-bit complement. */
  lemma Complement16(sum: nat)
    requires sum <= M
    ensures (0xFFFF_FFFF - sum) % 0x10000 == M - sum
  {
    assert 0xFFFF_FFFF - sum == 0xFFFF * 0x10000 + (M - sum);
  }

  /** `newIgmpMsg`: the four header bytes and the address go into a buffer, then bytes 2-3 are patched. */
  method NewIgmpMsg(msgType: Byte, group: seq<Byte>) returns (packet: array<Byte>)
    ensures fresh(packet)
    ensures packet[..] == Message(msgType, group)
  {
    packet := WriteBuffer(msgType, group);
    var checksum := CalculateChecksum(packet[..]);
    packet[2] := checksum / 256;
    packet[3] := checksum % 256;
    assert packet[..] == [msgType, 0, checksum / 256, checksum % 256] + group;
  }

  /** The buffer before the patch: type, zero max response time, a zero checksum field, the address. */
  method WriteBuffer(msgType: Byte, group: seq<Byte>) returns (packet: array<Byte>)
    ensures fresh(packet)
    ensures packet[..] == [msgType, 0, 0, 0] + group
  {
    packet := new Byte[4 + |group|](i => 0);
    packet[0] := msgType;
    for j := 0 to |group|
      invariant packet[0] == msgType && packet[1] == 0 && packet[2] == 0 && packet[3] == 0
      invariant forall k :: 0 <= k < j ==> packet[4 + k] == group[k]
    {
      packet[4 + j] := group[j];
    }
    assert packet[..] == [msgType, 0, 0, 0] + group by {
      forall k | 0 <= k < packet.Length ensures packet[k] == ([msgType, 0, 0, 0] + group)[k] {
        if k >= 4 {
          assert packet[4 + (k - 4)] == group[k - 4];
        }
      }
    }
  }
}
