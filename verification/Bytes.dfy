/** Bytes, single bits, big-endian integers and the four Modbus byte orders. */
module Bytes {

  type byte = x: int | 0 <= x < 256

  // ----- single bits -----

  /** The test `v & (1 << k) != 0`. Beyond the width of v there are no bits set, so a shift that
      drops the 1 off an 8- or 16-bit operand gives the same answer. */
  predicate Bit(v: nat, k: nat) {
    if k == 0 then v % 2 == 1 else Bit(v / 2, k - 1)
  }

  /** `v | (1 << k)`. */
  function WithBit(v: nat, k: nat): (r: nat) {
    if k == 0 then (if v % 2 == 1 then v else v + 1) else 2 * WithBit(v / 2, k - 1) + v % 2
  }

  /** `v &^ (1 << k)`. */
  function WithoutBit(v: nat, k: nat): (r: nat) {
    if k == 0 then v - v % 2 else 2 * WithoutBit(v / 2, k - 1) + v % 2
  }

  function Pow2(n: nat): (p: nat)
    ensures p > 0
  {
    if n == 0 then 1 else 2 * Pow2(n - 1)
  }

  /** Bit k is the parity of the value's quotient by 2^k. */
  lemma {:induction false} BitIsDigit(v: nat, k: nat) returns (quotient: nat, rest: nat)
    ensures v == quotient * Pow2(k) + rest && rest < Pow2(k)
    ensures Bit(v, k) <==> quotient % 2 == 1
  {
    if k == 0 {
      quotient, rest := v, 0;
    } else {
      var r;
      quotient, r := BitIsDigit(v / 2, k - 1);
      rest := 2 * r + v % 2;
      Doubled(quotient, Pow2(k - 1));
    }
  }

  lemma Doubled(q: nat, p: nat)
    ensures q * (2 * p) == 2 * (q * p)
  {
  }

  /** The bits of a number put together from a high and a low part. */
  lemma {:induction false} BitOfParts(high: nat, low: nat, m: nat, k: nat)
    requires low < Pow2(m)
    ensures Bit(high * Pow2(m) + low, k) <==> if k < m then Bit(low, k) else Bit(high, k - m)
    decreases m
  {
    if m > 0 {
      var v := high * Pow2(m) + low;
      Doubled(high, Pow2(m - 1));
      assert v / 2 == high * Pow2(m - 1) + low / 2 && v % 2 == low % 2;
      if k > 0 {
        BitOfParts(high, low / 2, m - 1, k - 1);
      }
    }
  }

  /** The bits of a two-byte word: the second byte holds the lower eight. */
  lemma BitOfWord(high: byte, low: byte, k: nat)
    ensures var h: nat, l: nat := high, low; Bit(256 * h + l, k) <==> if k < 8 then Bit(low, k) else Bit(high, k - 8)
  {
    assert Pow2(4) == 16 && Pow2(8) == 256;
    BitOfParts(high, low, 8, k);
  }

  /** Setting bit k changes bit k only, and stays within the operand's width. */
  lemma {:induction false} SetBit(v: nat, k: nat, j: nat)
    ensures Bit(WithBit(v, k), j) <==> (j == k || Bit(v, j))
    decreases k
  {
    if k > 0 && j > 0 {
      SetBit(v / 2, k - 1, j - 1);
    }
  }

  lemma {:induction false} SetBitWidth(v: nat, k: nat, width: nat)
    requires k < width && v < Pow2(width)
    ensures WithBit(v, k) < Pow2(width)
  {
    assert Pow2(width) == 2 * Pow2(width - 1);
    if k > 0 {
      assert v / 2 < Pow2(width - 1);
      SetBitWidth(v / 2, k - 1, width - 1);
      assert WithBit(v, k) == 2 * WithBit(v / 2, k - 1) + v % 2;
    }
  }

  /** Clearing bit k changes bit k only. */
  lemma {:induction false} ClearBit(v: nat, k: nat, j: nat)
    ensures Bit(WithoutBit(v, k), j) <==> (j != k && Bit(v, j))
    ensures WithoutBit(v, k) <= v
    decreases k
  {
    if k > 0 {
      ClearBit(v / 2, k - 1, if j > 0 then j - 1 else 0);
    }
  }

  lemma {:induction false} NoBitsBeyondWidth(v: nat, width: nat, k: nat)
    requires v < Pow2(width) && width <= k
    ensures !Bit(v, k)
    decreases k
  {
    if k > 0 && width > 0 {
      NoBitsBeyondWidth(v / 2, width - 1, k - 1);
    } else if k > 0 {
      NoBitsBeyondWidth(v, 0, k - 1);
    }
  }

  /** A number is determined by the bits of its width. */
  lemma {:induction false} BitsDetermine(a: nat, b: nat, width: nat)
    requires a < Pow2(width) && b < Pow2(width)
    requires forall k :: 0 <= k < width ==> Bit(a, k) == Bit(b, k)
    ensures a == b
  {
    if width > 0 {
      assert Bit(a, 0) == Bit(b, 0);
      forall k | 0 <= k < width - 1 ensures Bit(a / 2, k) == Bit(b / 2, k) {
        assert Bit(a, k + 1) == Bit(b, k + 1);
      }
      BitsDetermine(a / 2, b / 2, width - 1);
    }
  }

  // ----- big-endian integers -----

  function Pow256(n: nat): (p: nat)
    ensures p > 0
  {
    if n == 0 then 1 else 256 * Pow256(n - 1)
  }

  /** `binary.BigEndian.UintNN` on a whole slice. */
  function FromBigEndian(s: seq<byte>): (v: nat)
    ensures v < Pow256(|s|)
  {
    if s == [] then 0 else 256 * FromBigEndian(s[..|s| - 1]) + s[|s| - 1]
  }

  /** `binary.BigEndian.PutUintNN`: the low n bytes of v, most significant first. */
  function ToBigEndian(v: nat, n: nat): (s: seq<byte>)
    ensures |s| == n
  {
    if n == 0 then [] else ToBigEndian(v / 256, n - 1) + [v % 256]
  }

  lemma BigEndianStep(s: seq<byte>)
    requires s != []
    ensures FromBigEndian(s) == 256 * FromBigEndian(s[..|s| - 1]) + s[|s| - 1]
  {
  }

  /** The number in the first two, four or eight bytes, highest first. */
  function Sum16(o: seq<byte>): nat
    requires |o| >= 2
  {
    var a: nat, b: nat := o[0], o[1];
    0x100 * a + b
  }

  function Sum32(o: seq<byte>): nat
    requires |o| >= 4
  {
    var a: nat, b: nat, c: nat, d: nat := o[0], o[1], o[2], o[3];
    0x100_0000 * a + 0x1_0000 * b + 0x100 * c + d
  }

  function Sum64(o: seq<byte>): nat
    requires |o| >= 8
  {
    var a: nat, b: nat, c: nat, d: nat := o[0], o[1], o[2], o[3];
    var e: nat, f: nat, g: nat, h: nat := o[4], o[5], o[6], o[7];
    0x100_0000_0000_0000 * a + 0x1_0000_0000_0000 * b + 0x100_0000_0000 * c + 0x1_0000_0000 * d
    + 0x100_0000 * e + 0x1_0000 * f + 0x100 * g + h
  }

  lemma BigEndian2(s: seq<byte>)
    requires |s| == 2
    ensures FromBigEndian(s) == Sum16(s)
  {
    BigEndianStep(s);
    BigEndianStep(s[..1]);
    assert s[..1][..0] == [];
  }

  lemma BigEndian4(s: seq<byte>)
    requires |s| == 4
    ensures FromBigEndian(s) == Sum32(s)
  {
    hide FromBigEndian;
    BigEndianStep(s);
    BigEndianStep(s[..3]);
    assert s[..3][..2] == s[..2];
    BigEndian2(s[..2]);
  }

  lemma BigEndian8(s: seq<byte>)
    requires |s| == 8
    ensures FromBigEndian(s) == Sum64(s)
  {
    hide FromBigEndian;
    BigEndianStep(s);
    BigEndianStep(s[..7]);
    BigEndianStep(s[..6]);
    BigEndianStep(s[..5]);
    assert s[..7][..6] == s[..6] && s[..6][..5] == s[..5] && s[..5][..4] == s[..4];
    BigEndian4(s[..4]);
  }

  lemma {:induction false} BigEndianRoundTrip(v: nat, n: nat)
    requires v < Pow256(n)
    ensures FromBigEndian(ToBigEndian(v, n)) == v
  {
    if n > 0 {
      var s, high, rest := ToBigEndian(v, n), v / 256, v % 256;
      assert v == 256 * high + rest && high < Pow256(n - 1);
      BigEndianRoundTrip(high, n - 1);
      assert s == ToBigEndian(high, n - 1) + [rest];
      hide ToBigEndian;
      assert s[..n - 1] == ToBigEndian(high, n - 1) && s[n - 1] == rest;
    }
  }

  /** Decoding loses nothing: slices of one length with equal values are equal. */
  lemma {:induction false} BigEndianInjective(s: seq<byte>, t: seq<byte>)
    requires |s| == |t| && FromBigEndian(s) == FromBigEndian(t)
    ensures s == t
  {
    if s != [] {
      var n := |s| - 1;
      BigEndianInjective(s[..n], t[..n]);
      assert s == s[..n] + [s[n]] && t == t[..n] + [t[n]];
    }
  }

  lemma Powers()
    ensures Pow256(2) == 0x1_0000 && Pow256(4) == 0x1_0000_0000 && Pow256(8) == 0x1_0000_0000_0000_0000
  {
    assert Pow256(3) == 0x100_0000 && Pow256(6) == 0x1_0000_0000_0000;
  }

  /** Reducing a number and reading it back as signed or unsigned restores it. */
  lemma SignedBack(n: int, p: int, signed: bool)
    requires p > 0 && if signed then -p <= 2 * n < p else 0 <= n < p
    ensures 0 <= n % p < p && n == if signed && 2 * (n % p) >= p then n % p - p else n % p
  {
    SmallMod(n, p);
  }

  lemma SmallMod(n: int, p: int)
    requires 0 < p && -p <= n < p
    ensures n % p == if n < 0 then n + p else n
  {
    if n < 0 {
      assert (n + p) % p == n % p;
    }
  }

  // ----- byte orders -----

  /** `OtherOrder` stands for any string the switch does not list, which leaves bytes alone. */
  datatype ByteOrder = BigEndian | LittleEndian | MidBig | MidLittle | OtherOrder

  /** Adjacent bytes trade places; an odd last byte stays. */
  function PairSource(n: nat, p: nat): (q: nat)
    requires p < n
    ensures q < n
  {
    if p >= 2 then 2 + PairSource(n - 2, p - 2) else if n < 2 then p else 1 - p
  }

  /** The halves of each group of four trade places; an incomplete last group stays. */
  function GroupSource(n: nat, p: nat): (q: nat)
    requires p < n
    ensures q < n
  {
    if p >= 4 then 4 + GroupSource(n - 4, p - 4) else if n < 4 then p else if p < 2 then p + 2 else p - 2
  }

  /** The place, in a slice of n bytes, whose content the given order brings to place p. */
  function Source(order: ByteOrder, n: nat, p: nat): (q: nat)
    requires p < n
    ensures q < n
  {
    match order
    case LittleEndian => n - 1 - p
    case MidBig => PairSource(n, p)
    case MidLittle => GroupSource(n, p)
    case _ => p
  }

  lemma {:induction false} PairSourceInvolution(n: nat, p: nat)
    requires p < n
    ensures PairSource(n, PairSource(n, p)) == p
  {
    if p >= 2 {
      PairSourceInvolution(n - 2, p - 2);
    }
  }

  lemma {:induction false} GroupSourceInvolution(n: nat, p: nat)
    requires p < n
    ensures GroupSource(n, GroupSource(n, p)) == p
  {
    if p >= 4 {
      GroupSourceInvolution(n - 4, p - 4);
    }
  }

  lemma {:induction false} PairSourceAt(n: nat, i: nat, p: nat)
    requires i % 2 == 0 && i <= p < n
    ensures PairSource(n, p) == i + PairSource(n - i, p - i)
    decreases i
  {
    if i >= 2 {
      PairSourceAt(n - 2, i - 2, p - 2);
    }
  }

  lemma {:induction false} GroupSourceAt(n: nat, i: nat, p: nat)
    requires i % 4 == 0 && i <= p < n
    ensures GroupSource(n, p) == i + GroupSource(n - i, p - i)
    decreases i
  {
    if i >= 4 {
      GroupSourceAt(n - 4, i - 4, p - 4);
    }
  }

  function Reordered(data: seq<byte>, order: ByteOrder): (r: seq<byte>)
    ensures |r| == |data|
  {
    seq(|data|, p requires 0 <= p < |data| => data[Source(order, |data|, p)])
  }

  /** `now` holds the bytes of `was` from the last to the first. */
  ghost predicate IsReversed(now: seq<byte>, was: seq<byte>) {
    |now| == |was| && forall p :: 0 <= p < |was| ==> now[p] == was[|was| - 1 - p]
  }

  /** In every full pair of places the two bytes traded places; an odd last byte stayed. */
  ghost predicate IsPairSwapped(now: seq<byte>, was: seq<byte>) {
    && |now| == |was|
    && (forall k :: 0 <= k && 2 * k + 1 < |was| ==> now[2 * k] == was[2 * k + 1] && now[2 * k + 1] == was[2 * k])
    && (|was| % 2 == 1 ==> now[|was| - 1] == was[|was| - 1])
  }

  /** In every full group of four the two halves traded places; what is left over stayed. */
  ghost predicate IsHalfSwapped(now: seq<byte>, was: seq<byte>) {
    && |now| == |was|
    && (forall k :: 0 <= k && 4 * k + 3 < |was| ==>
          && now[4 * k] == was[4 * k + 2] && now[4 * k + 1] == was[4 * k + 3]
          && now[4 * k + 2] == was[4 * k] && now[4 * k + 3] == was[4 * k + 1])
    && (forall p :: |was| - |was| % 4 <= p < |was| ==> now[p] == was[p])
  }

  /** Which byte each order brings where, byte by byte. */
  lemma OrdersBytes(data: seq<byte>, order: ByteOrder)
    ensures match order
            case LittleEndian => IsReversed(Reordered(data, order), data)
            case MidBig => IsPairSwapped(Reordered(data, order), data)
            case MidLittle => IsHalfSwapped(Reordered(data, order), data)
            case _ => Reordered(data, order) == data
  {
    match order
    case MidBig => SwapsPairs(data);
    case MidLittle => SwapsHalves(data);
    case _ =>
  }

  lemma SwapsPairs(data: seq<byte>)
    ensures IsPairSwapped(Reordered(data, MidBig), data)
  {
    var n, now := |data|, Reordered(data, MidBig);
    forall k | 0 <= k && 2 * k + 1 < n ensures now[2 * k] == data[2 * k + 1] && now[2 * k + 1] == data[2 * k] {
      PairSourceAt(n, 2 * k, 2 * k);
      PairSourceAt(n, 2 * k, 2 * k + 1);
    }
    if n % 2 == 1 {
      PairSourceAt(n, n - 1, n - 1);
    }
  }

  lemma SwapsHalves(data: seq<byte>)
    ensures IsHalfSwapped(Reordered(data, MidLittle), data)
  {
    var n, now := |data|, Reordered(data, MidLittle);
    forall k | 0 <= k && 4 * k + 3 < n
      ensures now[4 * k] == data[4 * k + 2] && now[4 * k + 1] == data[4 * k + 3]
      ensures now[4 * k + 2] == data[4 * k] && now[4 * k + 3] == data[4 * k + 1]
    {
      GroupSourceAt(n, 4 * k, 4 * k);
      GroupSourceAt(n, 4 * k, 4 * k + 1);
      GroupSourceAt(n, 4 * k, 4 * k + 2);
      GroupSourceAt(n, 4 * k, 4 * k + 3);
    }
    forall p | n - n % 4 <= p < n ensures now[p] == data[p] {
      GroupSourceAt(n, n - n % 4, p);
    }
  }

  /** Every byte order undoes itself on slices of any length. */
  lemma ReorderInvolution(data: seq<byte>, order: ByteOrder)
    ensures Reordered(Reordered(data, order), order) == data
  {
    var once := Reordered(data, order);
    forall p | 0 <= p < |data| ensures Reordered(once, order)[p] == data[p] {
      PairSourceInvolution(|data|, p);
      GroupSourceInvolution(|data|, p);
      assert once[Source(order, |data|, p)] == data[Source(order, |data|, Source(order, |data|, p))];
    }
  }

  /** The buffer after the window of n bytes at `lo` was put in the given order. */
  ghost function ReorderedAt(buf: seq<byte>, lo: nat, n: nat, order: ByteOrder): (r: seq<byte>)
    requires lo + n <= |buf|
    ensures |r| == |buf|
  {
    seq(|buf|, p requires 0 <= p < |buf| =>
      if lo <= p < lo + n then buf[lo + Source(order, n, p - lo)] else buf[p])
  }

  lemma ReorderedWindow(buf: seq<byte>, lo: nat, n: nat, order: ByteOrder)
    requires lo + n <= |buf|
    ensures ReorderedAt(buf, lo, n, order)[lo..lo + n] == Reordered(buf[lo..lo + n], order)
    ensures n <= 1 || order.BigEndian? || order.OtherOrder? ==> ReorderedAt(buf, lo, n, order) == buf
  {
    var after, window := ReorderedAt(buf, lo, n, order), buf[lo..lo + n];
    forall p | 0 <= p < n ensures after[lo..lo + n][p] == Reordered(window, order)[p] {
      var q := Source(order, n, p);
      assert after[lo + p] == buf[lo + q] && window[q] == buf[lo + q];
    }
    if n <= 1 || order.BigEndian? || order.OtherOrder? {
      forall p | 0 <= p < |buf| ensures after[p] == buf[p] {
        if lo <= p < lo + n {
          StaysPut(order, n, p - lo);
        }
      }
    }
  }

  lemma StaysPut(order: ByteOrder, n: nat, p: nat)
    requires p < n && (n <= 1 || order.BigEndian? || order.OtherOrder?)
    ensures Source(order, n, p) == p
  {
  }

  /** Reorders one window of a shared buffer in place. */
  method ReorderBytes(data: array<byte>, lo: nat, n: nat, order: ByteOrder)
    requires lo + n <= data.Length
    modifies data
    ensures data[..] == ReorderedAt(old(data[..]), lo, n, order)
    ensures data[..lo] == old(data[..lo]) && data[lo + n..] == old(data[lo + n..])
    ensures match order
            case LittleEndian => IsReversed(data[lo..lo + n], old(data[lo..lo + n]))
            case MidBig => IsPairSwapped(data[lo..lo + n], old(data[lo..lo + n]))
            case MidLittle => IsHalfSwapped(data[lo..lo + n], old(data[lo..lo + n]))
            case _ => data[..] == old(data[..])
  {
    ghost var was := data[..];
    ReorderWindow(data, lo, n, order);
    ReorderedOutside(was, lo, n, order);
    ReorderedWindow(was, lo, n, order);
    OrdersBytes(was[lo..lo + n], order);
    assert data[lo..lo + n] == data[..][lo..lo + n] && data[..lo] == data[..][..lo] && data[lo + n..] == data[..][lo + n..];
  }

  lemma ReorderedOutside(buf: seq<byte>, lo: nat, n: nat, order: ByteOrder)
    requires lo + n <= |buf|
    ensures ReorderedAt(buf, lo, n, order)[..lo] == buf[..lo]
    ensures ReorderedAt(buf, lo, n, order)[lo + n..] == buf[lo + n..]
  {
  }

  method ReorderWindow(data: array<byte>, lo: nat, n: nat, order: ByteOrder)
    requires lo + n <= data.Length
    modifies data
    ensures data[..] == ReorderedAt(old(data[..]), lo, n, order)
  {
    ReorderedWindow(data[..], lo, n, order);
    if n <= 1 {
      return;
    }
    match order {
      case LittleEndian => ReverseWindow(data, lo, n);
      case MidBig => SwapAdjacent(data, lo, n);
      case MidLittle => SwapHalves(data, lo, n);
      case _ =>
    }
  }

  /** The place p holds what the order brings there, for places below `done`. */
  ghost predicate DoneBelow(now: seq<byte>, was: seq<byte>, lo: nat, n: nat, order: ByteOrder, done: nat)
    requires |now| == |was| && lo + n <= |was| && done <= n
  {
    forall p :: 0 <= p < done ==> now[lo + p] == was[lo + Source(order, n, p)]
  }

  lemma WindowDone(now: seq<byte>, was: seq<byte>, lo: nat, n: nat, order: ByteOrder)
    requires |now| == |was| && lo + n <= |was|
    requires SameOutside(now, was, lo, n)
    requires DoneBelow(now, was, lo, n, order, n)
    ensures now == ReorderedAt(was, lo, n, order)
  {
    forall p | 0 <= p < |was| ensures now[p] == ReorderedAt(was, lo, n, order)[p] {
      if lo <= p < lo + n {
        assert now[lo + (p - lo)] == was[lo + Source(order, n, p - lo)];
      }
    }
  }

  method ReverseWindow(data: array<byte>, lo: nat, n: nat)
    requires 2 <= n && lo + n <= data.Length
    modifies data
    ensures data[..] == ReorderedAt(old(data[..]), lo, n, LittleEndian)
  {
    var i, j := 0, n - 1;
    while i < j
      invariant 0 <= i <= j + 1 <= n && i + j == n - 1
      invariant forall p :: 0 <= p < data.Length && !(lo <= p < lo + n) ==> data[p] == old(data[p])
      invariant forall p :: lo <= p < lo + n && (p < lo + i || lo + j < p) ==> data[p] == old(data[lo + (n - 1 - (p - lo))])
      invariant forall p :: lo + i <= p <= lo + j ==> data[p] == old(data[p])
    {
      data[lo + i], data[lo + j] := data[lo + j], data[lo + i];
      i, j := i + 1, j - 1;
    }
    WindowDone(data[..], old(data[..]), lo, n, LittleEndian);
  }

  method SwapAdjacent(data: array<byte>, lo: nat, n: nat)
    requires 2 <= n && lo + n <= data.Length
    modifies data
    ensures data[..] == ReorderedAt(old(data[..]), lo, n, MidBig)
  {
    var i := 0;
    while i + 1 < n
      invariant 0 <= i <= n && i % 2 == 0
      invariant forall p :: 0 <= p < data.Length && !(lo <= p < lo + i) ==> data[p] == old(data[p])
      invariant DoneBelow(data[..], old(data[..]), lo, n, MidBig, i)
    {
      PairSourceAt(n, i, i);
      PairSourceAt(n, i, i + 1);
      data[lo + i], data[lo + i + 1] := data[lo + i + 1], data[lo + i];
      i := i + 2;
    }
    if i < n {
      PairSourceAt(n, i, i);
    }
    WindowDone(data[..], old(data[..]), lo, n, MidBig);
  }

  method SwapHalves(data: array<byte>, lo: nat, n: nat)
    requires 2 <= n && lo + n <= data.Length
    modifies data
    ensures data[..] == ReorderedAt(old(data[..]), lo, n, MidLittle)
  {
    hide DoneBelow, ReorderedAt, Source;
    ghost var was := data[..];
    var i := 0;
    NoneDone(was, lo, n, MidLittle);
    while i + 3 < n
      invariant 0 <= i <= n && i % 4 == 0
      invariant SameOutside(data[..], was, lo, i)
      invariant DoneBelow(data[..], was, lo, n, MidLittle, i)
    {
      ghost var before := data[..];
      SwapGroup(data, lo + i);
      GroupDone(data[..], before, was, lo, n, i);
      i := i + 4;
    }
    LeftOver(data[..], was, lo, n, i);
    WindowDone(data[..], was, lo, n, MidLittle);
  }

  lemma NoneDone(was: seq<byte>, lo: nat, n: nat, order: ByteOrder)
    requires lo + n <= |was|
    ensures DoneBelow(was, was, lo, n, order, 0)
  {
  }

  ghost predicate SameOutside(now: seq<byte>, was: seq<byte>, lo: nat, n: nat)
    requires |now| == |was|
  {
    forall p :: 0 <= p < |was| && !(lo <= p < lo + n) ==> now[p] == was[p]
  }

  /** The last incomplete group stays. */
  lemma LeftOver(now: seq<byte>, was: seq<byte>, lo: nat, n: nat, i: nat)
    requires |now| == |was| && lo + n <= |was| && i <= n < i + 4 && i % 4 == 0
    requires SameOutside(now, was, lo, i) && DoneBelow(now, was, lo, n, MidLittle, i)
    ensures DoneBelow(now, was, lo, n, MidLittle, n)
  {
    forall p | 0 <= p < n ensures now[lo + p] == was[lo + Source(MidLittle, n, p)] {
      if i <= p {
        GroupSourceAt(n, i, p);
      }
    }
  }

  method SwapGroup(data: array<byte>, at: nat)
    requires at + 4 <= data.Length
    modifies data
    ensures data[..] == old(data[..])[..at] + old([data[at + 2], data[at + 3], data[at], data[at + 1]]) + old(data[..])[at + 4..]
  {
    data[at], data[at + 1], data[at + 2], data[at + 3] := data[at + 2], data[at + 3], data[at], data[at + 1];
  }

  lemma GroupDone(now: seq<byte>, before: seq<byte>, was: seq<byte>, lo: nat, n: nat, i: nat)
    requires |now| == |before| == |was| && lo + n <= |was| && i + 3 < n && i % 4 == 0
    requires DoneBelow(before, was, lo, n, MidLittle, i)
    requires SameOutside(before, was, lo, i)
    requires now == before[..lo + i] + [before[lo + i + 2], before[lo + i + 3], before[lo + i], before[lo + i + 1]] + before[lo + i + 4..]
    ensures DoneBelow(now, was, lo, n, MidLittle, i + 4) && SameOutside(now, was, lo, i + 4)
  {
    forall p | 0 <= p < i + 4 ensures now[lo + p] == was[lo + Source(MidLittle, n, p)] {
      if p < i {
        assert before[lo + p] == was[lo + Source(MidLittle, n, p)];
      } else {
        GroupSourceAt(n, i, p);
      }
    }
  }
}
