/** Block and inode bitmaps (os/libs/ext4_rs/src/utils.rs). */
module Bitmap {
  import Bytes
  import opened Sv39

  // ---- bits of a byte

  /** `1 << k`. */
  function Mask(k: nat): bv8
    requires k < 8
  {
    match k
    case 0 => 0x01 case 1 => 0x02 case 2 => 0x04 case 3 => 0x08
    case 4 => 0x10 case 5 => 0x20 case 6 => 0x40 case _ => 0x80
  }

  predicate BitOf(b: bv8, k: nat)
    requires k < 8
  {
    b & Mask(k) != 0
  }

  lemma FullByte(b: bv8)
    ensures b == 0xFF <==> forall k | 0 <= k < 8 :: BitOf(b, k)
  {
    if forall k | 0 <= k < 8 :: BitOf(b, k) {
      assert BitOf(b, 0) && BitOf(b, 1) && BitOf(b, 2) && BitOf(b, 3) && BitOf(b, 4) && BitOf(b, 5) && BitOf(b, 6) && BitOf(b, 7);
    }
  }

  lemma SetByte(b: bv8, k: nat, j: nat)
    requires k < 8 && j < 8
    ensures BitOf(b | Mask(k), j) <==> BitOf(b, j) || j == k
  {
    assert Mask(k) & Mask(j) == if j == k then Mask(k) else 0;
    SetMasked(b, Mask(k), Mask(j));
  }

  lemma SetMasked(b: bv8, m: bv8, n: bv8)
    ensures (b | m) & n == (b & n) | (m & n)
  {
  }

  // ---- bits of a map

  predicate IsSet(m: seq<bv8>, i: nat)
    requires i < 8 * |m|
  {
    BitOf(m[i / 8], i % 8)
  }

  function Pow2(k: nat): (r: nat)
    ensures r > 0
  {
    if k == 0 then 1 else 2 * Pow2(k - 1)
  }

  /** The byte as a number. */
  function Value(b: bv8): nat { b as nat }

  /** Bit `i` of the map is the bit of weight 2^(i % 8) of byte `i / 8`. */
  lemma BitValue(m: seq<bv8>, i: nat)
    requires i < 8 * |m|
    ensures IsSet(m, i) <==> Value(m[i / 8]) / Pow2(i % 8) % 2 == 1
  {
    ByteBit(m[i / 8], i % 8);
  }

  lemma {:induction false} ByteBit(b: bv8, k: nat)
    requires k < 8
    ensures BitOf(b, k) <==> Value(b) / Pow2(k) % 2 == 1
  {
    hide BitOf, Value;
    if k == 0 {
      LowBit(b);
    } else {
      ByteBit(b >> 1, k - 1);
      Halved(b);
      ShiftedBit(b, k);
      Bytes.DivBy(Value(b), 2, Pow2(k - 1));
    }
  }

  lemma ShiftedBit(b: bv8, k: nat)
    requires 0 < k < 8
    ensures BitOf(b, k) <==> BitOf(b >> 1, k - 1)
  {
  }

  lemma LowBit(b: bv8)
    ensures BitOf(b, 0) <==> Value(b) % 2 == 1
  {
  }

  lemma Halved(b: bv8)
    ensures Value(b >> 1) == Value(b) / 2
  {
  }

  /** The least clear bit from `s` on and below `e`. */
  function LeastClear(m: seq<bv8>, s: nat, e: nat): (r: Option<nat>)
    requires s <= e <= 8 * |m|
    ensures r.None? ==> forall i | s <= i < e :: IsSet(m, i)
    ensures r.Some? ==> s <= r.value < e && !IsSet(m, r.value) && forall i | s <= i < r.value :: IsSet(m, i)
    decreases e - s
  {
    if s == e then None else if !IsSet(m, s) then Some(s) else LeastClear(m, s + 1, e)
  }

  lemma {:induction false} LeastFrom(m: seq<bv8>, s: nat, t: nat, e: nat)
    requires s <= t <= e <= 8 * |m| && forall i | s <= i < t :: IsSet(m, i)
    ensures LeastClear(m, s, e) == LeastClear(m, t, e)
    decreases t - s
  {
    if s < t { LeastFrom(m, s + 1, t, e); }
  }

  function RoundUp8(s: nat): nat { (s + 7) / 8 * 8 }

  /** The boundary is the only multiple of eight from `s` up to it. */
  lemma Rounding(s: nat, i: nat)
    ensures s <= RoundUp8(s)
    ensures s <= i <= RoundUp8(s) ==> (i % 8 == 0 <==> i == RoundUp8(s))
  {
  }

  /** What the scan reports: inside the first, partial byte it names the start instead of the bit. */
  function Reported(m: seq<bv8>, s: nat, e: nat): Option<nat>
    requires s <= e <= 8 * |m|
  {
    var k := LeastClear(m, s, e);
    if k.Some? && k.value < RoundUp8(s) then Some(s) else k
  }

  /** `ext4_bmap_is_bit_clr`. */
  predicate IsClr(m: seq<bv8>, i: nat)
    requires i < 8 * |m|
  {
    !IsSet(m, i)
  }

  lemma FromByte(m: seq<bv8>, p: nat, i: nat)
    requires 8 * p + i < 8 * |m|
    ensures p <= |m| && i < 8 * |m[p..]| && (IsSet(m[p..], i) <==> IsSet(m, 8 * p + i))
  {
    assert (8 * p + i) / 8 == p + i / 8 && (8 * p + i) % 8 == i % 8;
  }

  /** `ext4_bmap_bit_find_clr`: bit by bit to a byte boundary, then whole bytes, then the rest. */
  method FindClr(m: seq<bv8>, s: nat, e: nat) returns (r: Option<nat>)
    requires s <= e <= 8 * |m|
    ensures r == Reported(m, s, e)
  {
    hide BitOf, IsSet, RoundUp8;
    var i := s;
    var bcnt: nat := e - s;
    Rounding(s, s);
    while i % 8 != 0
      invariant s <= i <= RoundUp8(s) && i + bcnt == e
      invariant forall k | s <= k < i :: IsSet(m, k)
      decreases RoundUp8(s) - i
    {
      if bcnt == 0 {
        LeastFrom(m, s, i, e);
        return None;
      }
      if IsClr(m, i) {
        Rounding(s, i);
        LeastFrom(m, s, i, e);
        return Some(s);
      }
      Rounding(s, i);
      i := i + 1;
      bcnt := bcnt - 1;
    }
    Rounding(s, i);
    LeastFrom(m, s, i, e);
    r := ScanBytes(m, i, bcnt);
  }

  /** The aligned part of the scan. */
  method ScanBytes(m: seq<bv8>, s: nat, count: nat) returns (r: Option<nat>)
    requires s % 8 == 0 && s + count <= 8 * |m|
    ensures r == LeastClear(m, s, s + count)
  {
    hide BitOf, IsSet;
    var e := s + count;
    var p, bcnt := s / 8, count;
    while bcnt >= 8
      invariant 0 <= bcnt && 8 * p + bcnt == e && s <= 8 * p
      invariant LeastClear(m, s, e) == LeastClear(m, 8 * p, e)
    {
      if m[p] != 0xFF {
        ClearInside(m, p);
        r := ScanBits(m, p, 8, e);
        return;
      }
      FullInside(m, p);
      LeastFrom(m, 8 * p, 8 * p + 8, e);
      p := p + 1;
      bcnt := bcnt - 8;
    }
    r := ScanBits(m, p, bcnt, e);
  }

  /** The first `n` bits of the map from byte `p` on: a byte that has a clear bit, or the last bits. */
  method ScanBits(m: seq<bv8>, p: nat, n: nat, ghost e: nat) returns (r: Option<nat>)
    requires 8 * p + n <= e <= 8 * |m|
    requires 8 * p + n == e || exists k :: 8 * p <= k < 8 * p + n && !IsSet(m, k)
    ensures r == LeastClear(m, 8 * p, e)
  {
    hide BitOf, IsSet;
    var rest := m[p..];
    var i := 0;
    while i < n
      invariant 0 <= i <= n && forall k | 8 * p <= k < 8 * p + i :: IsSet(m, k)
    {
      FromByte(m, p, i);
      if IsClr(rest, i) {
        LeastFrom(m, 8 * p, 8 * p + i, e);
        return Some(8 * p + i);
      }
      i := i + 1;
    }
    LeastFrom(m, 8 * p, e, e);
    return None;
  }

  lemma FullInside(m: seq<bv8>, p: nat)
    requires p < |m| && m[p] == 0xFF
    ensures forall k | 8 * p <= k < 8 * p + 8 :: IsSet(m, k)
  {
    FullByte(m[p]);
    forall k | 8 * p <= k < 8 * p + 8 ensures IsSet(m, k) {
      assert k / 8 == p;
    }
  }

  lemma ClearInside(m: seq<bv8>, p: nat)
    requires p < |m| && m[p] != 0xFF
    ensures exists k :: 8 * p <= k < 8 * p + 8 && !IsSet(m, k)
  {
    FullByte(m[p]);
    var j :| 0 <= j < 8 && !BitOf(m[p], j);
    assert (8 * p + j) / 8 == p && (8 * p + j) % 8 == j;
    assert !IsSet(m, 8 * p + j);
  }

  /** From a byte-aligned start, which is what both callers pass, the least clear bit is reported. */
  lemma AlignedRight(m: seq<bv8>, s: nat, e: nat)
    requires s <= e <= 8 * |m| && s % 8 == 0
    ensures Reported(m, s, e) == LeastClear(m, s, e)
  {
    assert RoundUp8(s) == s;
  }

  /** From any start: exactly unless the start is taken while another bit before the byte boundary
      (and the end) is free. */
  lemma RightIff(m: seq<bv8>, s: nat, e: nat)
    requires s <= e <= 8 * |m|
    ensures Reported(m, s, e) == LeastClear(m, s, e)
      <==> (s < e && !IsSet(m, s)) || forall i | s <= i < e && i < RoundUp8(s) :: IsSet(m, i)
    ensures Reported(m, s, e) != LeastClear(m, s, e) ==> s < e && Reported(m, s, e) == Some(s) && IsSet(m, s)
  {
    hide BitOf, IsSet;
    var k := LeastClear(m, s, e);
    if k.Some? && k.value < RoundUp8(s) && k.value != s {
      assert !IsSet(m, k.value) && IsSet(m, s);
    }
  }

  /** One byte with bit 1 taken and bit 2 free: a search from bit 1 reports the taken bit 1. */
  lemma UnalignedWrong()
    ensures Reported([0x02], 1, 8) == Some(1) && LeastClear([0x02], 1, 8) == Some(2)
  {
    var m: seq<bv8> := [0x02];
    assert IsSet(m, 1) && !IsSet(m, 2);
    assert LeastClear(m, 1, 8) == LeastClear(m, 2, 8) == Some(2);
  }

  // ---- setting

  function SetBit(m: seq<bv8>, i: nat): (r: seq<bv8>)
    requires i < 8 * |m|
  {
    m[i / 8 := m[i / 8] | Mask(i % 8)]
  }

  lemma SetOnly(m: seq<bv8>, i: nat, j: nat)
    requires i < 8 * |m| && j < 8 * |m|
    ensures IsSet(SetBit(m, i), j) <==> IsSet(m, j) || j == i
  {
    if i / 8 == j / 8 {
      SetByte(m[i / 8], i % 8, j % 8);
      assert i % 8 == j % 8 ==> i == j;
    }
  }

  /** `ext4_bmap_bit_set`, in place. */
  method BitSet(bmap: array<bv8>, i: nat)
    requires i < 8 * bmap.Length
    modifies bmap
    ensures bmap[..] == SetBit(old(bmap[..]), i)
    ensures forall j | 0 <= j < 8 * bmap.Length :: IsSet(bmap[..], j) <==> old(IsSet(bmap[..], j)) || j == i
  {
    ghost var m := bmap[..];
    bmap[i / 8] := bmap[i / 8] | Mask(i % 8);
    assert bmap[..] == SetBit(m, i);
    forall j | 0 <= j < 8 * bmap.Length ensures IsSet(bmap[..], j) <==> IsSet(m, j) || j == i { SetOnly(m, i, j); }
  }

  // ---- allocation

  /** Find, then set. The result of the search is not looked at: with nothing free, bit 0 is named. */
  method Allocate(bmap: array<bv8>, s: nat, e: nat) returns (bit: nat)
    requires s <= e <= 8 * bmap.Length && bmap.Length > 0 && s % 8 == 0
    modifies bmap
    ensures bit == Named(old(bmap[..]), s, e) && bmap[..] == SetBit(old(bmap[..]), bit)
  {
    AlignedRight(bmap[..], s, e);
    var r := FindClr(bmap[..], s, e);
    bit := if r.Some? then r.value else 0;
    BitSet(bmap, bit);
  }

  function Named(m: seq<bv8>, s: nat, e: nat): (bit: nat)
    requires s <= e <= 8 * |m| && |m| > 0
    ensures bit < 8 * |m|
  {
    var k := LeastClear(m, s, e);
    if k.Some? then k.value else 0
  }

  /** The bits named by allocations with the given starts, in order. */
  function Allocated(m: seq<bv8>, starts: seq<nat>, e: nat): (bits: seq<nat>)
    requires |m| > 0 && e <= 8 * |m| && forall i | 0 <= i < |starts| :: starts[i] <= e
    ensures |bits| == |starts|
    decreases |starts|
  {
    if starts == [] then [] else var b := Named(m, starts[0], e); [b] + Allocated(SetBit(m, b), starts[1..], e)
  }

  /** Every search finds something. */
  ghost predicate NeverFull(m: seq<bv8>, starts: seq<nat>, e: nat)
    requires |m| > 0 && e <= 8 * |m| && forall i | 0 <= i < |starts| :: starts[i] <= e
    decreases |starts|
  {
    starts == [] || (LeastClear(m, starts[0], e).Some? && NeverFull(SetBit(m, Named(m, starts[0], e)), starts[1..], e))
  }

  /** The bits were clear in `m`, lie from their start on and below `e`, and are all different. */
  ghost predicate ClearAndDistinct(m: seq<bv8>, starts: seq<nat>, bits: seq<nat>, e: nat)
    requires |bits| == |starts| && e <= 8 * |m|
  {
    && (forall i | 0 <= i < |bits| :: starts[i] <= bits[i] < e && !IsSet(m, bits[i]))
    && (forall i, j | 0 <= i < j < |bits| :: bits[i] != bits[j])
  }

  lemma {:induction false} FoundAreDistinct(m: seq<bv8>, starts: seq<nat>, e: nat)
    requires |m| > 0 && e <= 8 * |m| && (forall i | 0 <= i < |starts| :: starts[i] <= e) && NeverFull(m, starts, e)
    ensures ClearAndDistinct(m, starts, Allocated(m, starts, e), e)
    decreases |starts|
  {
    hide BitOf, IsSet, SetBit;
    if starts != [] {
      var b := Named(m, starts[0], e);
      SetSize(m, b);
      FoundAreDistinct(SetBit(m, b), starts[1..], e);
      forall j | 0 <= j < 8 * |m| ensures IsSet(SetBit(m, b), j) <==> IsSet(m, j) || j == b { SetOnly(m, b, j); }
    }
  }

  /** The number of clear bits in `[s, e)`. */
  function ClearBits(m: seq<bv8>, s: nat, e: nat): (n: nat)
    requires s <= e <= 8 * |m|
    ensures n > 0 <==> LeastClear(m, s, e).Some?
    decreases e - s
  {
    if s == e then 0 else (if IsSet(m, s) then 0 else 1) + ClearBits(m, s + 1, e)
  }

  lemma {:induction false} ClearAfterSet(m: seq<bv8>, b: nat, s: nat, e: nat)
    requires b < 8 * |m| && s <= e <= 8 * |m| && !IsSet(m, b) && |SetBit(m, b)| == |m|
    ensures ClearBits(SetBit(m, b), s, e) == ClearBits(m, s, e) - (if s <= b < e then 1 else 0)
    decreases e - s
  {
    hide BitOf, IsSet, SetBit, LeastClear;
    if s < e {
      ClearAfterSet(m, b, s + 1, e);
      SetOnly(m, b, s);
    }
  }

  /** Searches go on succeeding while there are more clear bits from the next start than
      allocations before it. */
  lemma {:induction false} EnoughClear(m: seq<bv8>, starts: seq<nat>, e: nat)
    requires |m| > 0 && e <= 8 * |m| && (forall i | 0 <= i < |starts| :: starts[i] <= e)
    requires forall i | 0 <= i < |starts| :: ClearBits(m, starts[i], e) > i
    ensures NeverFull(m, starts, e)
    decreases |starts|
  {
    hide BitOf, IsSet, SetBit, LeastClear, ClearBits;
    if starts != [] {
      var b := Named(m, starts[0], e);
      SetSize(m, b);
      forall i | 0 <= i < |starts[1..]| ensures ClearBits(SetBit(m, b), starts[1..][i], e) > i {
        ClearAfterSet(m, b, starts[1..][i], e);
      }
      EnoughClear(SetBit(m, b), starts[1..], e);
    }
  }

  /** `n` allocations from the same byte-aligned start (see `AlignedRight`), without a free in
      between, name bits that were clear and no bit twice, exactly if at least `n` bits of the
      range are clear. */
  lemma NeverTwice(m: seq<bv8>, s: nat, n: nat, e: nat)
    requires |m| > 0 && s <= e <= 8 * |m|
    ensures var starts := seq(n, _ => s);
            ClearAndDistinct(m, starts, Allocated(m, starts, e), e) <==> n <= ClearBits(m, s, e)
  {
    hide BitOf, IsSet, SetBit, LeastClear, ClearBits, Allocated;
    var starts := seq(n, _ => s);
    var bits := Allocated(m, starts, e);
    if n <= ClearBits(m, s, e) {
      EnoughClear(m, starts, e);
      FoundAreDistinct(m, starts, e);
    } else if ClearAndDistinct(m, starts, bits, e) {
      Pigeonhole(m, s, e, bits);
      assert false;
    }
  }

  /** Different clear bits of a range are no more than there are. */
  lemma {:induction false} Pigeonhole(m: seq<bv8>, s: nat, e: nat, bits: seq<nat>)
    requires s <= e <= 8 * |m|
    requires forall i | 0 <= i < |bits| :: s <= bits[i] < e && !IsSet(m, bits[i])
    requires forall i, j | 0 <= i < j < |bits| :: bits[i] != bits[j]
    ensures |bits| <= ClearBits(m, s, e)
    decreases |bits|
  {
    hide BitOf, IsSet, SetBit, LeastClear, ClearBits;
    if bits != [] {
      var b := bits[0];
      SetSize(m, b);
      ClearAfterSet(m, b, s, e);
      forall i | 0 <= i < |bits[1..]| ensures !IsSet(SetBit(m, b), bits[1..][i]) { SetOnly(m, b, bits[1..][i]); }
      Pigeonhole(SetBit(m, b), s, e, bits[1..]);
    }
  }

  lemma SetSize(m: seq<bv8>, i: nat)
    requires i < 8 * |m|
    ensures |SetBit(m, i)| == |m|
  {
  }

  /** When a search finds nothing, bit 0 is handed out again. */
  lemma FullNamesZero(m: seq<bv8>, s: nat, e: nat)
    requires s <= e <= 8 * |m| && |m| > 0 && s % 8 == 0 && forall i | s <= i < e :: IsSet(m, i)
    ensures Named(m, s, e) == 0
  {
    LeastFrom(m, s, e, e);
  }
}
