/** Sv39 addresses and page table entries: os/src/mm/address.rs and the
    `PageTableEntry` part of os/src/mm/page_table.rs. `usize` values are natural
    numbers below 2^64, shifts and masks are written as division and remainder. */
module Sv39 {
  import Bytes

  const PAGE_SIZE: nat := 4096
  const TWO26: nat := 0x400_0000
  const TWO27: nat := 0x800_0000
  const TWO44: nat := 0x1000_0000_0000
  const TWO52: nat := 0x10_0000_0000_0000
  const TWO54: nat := 0x40_0000_0000_0000
  const TWO64: nat := 0x1_0000_0000_0000_0000
  const TWO63: nat := 0x8000_0000_0000_0000
  const TWO32: nat := 0x1_0000_0000

  /** `KERNEL_SPACE_OFFSET`, a page number: the first page of the upper half. */
  const KERNEL_SPACE_OFFSET: nat := 0xf_ffff_fc00_0000

  datatype Option<+T> = None | Some(value: T)

  // ---- virtual page numbers

  predicate Canonical(vpn: nat)
  {
    vpn < TWO26 || KERNEL_SPACE_OFFSET <= vpn < TWO52
  }

  /** `VirtPageNum::from(usize)`: `None` is the failed assertion. */
  function VpnFromUsize(v: nat): (r: Option<nat>)
    ensures r == if Canonical(v) then Some(v) else None
  {
    var tmp := v / TWO26;
    if tmp == 0 || tmp == TWO26 - 1 then Some(v) else None
  }

  /** The table index the walk uses at `level` (0 is the root). */
  function Index(vpn: nat, level: nat): (i: nat)
    requires level < 3
    ensures i < 512
  {
    if level == 0 then vpn / 0x4_0000 % 512 else if level == 1 then vpn / 512 % 512 else vpn % 512
  }

  /** The page number after peeling `k` times nine bits off. */
  function Peeled(vpn: nat, k: nat): nat { if k == 0 then vpn else Peeled(vpn, k - 1) / 512 }

  lemma PeeledIndex(vpn: nat, level: nat)
    requires level < 3
    ensures Peeled(vpn, 2 - level) % 512 == Index(vpn, level)
  {
    TwoSteps(vpn);
    assert Peeled(vpn, 0) == vpn;
    assert Peeled(vpn, 1) == Peeled(vpn, 0) / 512;
    assert Peeled(vpn, 2) == Peeled(vpn, 1) / 512;
  }

  /** `VirtPageNum::indexes`: the reverse loop that peels nine bits at a time. */
  method Indexes(vpn: nat) returns (idx: array<nat>)
    ensures fresh(idx) && idx.Length == 3
    ensures forall level: nat | level < 3 :: idx[level] == Index(vpn, level)
  {
    hide Index;
    idx := new nat[3](_ => 0);
    var rest := vpn;
    var i := 3;
    while i > 0
      invariant 0 <= i <= 3 && idx.Length == 3
      invariant rest == Peeled(vpn, 3 - i)
      invariant forall level: nat | i <= level < 3 :: idx[level] == Index(vpn, level)
    {
      i := i - 1;
      PeeledIndex(vpn, i);
      idx[i] := rest % 512;
      rest := rest / 512;
    }
  }

  lemma Split512(u: nat)
    ensures u == 512 * (u / 512) + u % 512
  {
  }

  lemma TwoSteps(u: nat)
    ensures u / 0x4_0000 == u / 512 / 512
  {
  }

  lemma Cut27(n: nat, q: nat, r: nat)
    requires n == TWO27 * q + r && r < TWO27
    ensures n % TWO27 == r
  {
  }

  /** The three indexes are the base-512 digits of the low 27 bits. */
  lemma IndexDigits(u: nat)
    ensures u % TWO27 == Index(u, 0) * 0x4_0000 + Index(u, 1) * 512 + Index(u, 2)
  {
    var a := u / 512;
    var b := a / 512;
    TwoSteps(u);
    Digits(u, a, b, b / 512, Index(u, 0), Index(u, 1), Index(u, 2)) by {
      Split512(u);
      Split512(a);
      Split512(b);
    }
  }

  lemma Digits(u: nat, a: nat, b: nat, c: nat, x: nat, y: nat, z: nat)
    requires u == 512 * a + z && a == 512 * b + y && b == 512 * c + x && x < 512 && y < 512 && z < 512
    ensures u % TWO27 == x * 0x4_0000 + y * 512 + z
  {
    Cut27(u, c, x * 0x4_0000 + y * 512 + z);
  }

  lemma DigitsUnique(a: nat, b: nat, c: nat, d: nat, e: nat, f: nat)
    requires a < 512 && b < 512 && c < 512 && d < 512 && e < 512 && f < 512
    requires a * 0x4_0000 + b * 512 + c == d * 0x4_0000 + e * 512 + f
    ensures a == d && b == e && c == f
  {
  }

  /** Two page numbers meet in the same leaf slot exactly when they agree modulo 2^27. */
  lemma SameSlot(u: nat, v: nat)
    ensures (Index(u, 0) == Index(v, 0) && Index(u, 1) == Index(v, 1) && Index(u, 2) == Index(v, 2))
            <==> u % TWO27 == v % TWO27
  {
    IndexDigits(u);
    IndexDigits(v);
    if u % TWO27 == v % TWO27 {
      DigitsUnique(Index(u, 0), Index(u, 1), Index(u, 2), Index(v, 0), Index(v, 1), Index(v, 2));
    }
  }

  /** On canonical page numbers the three indexes determine the page number. */
  lemma IndexesInjective(u: nat, v: nat)
    requires Canonical(u) && Canonical(v)
    requires Index(u, 0) == Index(v, 0) && Index(u, 1) == Index(v, 1) && Index(u, 2) == Index(v, 2)
    ensures u == v
  {
    hide Index;
    SameSlot(u, v);
    CanonicalLow(u);
    CanonicalLow(v);
  }

  /** The low 27 bits determine a canonical page number. */
  lemma CanonicalLow(u: nat)
    requires Canonical(u)
    ensures u == if u % TWO27 < TWO26 then u % TWO27 else u % TWO27 + (TWO52 - TWO27)
  {
  }

  /** The upper half of the root table is exactly the kernel half of the address space. */
  lemma KernelHalf(vpn: nat)
    requires Canonical(vpn)
    ensures Index(vpn, 0) >= 256 <==> vpn >= KERNEL_SPACE_OFFSET
    ensures Index(KERNEL_SPACE_OFFSET, 0) == 256
  {
  }

  /** The index path of a page through the three levels. */
  datatype RawPath = Path(i: nat, j: nat, k: nat)
  type Path = p: RawPath | p.i < 512 && p.j < 512 && p.k < 512 witness Path(0, 0, 0)

  function PathOf(vpn: nat): Path
  {
    Path(Index(vpn, 0), Index(vpn, 1), Index(vpn, 2))
  }

  function VpnOf(p: Path): nat
  {
    (if p.i < 256 then 0 else TWO52 - TWO27) + p.i * 0x4_0000 + p.j * 512 + p.k
  }

  /** Canonical page numbers and index paths are in one-to-one correspondence. */
  lemma PathsAreVpns(vpn: nat, p: Path)
    requires Canonical(vpn)
    ensures VpnOf(PathOf(vpn)) == vpn
    ensures Canonical(VpnOf(p)) && PathOf(VpnOf(p)) == p
  {
    hide Index;
    assert Canonical(VpnOf(p));
    CanonicalLow(VpnOf(p));
    IndexDigits(VpnOf(p));
    DigitsUnique(Index(VpnOf(p), 0), Index(VpnOf(p), 1), Index(VpnOf(p), 2), p.i, p.j, p.k);
    IndexDigits(vpn);
    CanonicalLow(vpn);
    TopDigit(PathOf(vpn));
  }

  lemma TopDigit(p: Path)
    ensures p.i < 256 <==> p.i * 0x4_0000 + p.j * 512 + p.k < TWO26
  {
  }

  // ---- virtual addresses

  /** `VirtAddr::from(usize)`: the check shifts by 39, so it looks at bits 39 to 63 only. */
  predicate VirtAddrOk(va: nat)
  {
    va / 0x80_0000_0000 == 0 || va / 0x80_0000_0000 == 0x1ff_ffff
  }

  function Floor(va: nat): nat { va / PAGE_SIZE }

  function PageOffset(va: nat): (r: nat)
    ensures r < PAGE_SIZE
  {
    va % PAGE_SIZE
  }

  /** The check accepts every canonical address, and besides exactly the 2^38 addresses above the
      lower half and the 2^38 below the upper half, whose bit 38 differs from the bits above it. */
  lemma VirtAddrCheck(va: nat)
    requires va < TWO64
    ensures VirtAddrOk(va)
      <==> Canonical(Floor(va)) || 0x40_0000_0000 <= va < 0x80_0000_0000 || TWO64 - 0x80_0000_0000 <= va < TWO64 - 0x40_0000_0000
    ensures 0x40_0000_0000 <= va < 0x80_0000_0000 || TWO64 - 0x80_0000_0000 <= va < TWO64 - 0x40_0000_0000 ==> !Canonical(Floor(va))
  {
    assert Floor(va) / TWO26 == va / 0x40_0000_0000;
  }

  // ---- page table entries

  datatype Flags = Flags(v: bool, r: bool, w: bool, x: bool, u: bool, g: bool, a: bool, d: bool)

  const V_ONLY := Flags(true, false, false, false, false, false, false, false)

  function Bit(b: bool): nat { if b then 1 else 0 }

  function FlagBits(f: Flags): (r: nat)
    ensures r < 256
  {
    Bit(f.v) + 2 * (Bit(f.r) + 2 * (Bit(f.w) + 2 * (Bit(f.x)
    + 2 * (Bit(f.u) + 2 * (Bit(f.g) + 2 * (Bit(f.a) + 2 * Bit(f.d)))))))
  }

  /** `PageTableEntry::new`: `ppn << 10 | flags`; the 64-bit shift keeps 54 bits of `ppn`. */
  function PteNew(ppn: nat, f: Flags): (bits: nat)
    ensures bits < TWO64
  {
    1024 * (ppn % TWO54) + FlagBits(f)
  }

  function PtePpn(bits: nat): (r: nat)
    ensures r < TWO44
  {
    bits / 1024 % TWO44
  }

  function Half(n: nat): nat { n / 2 }
  predicate Odd(n: nat) { n % 2 == 1 }

  function PteFlags(bits: nat): Flags
  {
    var r := Half(bits);
    var w := Half(r);
    var x := Half(w);
    var u := Half(x);
    var g := Half(u);
    var a := Half(g);
    var d := Half(a);
    Flags(Odd(bits), Odd(r), Odd(w), Odd(x), Odd(u), Odd(g), Odd(a), Odd(d))
  }

  predicate PteValid(bits: nat) { PteFlags(bits).v }

  function Push(rest: nat, b: bool): nat { 2 * rest + Bit(b) }

  lemma Peel(rest: nat, b: bool)
    ensures Half(Push(rest, b)) == rest && Odd(Push(rest, b)) == b
  {
  }

  /** The flags from the top down. */
  function Stacked(f: Flags, base: nat): nat
  {
    Push(Push(Push(Push(Push(Push(Push(Push(4 * base, f.d), f.a), f.g), f.u), f.x), f.w), f.r), f.v)
  }

  lemma StackedIs(f: Flags, base: nat)
    ensures 1024 * base + FlagBits(f) == Stacked(f, base)
  {
    hide Bit;
  }

  lemma FlagsOf(b0: nat, b1: nat, b2: nat, b3: nat, b4: nat, b5: nat, b6: nat, b7: nat, f: Flags)
    requires Half(b0) == b1 && Half(b1) == b2 && Half(b2) == b3 && Half(b3) == b4 && Half(b4) == b5 && Half(b5) == b6 && Half(b6) == b7
    requires Odd(b0) == f.v && Odd(b1) == f.r && Odd(b2) == f.w && Odd(b3) == f.x && Odd(b4) == f.u && Odd(b5) == f.g && Odd(b6) == f.a && Odd(b7) == f.d
    ensures PteFlags(b0) == f
  {
    hide Half, Odd;
  }

  lemma StackedFlags(f: Flags, base: nat)
    ensures PteFlags(Stacked(f, base)) == f
  {
    hide Push, Half, Odd, PteFlags;
    var b7 := Push(4 * base, f.d);
    var b6 := Push(b7, f.a);
    var b5 := Push(b6, f.g);
    var b4 := Push(b5, f.u);
    var b3 := Push(b4, f.x);
    var b2 := Push(b3, f.w);
    var b1 := Push(b2, f.r);
    var b0 := Push(b1, f.v);
    Peel(4 * base, f.d);
    Peel(b7, f.a);
    Peel(b6, f.g);
    Peel(b5, f.u);
    Peel(b4, f.x);
    Peel(b3, f.w);
    Peel(b2, f.r);
    Peel(b1, f.v);
    FlagsOf(b0, b1, b2, b3, b4, b5, b6, b7, f);
  }

  /** The bits above the flags do not matter to the flags. */
  lemma FlagBitsRoundTrip(f: Flags, base: nat)
    ensures PteFlags(1024 * base + FlagBits(f)) == f
  {
    hide FlagBits, Stacked, PteFlags;
    StackedIs(f, base);
    StackedFlags(f, base);
  }

  lemma Cut44(n: nat, q: nat, r: nat)
    requires n == TWO44 * q + r && r < TWO44
    ensures n % TWO44 == r
  {
  }

  lemma Split54(n: nat)
    ensures n == TWO54 * (n / TWO54) + n % TWO54
  {
  }

  lemma Split44(n: nat)
    ensures n == TWO44 * (n / TWO44) + n % TWO44
  {
  }

  lemma CutTwice(ppn: nat)
    ensures ppn % TWO54 % TWO44 == ppn % TWO44
  {
    Split54(ppn);
    Split44(ppn % TWO54);
    Cut44(ppn, 1024 * (ppn / TWO54) + ppn % TWO54 / TWO44, ppn % TWO54 % TWO44);
  }

  /** An entry gives back the page number, cut to 44 bits, and the flags it was made from. */
  lemma PteRoundTrip(ppn: nat, f: Flags)
    ensures PtePpn(PteNew(ppn, f)) == ppn % TWO44
    ensures PteFlags(PteNew(ppn, f)) == f
  {
    CutTwice(ppn);
    FlagBitsRoundTrip(f, ppn % TWO54);
    assert PteNew(ppn, f) / 1024 == ppn % TWO54;
  }

  lemma HalfAgain(n: nat, k: nat)
    requires k > 0
    ensures Half(n / k) == n / (2 * k)
  {
    var q, r := n / k / 2, n / k % 2;
    assert n == (2 * k) * q + (k * r + n % k);
    Bytes.Quotient(n, 2 * k, q, k * r + n % k);
  }

  /** The layout of section 4.4 of the RISC-V Privileged Architecture: V, R, W, X, U, G, A and D in
      bits 0 to 7, two clear bits, the page number from bit 10 on. */
  lemma PteLayout(ppn: nat, f: Flags)
    ensures var b := PteNew(ppn, f);
            && (b % 2 == 1 <==> f.v) && (b / 2 % 2 == 1 <==> f.r) && (b / 4 % 2 == 1 <==> f.w) && (b / 8 % 2 == 1 <==> f.x)
            && (b / 16 % 2 == 1 <==> f.u) && (b / 32 % 2 == 1 <==> f.g) && (b / 64 % 2 == 1 <==> f.a) && (b / 128 % 2 == 1 <==> f.d)
            && b / 256 % 4 == 0 && b / 1024 % TWO44 == ppn % TWO44
  {
    hide PteNew, Half, FlagBits, Odd;
    var b := PteNew(ppn, f);
    PteRoundTrip(ppn, f);
    PteTop(ppn, f);
    BitsOf(b);
  }

  lemma PteTop(ppn: nat, f: Flags)
    ensures PteNew(ppn, f) / 256 % 4 == 0 && PteNew(ppn, f) / 1024 % TWO44 == ppn % TWO44
  {
    PteRoundTrip(ppn, f);
    assert PteNew(ppn, f) / 256 == 4 * (ppn % TWO54);
  }

  lemma BitsOf(b: nat)
    ensures var f := PteFlags(b);
            && (b % 2 == 1 <==> f.v) && (b / 2 % 2 == 1 <==> f.r) && (b / 4 % 2 == 1 <==> f.w) && (b / 8 % 2 == 1 <==> f.x)
            && (b / 16 % 2 == 1 <==> f.u) && (b / 32 % 2 == 1 <==> f.g) && (b / 64 % 2 == 1 <==> f.a) && (b / 128 % 2 == 1 <==> f.d)
  {
    hide Half;
    HalfAgain(b, 1);
    HalfAgain(b, 2);
    HalfAgain(b, 4);
    HalfAgain(b, 8);
    HalfAgain(b, 16);
    HalfAgain(b, 32);
    HalfAgain(b, 64);
  }

  /** A decoded entry. */
  datatype Pte = Pte(ppn: nat, flags: Flags)

  const NO_FLAGS := Flags(false, false, false, false, false, false, false, false)
  const EMPTY := Pte(0, NO_FLAGS)

  function Decode(bits: nat): Pte { Pte(PtePpn(bits), PteFlags(bits)) }

  lemma DecodeEntry(ppn: nat, f: Flags)
    ensures Decode(PteNew(ppn, f)) == Pte(ppn % TWO44, f)
    ensures Decode(0) == EMPTY
  {
    PteRoundTrip(ppn, f);
  }

  /** Adding back what was taken away gives the number again, in 64 bits. */
  lemma SubWraps(a: nat, b: nat)
    requires a < TWO64 && b < TWO64
    ensures SubUsize(a, b) < TWO64 && (SubUsize(a, b) + b) % TWO64 == a
  {
  }

  /** `usize` subtraction, which wraps in the release build. */
  function SubUsize(a: nat, b: nat): nat
    requires b <= TWO64
  {
    if a >= b then a - b else TWO64 + a - b
  }
}
