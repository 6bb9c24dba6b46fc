/** CRC-32C (os/libs/ext4_rs/src/utils.rs) against polynomial division, section 12.1 of RFC 3720. */
module Crc32c {
  // ---- the table, sixteen entries to a row

  function Row0(j: bv8): bv32
  {
    match j
    case 0 => 0x00000000 case 1 => 0xF26B8303 case 2 => 0xE13B70F7 case 3 => 0x1350F3F4
    case 4 => 0xC79A971F case 5 => 0x35F1141C case 6 => 0x26A1E7E8 case 7 => 0xD4CA64EB
    case 8 => 0x8AD958CF case 9 => 0x78B2DBCC case 10 => 0x6BE22838 case 11 => 0x9989AB3B
    case 12 => 0x4D43CFD0 case 13 => 0xBF284CD3 case 14 => 0xAC78BF27 case _ => 0x5E133C24
  }

  function Row1(j: bv8): bv32
  {
    match j
    case 0 => 0x105EC76F case 1 => 0xE235446C case 2 => 0xF165B798 case 3 => 0x030E349B
    case 4 => 0xD7C45070 case 5 => 0x25AFD373 case 6 => 0x36FF2087 case 7 => 0xC494A384
    case 8 => 0x9A879FA0 case 9 => 0x68EC1CA3 case 10 => 0x7BBCEF57 case 11 => 0x89D76C54
    case 12 => 0x5D1D08BF case 13 => 0xAF768BBC case 14 => 0xBC267848 case _ => 0x4E4DFB4B
  }

  function Row2(j: bv8): bv32
  {
    match j
    case 0 => 0x20BD8EDE case 1 => 0xD2D60DDD case 2 => 0xC186FE29 case 3 => 0x33ED7D2A
    case 4 => 0xE72719C1 case 5 => 0x154C9AC2 case 6 => 0x061C6936 case 7 => 0xF477EA35
    case 8 => 0xAA64D611 case 9 => 0x580F5512 case 10 => 0x4B5FA6E6 case 11 => 0xB93425E5
    case 12 => 0x6DFE410E case 13 => 0x9F95C20D case 14 => 0x8CC531F9 case _ => 0x7EAEB2FA
  }

  function Row3(j: bv8): bv32
  {
    match j
    case 0 => 0x30E349B1 case 1 => 0xC288CAB2 case 2 => 0xD1D83946 case 3 => 0x23B3BA45
    case 4 => 0xF779DEAE case 5 => 0x05125DAD case 6 => 0x1642AE59 case 7 => 0xE4292D5A
    case 8 => 0xBA3A117E case 9 => 0x4851927D case 10 => 0x5B016189 case 11 => 0xA96AE28A
    case 12 => 0x7DA08661 case 13 => 0x8FCB0562 case 14 => 0x9C9BF696 case _ => 0x6EF07595
  }

  function Row4(j: bv8): bv32
  {
    match j
    case 0 => 0x417B1DBC case 1 => 0xB3109EBF case 2 => 0xA0406D4B case 3 => 0x522BEE48
    case 4 => 0x86E18AA3 case 5 => 0x748A09A0 case 6 => 0x67DAFA54 case 7 => 0x95B17957
    case 8 => 0xCBA24573 case 9 => 0x39C9C670 case 10 => 0x2A993584 case 11 => 0xD8F2B687
    case 12 => 0x0C38D26C case 13 => 0xFE53516F case 14 => 0xED03A29B case _ => 0x1F682198
  }

  function Row5(j: bv8): bv32
  {
    match j
    case 0 => 0x5125DAD3 case 1 => 0xA34E59D0 case 2 => 0xB01EAA24 case 3 => 0x42752927
    case 4 => 0x96BF4DCC case 5 => 0x64D4CECF case 6 => 0x77843D3B case 7 => 0x85EFBE38
    case 8 => 0xDBFC821C case 9 => 0x2997011F case 10 => 0x3AC7F2EB case 11 => 0xC8AC71E8
    case 12 => 0x1C661503 case 13 => 0xEE0D9600 case 14 => 0xFD5D65F4 case _ => 0x0F36E6F7
  }

  function Row6(j: bv8): bv32
  {
    match j
    case 0 => 0x61C69362 case 1 => 0x93AD1061 case 2 => 0x80FDE395 case 3 => 0x72966096
    case 4 => 0xA65C047D case 5 => 0x5437877E case 6 => 0x4767748A case 7 => 0xB50CF789
    case 8 => 0xEB1FCBAD case 9 => 0x197448AE case 10 => 0x0A24BB5A case 11 => 0xF84F3859
    case 12 => 0x2C855CB2 case 13 => 0xDEEEDFB1 case 14 => 0xCDBE2C45 case _ => 0x3FD5AF46
  }

  function Row7(j: bv8): bv32
  {
    match j
    case 0 => 0x7198540D case 1 => 0x83F3D70E case 2 => 0x90A324FA case 3 => 0x62C8A7F9
    case 4 => 0xB602C312 case 5 => 0x44694011 case 6 => 0x5739B3E5 case 7 => 0xA55230E6
    case 8 => 0xFB410CC2 case 9 => 0x092A8FC1 case 10 => 0x1A7A7C35 case 11 => 0xE811FF36
    case 12 => 0x3CDB9BDD case 13 => 0xCEB018DE case 14 => 0xDDE0EB2A case _ => 0x2F8B6829
  }

  function Row8(j: bv8): bv32
  {
    match j
    case 0 => 0x82F63B78 case 1 => 0x709DB87B case 2 => 0x63CD4B8F case 3 => 0x91A6C88C
    case 4 => 0x456CAC67 case 5 => 0xB7072F64 case 6 => 0xA457DC90 case 7 => 0x563C5F93
    case 8 => 0x082F63B7 case 9 => 0xFA44E0B4 case 10 => 0xE9141340 case 11 => 0x1B7F9043
    case 12 => 0xCFB5F4A8 case 13 => 0x3DDE77AB case 14 => 0x2E8E845F case _ => 0xDCE5075C
  }

  function Row9(j: bv8): bv32
  {
    match j
    case 0 => 0x92A8FC17 case 1 => 0x60C37F14 case 2 => 0x73938CE0 case 3 => 0x81F80FE3
    case 4 => 0x55326B08 case 5 => 0xA759E80B case 6 => 0xB4091BFF case 7 => 0x466298FC
    case 8 => 0x1871A4D8 case 9 => 0xEA1A27DB case 10 => 0xF94AD42F case 11 => 0x0B21572C
    case 12 => 0xDFEB33C7 case 13 => 0x2D80B0C4 case 14 => 0x3ED04330 case _ => 0xCCBBC033
  }

  function RowA(j: bv8): bv32
  {
    match j
    case 0 => 0xA24BB5A6 case 1 => 0x502036A5 case 2 => 0x4370C551 case 3 => 0xB11B4652
    case 4 => 0x65D122B9 case 5 => 0x97BAA1BA case 6 => 0x84EA524E case 7 => 0x7681D14D
    case 8 => 0x2892ED69 case 9 => 0xDAF96E6A case 10 => 0xC9A99D9E case 11 => 0x3BC21E9D
    case 12 => 0xEF087A76 case 13 => 0x1D63F975 case 14 => 0x0E330A81 case _ => 0xFC588982
  }

  function RowB(j: bv8): bv32
  {
    match j
    case 0 => 0xB21572C9 case 1 => 0x407EF1CA case 2 => 0x532E023E case 3 => 0xA145813D
    case 4 => 0x758FE5D6 case 5 => 0x87E466D5 case 6 => 0x94B49521 case 7 => 0x66DF1622
    case 8 => 0x38CC2A06 case 9 => 0xCAA7A905 case 10 => 0xD9F75AF1 case 11 => 0x2B9CD9F2
    case 12 => 0xFF56BD19 case 13 => 0x0D3D3E1A case 14 => 0x1E6DCDEE case _ => 0xEC064EED
  }

  function RowC(j: bv8): bv32
  {
    match j
    case 0 => 0xC38D26C4 case 1 => 0x31E6A5C7 case 2 => 0x22B65633 case 3 => 0xD0DDD530
    case 4 => 0x0417B1DB case 5 => 0xF67C32D8 case 6 => 0xE52CC12C case 7 => 0x1747422F
    case 8 => 0x49547E0B case 9 => 0xBB3FFD08 case 10 => 0xA86F0EFC case 11 => 0x5A048DFF
    case 12 => 0x8ECEE914 case 13 => 0x7CA56A17 case 14 => 0x6FF599E3 case _ => 0x9D9E1AE0
  }

  function RowD(j: bv8): bv32
  {
    match j
    case 0 => 0xD3D3E1AB case 1 => 0x21B862A8 case 2 => 0x32E8915C case 3 => 0xC083125F
    case 4 => 0x144976B4 case 5 => 0xE622F5B7 case 6 => 0xF5720643 case 7 => 0x07198540
    case 8 => 0x590AB964 case 9 => 0xAB613A67 case 10 => 0xB831C993 case 11 => 0x4A5A4A90
    case 12 => 0x9E902E7B case 13 => 0x6CFBAD78 case 14 => 0x7FAB5E8C case _ => 0x8DC0DD8F
  }

  function RowE(j: bv8): bv32
  {
    match j
    case 0 => 0xE330A81A case 1 => 0x115B2B19 case 2 => 0x020BD8ED case 3 => 0xF0605BEE
    case 4 => 0x24AA3F05 case 5 => 0xD6C1BC06 case 6 => 0xC5914FF2 case 7 => 0x37FACCF1
    case 8 => 0x69E9F0D5 case 9 => 0x9B8273D6 case 10 => 0x88D28022 case 11 => 0x7AB90321
    case 12 => 0xAE7367CA case 13 => 0x5C18E4C9 case 14 => 0x4F48173D case _ => 0xBD23943E
  }

  function RowF(j: bv8): bv32
  {
    match j
    case 0 => 0xF36E6F75 case 1 => 0x0105EC76 case 2 => 0x12551F82 case 3 => 0xE03E9C81
    case 4 => 0x34F4F86A case 5 => 0xC69F7B69 case 6 => 0xD5CF889D case 7 => 0x27A40B9E
    case 8 => 0x79B737BA case 9 => 0x8BDCB4B9 case 10 => 0x988C474D case 11 => 0x6AE7C44E
    case 12 => 0xBE2DA0A5 case 13 => 0x4C4623A6 case 14 => 0x5F16D052 case _ => 0xAD7D5351
  }

  /** `CRC32C_TAB`. */
  function Tab(i: bv8): bv32
  {
    match i >> 4
    case 0 => Row0(i & 0xF)
    case 1 => Row1(i & 0xF)
    case 2 => Row2(i & 0xF)
    case 3 => Row3(i & 0xF)
    case 4 => Row4(i & 0xF)
    case 5 => Row5(i & 0xF)
    case 6 => Row6(i & 0xF)
    case 7 => Row7(i & 0xF)
    case 8 => Row8(i & 0xF)
    case 9 => Row9(i & 0xF)
    case 10 => RowA(i & 0xF)
    case 11 => RowB(i & 0xF)
    case 12 => RowC(i & 0xF)
    case 13 => RowD(i & 0xF)
    case 14 => RowE(i & 0xF)
    case _ => RowF(i & 0xF)
  }

  // ---- the shift register

  const REFLECTED: bv32 := 0x82F63B78

  // the operators under names, so that proofs about many steps need not look inside
  function Xor(a: bv32, b: bv32): bv32 { a ^ b }
  function Half(a: bv32): bv32 { a >> 1 }
  predicate Odd(a: bv32) { a & 1 == 1 }

  /** One step of the reflected shift register. */
  function Shift(c: bv32): bv32 { if Odd(c) then Xor(Half(c), REFLECTED) else Half(c) }

  function Shifts(c: bv32, n: nat): bv32
    decreases n
  {
    if n == 0 then c else Shifts(Shift(c), n - 1)
  }

  // ---- the table is eight steps of the register

  function Pick(i: bv8, m: bv8, w: bv32): bv32 { if i & m != 0 then w else 0 }

  /** The entries for single bits, combined. */
  function Combine(i: bv8): bv32
  {
    Sum(Pick(i, 1, 0xF26B8303), Pick(i, 2, 0xE13B70F7), Pick(i, 4, 0xC79A971F), Pick(i, 8, 0x8AD958CF),
        Pick(i, 16, 0x105EC76F), Pick(i, 32, 0x20BD8EDE), Pick(i, 64, 0x417B1DBC), Pick(i, 128, 0x82F63B78))
  }

  lemma Row0Right(j: bv8)
    requires j < 16
    ensures Row0(j) == Combine(0x00 | j)
  {
  }

  lemma Row1Right(j: bv8)
    requires j < 16
    ensures Row1(j) == Combine(0x10 | j)
  {
  }

  lemma Row2Right(j: bv8)
    requires j < 16
    ensures Row2(j) == Combine(0x20 | j)
  {
  }

  lemma Row3Right(j: bv8)
    requires j < 16
    ensures Row3(j) == Combine(0x30 | j)
  {
  }

  lemma Row4Right(j: bv8)
    requires j < 16
    ensures Row4(j) == Combine(0x40 | j)
  {
  }

  lemma Row5Right(j: bv8)
    requires j < 16
    ensures Row5(j) == Combine(0x50 | j)
  {
  }

  lemma Row6Right(j: bv8)
    requires j < 16
    ensures Row6(j) == Combine(0x60 | j)
  {
  }

  lemma Row7Right(j: bv8)
    requires j < 16
    ensures Row7(j) == Combine(0x70 | j)
  {
  }

  lemma Row8Right(j: bv8)
    requires j < 16
    ensures Row8(j) == Combine(0x80 | j)
  {
  }

  lemma Row9Right(j: bv8)
    requires j < 16
    ensures Row9(j) == Combine(0x90 | j)
  {
  }

  lemma RowARight(j: bv8)
    requires j < 16
    ensures RowA(j) == Combine(0xA0 | j)
  {
  }

  lemma RowBRight(j: bv8)
    requires j < 16
    ensures RowB(j) == Combine(0xB0 | j)
  {
  }

  lemma RowCRight(j: bv8)
    requires j < 16
    ensures RowC(j) == Combine(0xC0 | j)
  {
  }

  lemma RowDRight(j: bv8)
    requires j < 16
    ensures RowD(j) == Combine(0xD0 | j)
  {
  }

  lemma RowERight(j: bv8)
    requires j < 16
    ensures RowE(j) == Combine(0xE0 | j)
  {
  }

  lemma RowFRight(j: bv8)
    requires j < 16
    ensures RowF(j) == Combine(0xF0 | j)
  {
  }

  lemma TabIsCombine(i: bv8)
    ensures Tab(i) == Combine(i)
  {
    hide Row0, Row1, Row2, Row3, Row4, Row5, Row6, Row7, Row8, Row9, RowA, RowB, RowC, RowD, RowE, RowF, Combine;
    var j := i & 0xF;
    assert i == ((i >> 4) << 4) | j;
    match i >> 4 {
      case 0 => Row0Right(j);
      case 1 => Row1Right(j);
      case 2 => Row2Right(j);
      case 3 => Row3Right(j);
      case 4 => Row4Right(j);
      case 5 => Row5Right(j);
      case 6 => Row6Right(j);
      case 7 => Row7Right(j);
      case 8 => Row8Right(j);
      case 9 => Row9Right(j);
      case 10 => RowARight(j);
      case 11 => RowBRight(j);
      case 12 => RowCRight(j);
      case 13 => RowDRight(j);
      case 14 => RowERight(j);
      case _ => RowFRight(j);
    }
  }

  lemma XorHalves(a: bv32, b: bv32)
    ensures Half(Xor(a, b)) == Xor(Half(a), Half(b))
    ensures Odd(Xor(a, b)) <==> Odd(a) != Odd(b)
  {
  }

  lemma Assoc(a: bv32, b: bv32, c: bv32)
    ensures Xor(Xor(a, b), c) == Xor(a, Xor(b, c))
  {
  }

  lemma Comm(a: bv32, b: bv32)
    ensures Xor(a, b) == Xor(b, a)
  {
  }

  lemma Self(a: bv32)
    ensures Xor(a, a) == 0 && Xor(a, 0) == a
  {
  }

  lemma Cancel(x: bv32, y: bv32, p: bv32)
    ensures Xor(Xor(x, p), Xor(y, p)) == Xor(x, y) && Xor(Xor(x, p), y) == Xor(Xor(x, y), p) && Xor(x, Xor(y, p)) == Xor(Xor(x, y), p)
  {
    hide Xor;
    Assoc(x, y, p);
    Assoc(x, p, y);
    Comm(p, y);
    Assoc(Xor(x, p), y, p);
    Assoc(Xor(x, y), p, p);
    Self(p);
    Self(Xor(x, y));
  }

  lemma Linear(a: bv32, b: bv32)
    ensures Shift(Xor(a, b)) == Xor(Shift(a), Shift(b))
  {
    hide Xor, Half, Odd;
    XorHalves(a, b);
    Cancel(Half(a), Half(b), REFLECTED);
  }

  lemma {:induction false} LinearN(a: bv32, b: bv32, n: nat)
    ensures Shifts(Xor(a, b), n) == Xor(Shifts(a, n), Shifts(b, n))
    decreases n
  {
    hide Shift, Xor;
    if n > 0 {
      Linear(a, b);
      LinearN(Shift(a), Shift(b), n - 1);
    }
  }

  lemma OneBit()
    ensures Shifts(0x01, 8) == 0xF26B8303 && Shifts(0x02, 8) == 0xE13B70F7 && Shifts(0x04, 8) == 0xC79A971F && Shifts(0x08, 8) == 0x8AD958CF
    ensures Shifts(0x10, 8) == 0x105EC76F && Shifts(0x20, 8) == 0x20BD8EDE && Shifts(0x40, 8) == 0x417B1DBC && Shifts(0x80, 8) == 0x82F63B78
    ensures Shifts(0, 8) == 0
  {
  }

  function Part(i: bv8, m: bv8): bv32 { (i & m) as bv32 }

  lemma PartShifts(i: bv8, m: bv8, w: bv32)
    requires Shifts(m as bv32, 8) == w && Shifts(0, 8) == 0 && (i & m == 0 || i & m == m) && m != 0
    ensures Shifts(Part(i, m), 8) == Pick(i, m, w)
  {
    hide Shifts;
  }

  /** The sum of eight parts. */
  function Sum(a: bv32, b: bv32, c: bv32, d: bv32, e: bv32, f: bv32, g: bv32, h: bv32): bv32
  {
    Xor(Xor(Xor(Xor(Xor(Xor(Xor(a, b), c), d), e), f), g), h)
  }

  lemma SumShifts(a: bv32, b: bv32, c: bv32, d: bv32, e: bv32, f: bv32, g: bv32, h: bv32)
    ensures Shifts(Sum(a, b, c, d, e, f, g, h), 8)
      == Sum(Shifts(a, 8), Shifts(b, 8), Shifts(c, 8), Shifts(d, 8), Shifts(e, 8), Shifts(f, 8), Shifts(g, 8), Shifts(h, 8))
  {
    hide Shifts, Xor;
    var ab := Xor(a, b);
    var abc := Xor(ab, c);
    var ad := Xor(abc, d);
    var ae := Xor(ad, e);
    var af := Xor(ae, f);
    LinearN(a, b, 8);
    LinearN(ab, c, 8);
    LinearN(abc, d, 8);
    LinearN(ad, e, 8);
    LinearN(ae, f, 8);
    LinearN(af, g, 8);
    LinearN(Xor(af, g), h, 8);
  }

  lemma Parts(i: bv8)
    ensures i as bv32 == Sum(Part(i, 1), Part(i, 2), Part(i, 4), Part(i, 8), Part(i, 16), Part(i, 32), Part(i, 64), Part(i, 128))
  {
  }

  lemma TabIsShifts(i: bv8)
    ensures Tab(i) == Shifts(i as bv32, 8)
  {
    hide Shifts, Tab, Part, Pick, Xor, Sum;
    TabIsCombine(i);
    Parts(i);
    OneBit();
    SumShifts(Part(i, 1), Part(i, 2), Part(i, 4), Part(i, 8), Part(i, 16), Part(i, 32), Part(i, 64), Part(i, 128));
    PartShifts(i, 1, 0xF26B8303);
    PartShifts(i, 2, 0xE13B70F7);
    PartShifts(i, 4, 0xC79A971F);
    PartShifts(i, 8, 0x8AD958CF);
    PartShifts(i, 16, 0x105EC76F);
    PartShifts(i, 32, 0x20BD8EDE);
    PartShifts(i, 64, 0x417B1DBC);
    PartShifts(i, 128, 0x82F63B78);
  }

  ghost predicate LowZero(x: bv32, n: nat)
    decreases n
  {
    n == 0 || (!Odd(x) && LowZero(Half(x), n - 1))
  }

  function Halves(x: bv32, n: nat): bv32
    decreases n
  {
    if n == 0 then x else Halves(Half(x), n - 1)
  }

  lemma {:induction false} ShiftsHalves(x: bv32, n: nat)
    requires LowZero(x, n)
    ensures Shifts(x, n) == Halves(x, n)
    decreases n
  {
    hide Odd, Half, Xor;
    if n > 0 { ShiftsHalves(Half(x), n - 1); }
  }

  lemma EightHalves(x: bv32)
    requires x & 0xFF == 0
    ensures LowZero(x, 8) && Halves(x, 8) == x >> 8
  {
    assert !Odd(x) && !Odd(x >> 1) && !Odd(x >> 2) && !Odd(x >> 3) && !Odd(x >> 4) && !Odd(x >> 5) && !Odd(x >> 6) && !Odd(x >> 7);
    assert Half(x) == x >> 1 && Half(x >> 1) == x >> 2 && Half(x >> 2) == x >> 3 && Half(x >> 3) == x >> 4;
    assert Half(x >> 4) == x >> 5 && Half(x >> 5) == x >> 6 && Half(x >> 6) == x >> 7 && Half(x >> 7) == x >> 8;
    Unroll(x, x >> 1, x >> 2, x >> 3, x >> 4, x >> 5, x >> 6, x >> 7, x >> 8);
  }

  lemma Unroll(x0: bv32, x1: bv32, x2: bv32, x3: bv32, x4: bv32, x5: bv32, x6: bv32, x7: bv32, x8: bv32)
    requires !Odd(x0) && !Odd(x1) && !Odd(x2) && !Odd(x3) && !Odd(x4) && !Odd(x5) && !Odd(x6) && !Odd(x7)
    requires Half(x0) == x1 && Half(x1) == x2 && Half(x2) == x3 && Half(x3) == x4 && Half(x4) == x5 && Half(x5) == x6 && Half(x6) == x7 && Half(x7) == x8
    ensures LowZero(x0, 8) && Halves(x0, 8) == x8
  {
    hide Odd, Half;
    assert LowZero(x4, 4) && Halves(x4, 4) == x8 by {
      assert LowZero(x6, 2) && Halves(x6, 2) == x8;
    }
    assert LowZero(x2, 6) && Halves(x2, 6) == x8;
  }

  function Low8(c: bv32): bv8 { (c & 0xFF) as bv8 }

  lemma Split(c: bv32, b: bv8)
    ensures c ^ (b as bv32) == Xor((Low8(c) ^ b) as bv32, c & 0xFFFFFF00)
    ensures (c & 0xFFFFFF00) & 0xFF == 0 && (c & 0xFFFFFF00) >> 8 == c >> 8
  {
  }

  function TableTurn(c: bv32, b: bv8): bv32 { Tab(Low8(c) ^ b) ^ (c >> 8) }

  lemma TableTurnIs(c: bv32, b: bv8)
    ensures TableTurn(c, b) == Xor(Tab(Low8(c) ^ b), c >> 8)
  {
    hide Tab;
  }

  lemma Glue(x: bv32, lo: bv32, hi: bv32, top: bv32)
    requires x == Xor(lo, hi) && Shifts(hi, 8) == top
    ensures Xor(Shifts(lo, 8), top) == Shifts(x, 8)
  {
    hide Shifts, Xor;
    LinearN(lo, hi, 8);
  }

  /** One turn of the table loop is eight steps of the register. */
  lemma TableStep(c: bv32, b: bv8)
    ensures TableTurn(c, b) == Shifts(c ^ (b as bv32), 8)
  {
    hide Shifts, Tab, Low8, Xor, TableTurn, Halves, LowZero;
    Split(c, b);
    TabIsShifts(Low8(c) ^ b);
    EightHalves(c & 0xFFFFFF00);
    ShiftsHalves(c & 0xFFFFFF00, 8);
    TableTurnIs(c, b);
    Glue(c ^ (b as bv32), (Low8(c) ^ b) as bv32, c & 0xFFFFFF00, c >> 8);
  }

  // ---- one message bit at a time

  /** The low `n` bits, least significant first. */
  function Bits(x: bv32, n: nat): (r: seq<bool>)
    ensures |r| == n
    decreases n
  {
    if n == 0 then [] else [Odd(x)] + Bits(Half(x), n - 1)
  }

  function Flip(c: bv32, bit: bool): bv32 { if bit then Xor(c, 1) else c }

  /** The register after the message bits `m`. */
  function Feed(c: bv32, m: seq<bool>): bv32
    decreases |m|
  {
    if m == [] then c else Feed(Shift(Flip(c, m[0])), m[1..])
  }

  lemma LowBit(x: bv32)
    ensures x == Xor(if Odd(x) then 1 else 0, x & 0xFFFFFFFE) && !Odd(x & 0xFFFFFFFE) && Half(x & 0xFFFFFFFE) == Half(x)
  {
  }

  /** Adding a whole word and stepping is adding its low bit, stepping, and adding the rest. */
  lemma AddStep(c: bv32, x: bv32)
    ensures Shift(Xor(c, x)) == Xor(Shift(Flip(c, Odd(x))), Half(x))
  {
    hide Xor, Half, Odd;
    LowBit(x);
    var low: bv32 := if Odd(x) then 1 else 0;
    var rest := x & 0xFFFFFFFE;
    Assoc(c, low, rest);
    Self(c);
    Linear(Xor(c, low), rest);
  }

  lemma {:induction false} AddByte(c: bv32, x: bv32, n: nat)
    requires Halves(x, n) == 0
    ensures Shifts(Xor(c, x), n) == Feed(c, Bits(x, n))
    decreases n
  {
    hide Xor, Half, Odd, Shift, Flip;
    if n == 0 {
      Self(c);
    } else {
      AddStep(c, x);
      AddByte(Shift(Flip(c, Odd(x))), Half(x), n - 1);
      assert Bits(x, n)[1..] == Bits(Half(x), n - 1);
    }
  }

  function ByteBits(b: bv8): seq<bool> { Bits(b as bv32, 8) }

  lemma ByteFits(b: bv8)
    ensures Halves(b as bv32, 8) == 0
  {
    var x := b as bv32;
    assert Half(x) == x >> 1 && Half(x >> 1) == x >> 2 && Half(x >> 2) == x >> 3 && Half(x >> 3) == x >> 4;
    assert Half(x >> 4) == x >> 5 && Half(x >> 5) == x >> 6 && Half(x >> 6) == x >> 7 && Half(x >> 7) == 0;
    UnrollHalves(x, x >> 1, x >> 2, x >> 3, x >> 4, x >> 5, x >> 6, x >> 7, 0);
  }

  lemma UnrollHalves(x0: bv32, x1: bv32, x2: bv32, x3: bv32, x4: bv32, x5: bv32, x6: bv32, x7: bv32, x8: bv32)
    requires Half(x0) == x1 && Half(x1) == x2 && Half(x2) == x3 && Half(x3) == x4 && Half(x4) == x5 && Half(x5) == x6 && Half(x6) == x7 && Half(x7) == x8
    ensures Halves(x0, 8) == x8
  {
    hide Half;
    assert Halves(x4, 4) == x8 by { assert Halves(x6, 2) == x8; }
    assert Halves(x2, 6) == x8;
  }

  /** The bits of a buffer in transmission order: each byte's least significant bit first. */
  function MessageBits(buf: seq<bv8>): seq<bool>
  {
    if buf == [] then [] else MessageBits(buf[..|buf| - 1]) + ByteBits(buf[|buf| - 1])
  }

  /** CRC-32C of `buf` from the register value `c`, one bit at a time. */
  function Crc(c: bv32, buf: seq<bv8>): bv32 { Feed(c, MessageBits(buf)) }

  lemma {:induction false} FeedMore(c: bv32, a: seq<bool>, b: seq<bool>)
    ensures Feed(c, a + b) == Feed(Feed(c, a), b)
    decreases |a|
  {
    hide Shift, Flip;
    if a == [] {
      assert a + b == b;
    } else {
      assert (a + b)[1..] == a[1..] + b;
      FeedMore(Shift(Flip(c, a[0])), a[1..], b);
    }
  }

  lemma {:induction false} MessageMore(a: seq<bv8>, b: seq<bv8>)
    ensures MessageBits(a + b) == MessageBits(a) + MessageBits(b)
    decreases |b|
  {
    hide ByteBits;
    if b == [] {
      assert a + b == a;
    } else {
      var n := |b| - 1;
      assert (a + b)[..|a + b| - 1] == a + b[..n];
      MessageMore(a, b[..n]);
    }
  }

  /** Calls chained through the register value are one call on the concatenation. */
  lemma Chaining(c: bv32, a: seq<bv8>, b: seq<bv8>)
    ensures Crc(Crc(c, a), b) == Crc(c, a + b)
  {
    MessageMore(a, b);
    FeedMore(c, MessageBits(a), MessageBits(b));
  }

  // ---- the code

  /** `ext4_crc32c`: the table loop computes the bit-by-bit CRC of the first `size` bytes. */
  method Crc32(crc: bv32, buf: seq<bv8>, size: nat) returns (r: bv32)
    requires size <= |buf|
    ensures r == Crc(crc, buf[..size])
  {
    hide Tab, Low8, Feed, MessageBits, TableTurn;
    r := crc;
    var i := 0;
    assert buf[..0] == [];
    CrcNone(crc);
    while i < size
      invariant 0 <= i <= size && r == Crc(crc, buf[..i])
    {
      CrcByte(crc, buf[..i], buf[i]);
      assert buf[..i + 1] == buf[..i] + [buf[i]];
      TableTurnNative(r, buf[i]);
      r := Tab(Low8(r) ^ buf[i]) ^ (r >> 8);
      i := i + 1;
    }
  }

  lemma TableTurnNative(c: bv32, b: bv8)
    ensures TableTurn(c, b) == Tab(Low8(c) ^ b) ^ (c >> 8)
  {
    hide Tab;
  }

  lemma CrcNone(c: bv32)
    ensures Crc(c, []) == c
  {
  }

  lemma CrcByte(c: bv32, buf: seq<bv8>, b: bv8)
    ensures Crc(c, buf + [b]) == TableTurn(Crc(c, buf), b)
  {
    hide Tab, Low8, Feed, TableTurn, ByteBits;
    var s := buf + [b];
    assert s[..|s| - 1] == buf && s[|s| - 1] == b;
    FeedMore(c, MessageBits(buf), ByteBits(b));
    ByteTurn(Crc(c, buf), b);
  }

  lemma ByteTurn(c: bv32, b: bv8)
    ensures Feed(c, ByteBits(b)) == TableTurn(c, b)
  {
    hide Tab, Low8, Feed, TableTurn, Bits, Halves, Shifts, Xor;
    TableStep(c, b);
    ByteFits(b);
    AddByte(c, b as bv32, 8);
    XorNative(c, b as bv32);
  }

  lemma XorNative(a: bv32, b: bv32)
    ensures Xor(a, b) == a ^ b
  {
  }

  // ---- polynomial division

  function Zeros(n: nat): seq<bool> { seq(n, _ => false) }

  /** Sum of two polynomials over the two-element field, as coefficient lists of one length. */
  function Add(a: seq<bool>, b: seq<bool>): (r: seq<bool>)
    requires |a| == |b|
    ensures |r| == |a| && forall i | 0 <= i < |r| :: r[i] == (a[i] != b[i])
  {
    seq(|a|, i requires 0 <= i < |a| => a[i] != b[i])
  }

  /** The low `n` bits, most significant first. */
  function HighFirst(x: bv32, n: nat): (r: seq<bool>)
    ensures |r| == n
    decreases n
  {
    if n == 0 then [] else HighFirst(Half(x), n - 1) + [Odd(x)]
  }

  /** The generator polynomial: x^32 and the 32 coefficients of 0x1EDC6F41. */
  function Divisor(): (r: seq<bool>)
    ensures |r| == 33 && r[0]
  {
    [true] + HighFirst(0x1EDC6F41, 32)
  }

  /** Remainder by schoolbook long division: while the dividend is longer than a remainder, subtract
      the divisor from its front if it leads there, and drop the leading coefficient. */
  function Rem(d: seq<bool>): (r: seq<bool>)
    requires |d| >= 32
    decreases |d|
  {
    if |d| == 32 then d
    else if d[0] then Rem(Add(d[..33], Divisor())[1..] + d[33..])
    else Rem(d[1..])
  }

  /** The register on coefficients: index 0 is the leading one. */
  function RegStep(r: seq<bool>, bit: bool): (r': seq<bool>)
    requires |r| == 32
    ensures |r'| == 32
  {
    var shifted := r[1..] + [false];
    if r[0] != bit then Add(shifted, Divisor()[1..]) else shifted
  }

  /** Message times x^32, with the register added to its first 32 coefficients. */
  function Dividend(r: seq<bool>, m: seq<bool>): (d: seq<bool>)
    requires |r| == 32
    ensures |d| == 32 + |m|
  {
    Add(r + Zeros(|m|), m + Zeros(32))
  }

  lemma DivStep(r: seq<bool>, m: seq<bool>)
    requires |r| == 32 && m != []
    ensures Rem(Dividend(r, m)) == Rem(Dividend(RegStep(r, m[0]), m[1..]))
  {
    hide Rem, Divisor;
    var d, d' := Dividend(r, m), Dividend(RegStep(r, m[0]), m[1..]);
    assert d[0] == (r[0] != m[0]);
    RemStep(d);
    var e := if d[0] then Add(d[..33], Divisor())[1..] + d[33..] else d[1..];
    forall i | 0 <= i < |d'| ensures e[i] == d'[i] {
      assert d[i + 1] == ((r + Zeros(|m|))[i + 1] != (m + Zeros(32))[i + 1]);
    }
    assert e == d';
  }

  lemma RemStep(d: seq<bool>)
    requires |d| > 32
    ensures Rem(d) == Rem(if d[0] then Add(d[..33], Divisor())[1..] + d[33..] else d[1..])
  {
    hide Divisor;
  }

  lemma DividendNone(r: seq<bool>)
    requires |r| == 32
    ensures Rem(Dividend(r, [])) == r
  {
    hide Divisor;
    assert Dividend(r, []) == r;
  }

  lemma {:induction false} BitsXor(a: bv32, b: bv32, n: nat)
    ensures Bits(Xor(a, b), n) == Add(Bits(a, n), Bits(b, n))
    decreases n
  {
    hide Xor, Half, Odd;
    if n > 0 {
      XorHalves(a, b);
      BitsXor(Half(a), Half(b), n - 1);
    }
  }

  lemma {:induction false} HalvesMore(x: bv32, m: nat, n: nat)
    ensures Halves(x, m + n) == Halves(Halves(x, m), n)
    decreases m
  {
    hide Half;
    if m > 0 { HalvesMore(Half(x), m - 1, n); }
  }

  lemma Halves8(x: bv32)
    ensures Halves(x, 8) == x >> 8
  {
    assert Half(x) == x >> 1 && Half(x >> 1) == x >> 2 && Half(x >> 2) == x >> 3 && Half(x >> 3) == x >> 4;
    assert Half(x >> 4) == x >> 5 && Half(x >> 5) == x >> 6 && Half(x >> 6) == x >> 7 && Half(x >> 7) == x >> 8;
    UnrollHalves(x, x >> 1, x >> 2, x >> 3, x >> 4, x >> 5, x >> 6, x >> 7, x >> 8);
  }

  lemma WordFits(x: bv32)
    ensures Halves(x, 32) == 0
  {
    hide Halves;
    HalvesMore(x, 8, 24);
    HalvesMore(x >> 8, 8, 16);
    HalvesMore(x >> 16, 8, 8);
    Halves8(x);
    Halves8(x >> 8);
    Halves8(x >> 16);
    Halves8(x >> 24);
    Bytewise(x);
  }

  lemma Bytewise(x: bv32)
    ensures (x >> 8) >> 8 == x >> 16 && (x >> 16) >> 8 == x >> 24 && (x >> 24) >> 8 == 0
  {
  }

  lemma {:induction false} NoMoreBits(x: bv32, n: nat)
    requires Halves(x, n) == 0
    ensures Bits(x, n + 1) == Bits(x, n) + [false]
    decreases n
  {
    if n == 0 {
      assert !Odd(0) && Bits(Half(0), 0) == [];
    } else {
      hide Half, Odd;
      NoMoreBits(Half(x), n - 1);
    }
  }

  lemma BitsHalf(c: bv32)
    ensures Bits(Half(c), 32) == Bits(c, 32)[1..] + [false]
  {
    hide Half, Odd, Halves;
    WordFits(c);
    NoMoreBits(c, 32);
    assert Bits(c, 33) == [Odd(c)] + Bits(Half(c), 32);
    assert Bits(c, 33)[1..] == (Bits(c, 32) + [false])[1..];
  }

  lemma FlipBits(c: bv32, bit: bool)
    ensures (Odd(Flip(c, bit)) <==> Odd(c) != bit) && Half(Flip(c, bit)) == Half(c)
  {
  }

  lemma {:induction false} BitsSplit(x: bv32, m: nat, n: nat)
    ensures Bits(x, m + n) == Bits(x, m) + Bits(Halves(x, m), n)
    decreases m
  {
    hide Half, Odd;
    if m > 0 { BitsSplit(Half(x), m - 1, n); }
  }

  lemma {:induction false} HighSplit(x: bv32, m: nat, n: nat)
    ensures HighFirst(x, m + n) == HighFirst(Halves(x, n), m) + HighFirst(x, n)
    decreases n
  {
    hide Half, Odd;
    if n > 0 { HighSplit(Half(x), m, n - 1); }
  }

  lemma FourBytes(x: bv32, x1: bv32, x2: bv32, x3: bv32)
    requires Halves(x, 8) == x1 && Halves(x1, 8) == x2 && Halves(x2, 8) == x3
    ensures Bits(x, 32) == Bits(x, 8) + Bits(x1, 8) + Bits(x2, 8) + Bits(x3, 8)
  {
    hide Bits, Halves;
    BitsSplit(x, 8, 24);
    BitsSplit(x1, 8, 16);
    BitsSplit(x2, 8, 8);
  }

  lemma FourHighBytes(x: bv32, x1: bv32, x2: bv32, x3: bv32)
    requires Halves(x, 8) == x1 && Halves(x1, 8) == x2 && Halves(x2, 8) == x3
    ensures HighFirst(x, 32) == HighFirst(x3, 8) + HighFirst(x2, 8) + HighFirst(x1, 8) + HighFirst(x, 8)
  {
    hide HighFirst, Halves;
    HighSplit(x, 24, 8);
    HighSplit(x1, 16, 8);
    HighSplit(x2, 8, 8);
  }

  lemma BitsByte0()
    ensures Bits(0x82F63B78, 8) == [false, false, false, true, true, true, true, false]
  {
  }

  lemma BitsByte1()
    ensures Bits(0x82F63B, 8) == [true, true, false, true, true, true, false, false]
  {
  }

  lemma BitsByte2()
    ensures Bits(0x82F6, 8) == [false, true, true, false, true, true, true, true]
  {
  }

  lemma BitsByte3()
    ensures Bits(0x82, 8) == [false, true, false, false, false, false, false, true]
  {
  }

  lemma HighByte0()
    ensures HighFirst(0x1E, 8) == [false, false, false, true, true, true, true, false]
  {
  }

  lemma HighByte1()
    ensures HighFirst(0x1EDC, 8) == [true, true, false, true, true, true, false, false]
  {
  }

  lemma HighByte2()
    ensures HighFirst(0x1EDC6F, 8) == [false, true, true, false, true, true, true, true]
  {
  }

  lemma HighByte3()
    ensures HighFirst(0x1EDC6F41, 8) == [false, true, false, false, false, false, false, true]
  {
  }

  /** The reflected constant is the generator polynomial written from the other end. */
  lemma Reflection()
    ensures Bits(REFLECTED, 32) == HighFirst(0x1EDC6F41, 32)
  {
    hide Bits, HighFirst, Halves;
    Halves8(0x82F63B78);
    Halves8(0x82F63B);
    Halves8(0x82F6);
    FourBytes(REFLECTED, 0x82F63B, 0x82F6, 0x82);
    Halves8(0x1EDC6F41);
    Halves8(0x1EDC6F);
    Halves8(0x1EDC);
    FourHighBytes(0x1EDC6F41, 0x1EDC6F, 0x1EDC, 0x1E);
    BitsByte0();
    BitsByte1();
    BitsByte2();
    BitsByte3();
    HighByte0();
    HighByte1();
    HighByte2();
    HighByte3();
  }

  lemma RegisterStep(c: bv32, bit: bool)
    ensures Bits(Shift(Flip(c, bit)), 32) == RegStep(Bits(c, 32), bit)
  {
    hide Xor, Half, Odd, Flip, HighFirst;
    var c1 := Flip(c, bit);
    FlipBits(c, bit);
    BitsHalf(c);
    BitsXor(Half(c1), REFLECTED, 32);
    Reflection();
    assert Bits(c, 32)[0] == Odd(c);
    assert Divisor()[1..] == HighFirst(0x1EDC6F41, 32);
  }

  lemma {:induction false} FeedDivides(c: bv32, m: seq<bool>)
    ensures Bits(Feed(c, m), 32) == Rem(Dividend(Bits(c, 32), m))
    decreases |m|
  {
    hide Bits, Shift, Flip, Dividend, Rem, RegStep;
    if m == [] {
      DividendNone(Bits(c, 32));
    } else {
      RegisterStep(c, m[0]);
      DivStep(Bits(c, 32), m);
      FeedDivides(Shift(Flip(c, m[0])), m[1..]);
    }
  }

  /** CRC-32C is the remainder of the message, times x^32 and with the initial register added in
      front, on division by x^32 + 0x1EDC6F41; coefficient 0 of the register leads. */
  lemma CrcIsRemainder(c: bv32, buf: seq<bv8>)
    ensures Bits(Crc(c, buf), 32) == Rem(Dividend(Bits(c, 32), MessageBits(buf)))
  {
    FeedDivides(c, MessageBits(buf));
  }

  // ---- block group descriptors

  const CRC_INIT: bv32 := 0xFFFFFFFF

  function LeBytes(x: bv32): seq<bv8> { [Low8(x), Low8(x >> 8), Low8(x >> 16), Low8(x >> 24)] }

  /** The checksum field, two bytes at 30, read as zero. */
  function Blanked(desc: seq<bv8>): seq<bv8>
    requires |desc| >= 32
  {
    desc[..30] + [0, 0] + desc[32..]
  }

  function Low16(c: bv32): bv32 { c & 0xFFFF }

  lemma ThreeCalls(c: bv32, u: seq<bv8>, g: seq<bv8>, d: seq<bv8>)
    ensures Crc(Crc(Crc(c, u), g), d) == Crc(c, u + g + d)
  {
    hide Crc;
    Chaining(c, u, g);
    Chaining(c, u + g, d);
  }

  /** `get_block_group_checksum`: three chained calls are the CRC of one byte string, cut to 16 bits.
      `desc` is the descriptor's 64 bytes. */
  method GroupChecksum(uuid: seq<bv8>, bgid: bv32, desc: seq<bv8>, descSize: nat) returns (r: bv32)
    requires |desc| == 64 && descSize <= 64
    ensures r == Low16(Crc(CRC_INIT, uuid + LeBytes(bgid) + Blanked(desc)[..descSize]))
  {
    hide Crc, LeBytes, Blanked, Low16;
    var g, d := LeBytes(bgid), Blanked(desc);
    BlankLength(desc);
    LeLength(bgid);
    ThreeCalls(CRC_INIT, uuid, g, d[..descSize]);
    var c1 := Crc32(CRC_INIT, uuid, |uuid|);
    assert uuid[..|uuid|] == uuid;
    var c2 := Crc32(c1, g, 4);
    assert g[..4] == g;
    var c3 := Crc32(c2, d, descSize);
    r := Low16(c3);
  }

  /** What goes in and comes out: the group number's four bytes, lowest first; the descriptor with
      bytes 30 and 31 zero; the low 16 bits, from all ones. */
  lemma GroupParts(bgid: bv32, desc: seq<bv8>)
    requires |desc| == 64
    ensures LeBytes(bgid) == [(bgid & 0xFF) as bv8, ((bgid >> 8) & 0xFF) as bv8, ((bgid >> 16) & 0xFF) as bv8, ((bgid >> 24) & 0xFF) as bv8]
    ensures |Blanked(desc)| == 64 && forall i | 0 <= i < 64 :: Blanked(desc)[i] == if i == 30 || i == 31 then 0 else desc[i]
    ensures CRC_INIT == 0xFFFFFFFF && forall c :: Low16(c) == c & 0xFFFF
  {
  }

  lemma LeLength(x: bv32)
    ensures |LeBytes(x)| == 4
  {
    hide Low8;
  }

  lemma BlankLength(desc: seq<bv8>)
    requires |desc| == 64
    ensures |Blanked(desc)| == 64
  {
  }
}
