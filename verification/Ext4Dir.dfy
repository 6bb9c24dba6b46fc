/** Linear directory blocks (os/libs/ext4_rs/src/ext4_impl.rs, ext4_structs/direntry.rs). */
module Ext4Dir {
  import opened Bytes
  import opened Sv39

  const BLOCK_SIZE: nat := 4096
  /** Where the 12-byte tail record begins. */
  const TAIL: nat := 4084
  /** Sizes of the entry struct, with its 255-byte name and padding, and of its fixed part. */
  const ENTRY_SIZE: nat := 264
  const HEADER: nat := 8

  type Name = seq<Byte>

  // ---- records in a block

  function InodeAt(b: seq<Byte>, off: nat): nat requires off + HEADER <= |b| { FromLE(b[off..off + 4]) }
  function LenAt(b: seq<Byte>, off: nat): nat requires off + HEADER <= |b| { FromLE(b[off + 4..off + 6]) }
  function NameLenAt(b: seq<Byte>, off: nat): Byte requires off + HEADER <= |b| { b[off + 6] }
  function KindAt(b: seq<Byte>, off: nat): Byte requires off + HEADER <= |b| { b[off + 7] }

  function NameAt(b: seq<Byte>, off: nat): Name
    requires off + HEADER <= |b| && off + HEADER + NameLenAt(b, off) <= |b|
  {
    b[off + HEADER..off + HEADER + NameLenAt(b, off)]
  }

  function Round4(n: nat): nat { if n % 4 == 0 then n else n + (4 - n % 4) }

  /** What a record with a name of length `n` occupies, as the scan for room counts it. */
  function Used(n: nat): nat { HEADER + Round4(n) }

  /** What the insertion of a name of length `n` asks for: a whole struct, and the name again. */
  function Required(n: nat): nat { Round4(ENTRY_SIZE + n) }

  /** Both are rounded up to the next multiple of 4. */
  lemma Rounded(n: nat)
    ensures Used(n) == (n + 8 + 3) / 4 * 4 && Required(n) == (264 + n + 3) / 4 * 4
  {
  }

  datatype Rec = Rec(inode: nat, len: nat, kind: Byte, name: Name)

  /** A used record that keeps its name inside itself and ends before the tail. */
  ghost predicate RecOk(b: seq<Byte>, off: nat)
  {
    && |b| == BLOCK_SIZE && off + HEADER <= TAIL && InodeAt(b, off) != 0
    && Used(NameLenAt(b, off)) <= LenAt(b, off) && off + LenAt(b, off) <= TAIL
  }

  function RecAt(b: seq<Byte>, off: nat): Rec
    requires RecOk(b, off)
  {
    Rec(InodeAt(b, off), LenAt(b, off), KindAt(b, off), NameAt(b, off))
  }

  /** Used records tile the block from `off` up to the tail. */
  ghost predicate Tiled(b: seq<Byte>, off: nat)
    decreases TAIL - off
  {
    off == TAIL || (off < TAIL && RecOk(b, off) && Tiled(b, off + LenAt(b, off)))
  }

  ghost function Recs(b: seq<Byte>, off: nat): seq<Rec>
    requires Tiled(b, off)
    decreases TAIL - off
  {
    if off == TAIL then [] else [RecAt(b, off)] + Recs(b, off + LenAt(b, off))
  }

  /** `o` is the start of a record, or the tail, on the way from `off`. */
  ghost predicate Reaches(b: seq<Byte>, off: nat, o: nat)
    decreases TAIL - off
  {
    off == o || (off < o <= TAIL && RecOk(b, off) && Reaches(b, off + LenAt(b, off), o))
  }

  ghost function Before(b: seq<Byte>, off: nat, o: nat): seq<Rec>
    requires Reaches(b, off, o)
    decreases TAIL - off
  {
    if off == o then [] else [RecAt(b, off)] + Before(b, off + LenAt(b, off), o)
  }

  lemma {:induction false} Split(b: seq<Byte>, off: nat, o: nat)
    requires Reaches(b, off, o) && Tiled(b, o)
    ensures Tiled(b, off) && Recs(b, off) == Before(b, off, o) + Recs(b, o)
    decreases TAIL - off
  {
    hide RecOk, RecAt;
    if off != o {
      Progress(b, off);
      Split(b, off + LenAt(b, off), o);
    }
  }

  lemma Progress(b: seq<Byte>, off: nat)
    requires RecOk(b, off)
    ensures off + HEADER <= |b| && HEADER <= LenAt(b, off) && off + LenAt(b, off) <= TAIL
  {
  }

  /** One record further. */
  lemma {:induction false} Further(b: seq<Byte>, off: nat, o: nat)
    requires Reaches(b, off, o) && RecOk(b, o) && off <= o
    ensures o + HEADER <= |b| && Reaches(b, off, o + LenAt(b, o)) && Before(b, off, o + LenAt(b, o)) == Before(b, off, o) + [RecAt(b, o)]
    decreases TAIL - off
  {
    hide RecOk, RecAt;
    Progress(b, o);
    if off == o {
      assert Reaches(b, o + LenAt(b, o), o + LenAt(b, o));
    } else {
      Progress(b, off);
      ReachesUp(b, off + LenAt(b, off), o);
      Further(b, off + LenAt(b, off), o);
    }
  }

  lemma ReachesUp(b: seq<Byte>, off: nat, o: nat)
    requires Reaches(b, off, o)
    ensures off <= o
  {
  }

  // ---- frames: a record depends on its own bytes only

  lemma SameRec(b: seq<Byte>, b': seq<Byte>, off: nat)
    requires RecOk(b, off) && |b'| == |b| && off + HEADER <= |b| && b'[off..off + LenAt(b, off)] == b[off..off + LenAt(b, off)]
    ensures RecOk(b', off) && RecAt(b', off) == RecAt(b, off) && LenAt(b', off) == LenAt(b, off)
  {
    hide FromLE;
    var n := LenAt(b, off);
    forall i | off <= i < off + n ensures b'[i] == b[i] {
      assert b'[off..off + n][i - off] == b[off..off + n][i - off];
    }
    assert b'[off..off + 4] == b[off..off + 4] && b'[off + 4..off + 6] == b[off + 4..off + 6];
    assert NameAt(b', off) == NameAt(b, off);
  }

  lemma {:induction false} SameAfter(b: seq<Byte>, b': seq<Byte>, off: nat)
    requires Tiled(b, off) && |b| == |b'| == BLOCK_SIZE && b'[off..TAIL] == b[off..TAIL] && off <= TAIL
    ensures Tiled(b', off) && Recs(b', off) == Recs(b, off)
    decreases TAIL - off
  {
    hide RecOk, RecAt;
    if off != TAIL {
      Progress(b, off);
      SubSlice(b, b', off, TAIL, off, off + LenAt(b, off));
      SameRec(b, b', off);
      SubSlice(b, b', off, TAIL, off + LenAt(b, off), TAIL);
      SameAfter(b, b', off + LenAt(b, off));
    }
  }

  lemma SubSlice(b: seq<Byte>, b': seq<Byte>, lo: nat, hi: nat, i: nat, j: nat)
    requires |b| == |b'| && lo <= i <= j <= hi <= |b| && b'[lo..hi] == b[lo..hi]
    ensures b'[i..j] == b[i..j]
  {
    forall k | i <= k < j ensures b'[k] == b[k] {
      assert b'[lo..hi][k - lo] == b[lo..hi][k - lo];
    }
  }

  lemma {:induction false} SameBefore(b: seq<Byte>, b': seq<Byte>, off: nat, o: nat)
    requires Reaches(b, off, o) && |b| == |b'| == BLOCK_SIZE && off <= o <= TAIL && b'[off..o] == b[off..o]
    ensures Reaches(b', off, o) && Before(b', off, o) == Before(b, off, o)
    decreases TAIL - off
  {
    hide RecOk, RecAt;
    if off != o {
      Progress(b, off);
      ReachesUp(b, off + LenAt(b, off), o);
      SubSlice(b, b', off, o, off, off + LenAt(b, off));
      SameRec(b, b', off);
      SubSlice(b, b', off, o, off + LenAt(b, off), o);
      SameBefore(b, b', off + LenAt(b, off), o);
    }
  }

  // ---- writing entries

  function Zeros(n: nat): seq<Byte> { seq<Byte>(n, _ => 0) }

  /** The 264 bytes of an entry struct; the last one is padding. */
  function EntryBytes(r: Rec, pad: Byte): (e: seq<Byte>)
    requires |r.name| <= 255
    ensures |e| == ENTRY_SIZE
  {
    ToLE(r.inode, 4) + ToLE(r.len, 2) + [|r.name|, r.kind] + r.name + Zeros(255 - |r.name|) + [pad]
  }

  /** The struct at `off` with another length, written back whole. */
  function Relength(b: seq<Byte>, off: nat, len: nat): (r: seq<Byte>)
    requires off + ENTRY_SIZE <= |b|
    ensures |r| == |b|
  {
    Overwrite(b, off, Overwrite(b[off..off + ENTRY_SIZE], 4, ToLE(len, 2)))
  }

  /** `ext4_dir_set_csum`: the last four bytes of the tail. */
  function SetCsum(b: seq<Byte>, csum: seq<Byte>): (r: seq<Byte>)
    requires |b| == BLOCK_SIZE && |csum| == 4
    ensures |r| == |b| && r[..BLOCK_SIZE - 4] == b[..BLOCK_SIZE - 4]
  {
    Overwrite(b, BLOCK_SIZE - 4, csum)
  }

  lemma RelengthBytes(b: seq<Byte>, off: nat, len: nat)
    requires off + ENTRY_SIZE <= |b|
    ensures Relength(b, off, len)[off + 4..off + 6] == ToLE(len, 2)
    ensures forall i | 0 <= i < |b| && !(off + 4 <= i < off + 6) :: Relength(b, off, len)[i] == b[i]
  {
    hide ToLE;
    var e := Overwrite(b[off..off + ENTRY_SIZE], 4, ToLE(len, 2));
    var r := Relength(b, off, len);
    forall i | off <= i < off + ENTRY_SIZE ensures r[i] == e[i - off] {
      assert r[off..off + |e|][i - off] == e[i - off];
    }
    assert e[4..6] == ToLE(len, 2);
    assert r[off + 4] == e[4..6][0] && r[off + 5] == e[4..6][1];
  }

  lemma Pow2()
    ensures Pow256(2) == 0x1_0000 && Pow256(4) == 0x1_0000_0000
  {
    assert Pow256(3) == 0x100_0000;
  }

  /** A record whose length is rewritten keeps everything else. */
  lemma RelengthRec(b: seq<Byte>, off: nat, len: nat)
    requires RecOk(b, off) && off + ENTRY_SIZE <= BLOCK_SIZE && len < 0x1_0000 && Used(NameLenAt(b, off)) <= len && off + len <= TAIL
    ensures RecOk(Relength(b, off, len), off)
    ensures RecAt(Relength(b, off, len), off) == Rec(RecAt(b, off).inode, len, RecAt(b, off).kind, RecAt(b, off).name)
  {
    hide ToLE, FromLE, Relength;
    RelengthBytes(b, off, len);
    var r := Relength(b, off, len);
    Pow2();
    LERoundTrip(len, 2);
    assert r[off..off + 4] == b[off..off + 4];
    assert NameAt(r, off) == NameAt(b, off);
  }

  lemma EntryParts(r: Rec, pad: Byte)
    requires |r.name| <= 255
    ensures var e := EntryBytes(r, pad);
            && e[..4] == ToLE(r.inode, 4) && e[4..6] == ToLE(r.len, 2) && e[6] == |r.name| && e[7] == r.kind
            && e[HEADER..HEADER + |r.name|] == r.name && forall i | HEADER + |r.name| <= i < 263 :: e[i] == 0
  {
    hide ToLE;
  }

  /** A written entry reads back. */
  lemma EntryRec(b: seq<Byte>, off: nat, r: Rec, pad: Byte)
    requires |b| == BLOCK_SIZE && |r.name| <= 255 && 0 < r.inode < 0x1_0000_0000 && r.len < 0x1_0000 && off + ENTRY_SIZE <= BLOCK_SIZE
    requires Used(|r.name|) <= r.len && off + r.len <= TAIL
    ensures RecOk(Overwrite(b, off, EntryBytes(r, pad)), off) && RecAt(Overwrite(b, off, EntryBytes(r, pad)), off) == r
  {
    hide ToLE, FromLE, EntryBytes;
    EntryParts(r, pad);
    var e := EntryBytes(r, pad);
    var b' := Overwrite(b, off, e);
    forall i | 0 <= i < ENTRY_SIZE ensures b'[off + i] == e[i] {
      assert b'[off..off + |e|][i] == e[i];
    }
    Pow2();
    LERoundTrip(r.inode, 4);
    LERoundTrip(r.len, 2);
    assert b'[off..off + 4] == e[..4];
    assert b'[off + 4..off + 6] == e[4..6];
    assert NameAt(b', off) == e[HEADER..HEADER + |r.name|];
  }

  // ---- insertion

  ghost predicate Room(r: Rec, n: nat) { r.len >= Used(|r.name|) + Required(n) }

  /** What `dir_try_insert_entry` does to the record at `o`. */
  function InsertAt(b: seq<Byte>, o: nat, inode: nat, kind: Byte, name: Name, pad: Byte, csum: seq<Byte>): (r: seq<Byte>)
    requires RecOk(b, o) && Room(RecAt(b, o), |name|) && |name| <= 255 && |csum| == 4
    ensures |r| == |b|
  {
    var sz := Used(|RecAt(b, o).name|);
    var entry := EntryBytes(Rec(inode, RecAt(b, o).len - sz, kind, name), pad);
    SetCsum(Overwrite(Relength(b, o, sz), o + sz, entry), csum)
  }

  /** The checksum touches no record. */
  lemma CsumRec(b: seq<Byte>, csum: seq<Byte>, off: nat)
    requires RecOk(b, off) && |csum| == 4
    ensures RecOk(SetCsum(b, csum), off) && RecAt(SetCsum(b, csum), off) == RecAt(b, off)
  {
    hide SetCsum;
    SubSlice(b, SetCsum(b, csum), 0, BLOCK_SIZE - 4, off, off + LenAt(b, off));
    SameRec(b, SetCsum(b, csum), off);
  }

  lemma InsertHere(b: seq<Byte>, o: nat, inode: nat, kind: Byte, name: Name, pad: Byte, csum: seq<Byte>)
    requires RecOk(b, o) && Room(RecAt(b, o), |name|) && |name| <= 255 && |csum| == 4 && 0 < inode < 0x1_0000_0000
    ensures var b', r, sz := InsertAt(b, o, inode, kind, name, pad, csum), RecAt(b, o), Used(|RecAt(b, o).name|);
            && RecOk(b', o) && RecAt(b', o) == Rec(r.inode, sz, r.kind, r.name)
            && RecOk(b', o + sz) && RecAt(b', o + sz) == Rec(inode, r.len - sz, kind, name)
  {
    hide ToLE, FromLE, Relength, EntryBytes, SetCsum;
    var r, sz := RecAt(b, o), Used(|RecAt(b, o).name|);
    var added := Rec(inode, r.len - sz, kind, name);
    var b1 := Relength(b, o, sz);
    LenBound(b, o);
    RelengthRec(b, o, sz);
    EntryRec(b1, o + sz, added, pad);
    var b2 := Overwrite(b1, o + sz, EntryBytes(added, pad));
    assert b2[o..o + sz] == b1[o..o + sz];
    SameRec(b1, b2, o);
    CsumRec(b2, csum, o);
    CsumRec(b2, csum, o + sz);
  }

  /** Bytes before the record, and after it up to the checksum, stay. */
  lemma InsertElsewhere(b: seq<Byte>, o: nat, inode: nat, kind: Byte, name: Name, pad: Byte, csum: seq<Byte>)
    requires RecOk(b, o) && Room(RecAt(b, o), |name|) && |name| <= 255 && |csum| == 4
    ensures var b', n := InsertAt(b, o, inode, kind, name, pad, csum), RecAt(b, o).len;
            b'[..o] == b[..o] && b'[o + n..BLOCK_SIZE - 4] == b[o + n..BLOCK_SIZE - 4]
  {
    hide ToLE, FromLE, Relength, EntryBytes, SetCsum;
    var r, sz := RecAt(b, o), Used(|RecAt(b, o).name|);
    var b1 := Relength(b, o, sz);
    RelengthBytes(b, o, sz);
    var b2 := Overwrite(b1, o + sz, EntryBytes(Rec(inode, r.len - sz, kind, name), pad));
    var b3 := SetCsum(b2, csum);
    SubSlice(b2, b3, 0, BLOCK_SIZE - 4, 0, o);
    SubSlice(b2, b3, 0, BLOCK_SIZE - 4, o + r.len, BLOCK_SIZE - 4);
  }

  lemma LenBound(b: seq<Byte>, off: nat)
    requires RecOk(b, off)
    ensures LenAt(b, off) < 0x1_0000
  {
  }

  /** Record `k` split, the new one behind it. */
  function Inserted(recs: seq<Rec>, k: nat, inode: nat, kind: Byte, name: Name): seq<Rec>
    requires k < |recs| && Room(recs[k], |name|)
  {
    var r, sz := recs[k], Used(|recs[k].name|);
    recs[..k] + [Rec(r.inode, sz, r.kind, r.name), Rec(inode, r.len - sz, kind, name)] + recs[k + 1..]
  }

  /** The records at and after a record's start. */
  lemma Unfold(b: seq<Byte>, o: nat)
    requires Tiled(b, o) && o < TAIL
    ensures RecOk(b, o) && o + RecAt(b, o).len <= TAIL && Tiled(b, o + RecAt(b, o).len) && Recs(b, o) == [RecAt(b, o)] + Recs(b, o + RecAt(b, o).len)
  {
  }

  lemma Fold(b: seq<Byte>, o: nat)
    requires RecOk(b, o) && Tiled(b, o + RecAt(b, o).len)
    ensures Tiled(b, o) && Recs(b, o) == [RecAt(b, o)] + Recs(b, o + RecAt(b, o).len)
  {
  }

  lemma Middle(recs: seq<Rec>, pre: seq<Rec>, r: Rec, post: seq<Rec>)
    requires recs == pre + ([r] + post)
    ensures |pre| < |recs| && recs[|pre|] == r && recs[..|pre|] == pre && recs[|pre| + 1..] == post
  {
  }

  /** Insertion keeps the tiling: the records are the old ones with one split off record `k`. */
  lemma InsertTiles(b: seq<Byte>, o: nat, inode: nat, kind: Byte, name: Name, pad: Byte, csum: seq<Byte>)
    requires Reaches(b, 0, o) && Tiled(b, o) && o < TAIL
    requires RecOk(b, o) && Room(RecAt(b, o), |name|) && |name| <= 255 && |csum| == 4 && 0 < inode < 0x1_0000_0000
    ensures Tiled(b, 0)
    ensures var b', k := InsertAt(b, o, inode, kind, name, pad, csum), |Before(b, 0, o)|;
            && k < |Recs(b, 0)| && Recs(b, 0)[k] == RecAt(b, o)
            && Tiled(b', 0) && Recs(b', 0) == Inserted(Recs(b, 0), k, inode, kind, name)
  {
    hide RecOk, RecAt, InsertAt, Tiled, Recs, Reaches, Before, Room;
    var b', r, sz := InsertAt(b, o, inode, kind, name, pad, csum), RecAt(b, o), Used(|RecAt(b, o).name|);
    Unfold(b, o);
    RecLen(b, o);
    InsertHere(b, o, inode, kind, name, pad, csum);
    InsertElsewhere(b, o, inode, kind, name, pad, csum);
    var n := o + r.len;
    SubSlice(b, b', n, BLOCK_SIZE - 4, n, TAIL);
    SameAfter(b, b', n);
    SubSlice(b, b', 0, o, 0, o);
    SameBefore(b, b', 0, o);
    Fold(b', o + sz);
    Fold(b', o);
    Split(b, 0, o);
    Split(b', 0, o);
    Middle(Recs(b, 0), Before(b, 0, o), r, Recs(b, n));
  }

  lemma RecLen(b: seq<Byte>, o: nat)
    requires RecOk(b, o)
    ensures o + HEADER <= |b| == BLOCK_SIZE && LenAt(b, o) == RecAt(b, o).len && RecAt(b, o).len >= HEADER && o + RecAt(b, o).len <= TAIL
  {
  }

  // ---- removal

  /** What `ext4_dir_remove_entry_new` does once the search has set the two offsets; `None` when the
      264-byte slice at `last` does not fit. Lengths are 16-bit. */
  function RemoveAt(b: seq<Byte>, last: nat, off: nat, csum: seq<Byte>): (r: Option<seq<Byte>>)
    requires |b| == BLOCK_SIZE && last + HEADER <= |b| && off + HEADER <= |b| && |csum| == 4
    ensures r.Some? ==> |r.value| == |b|
  {
    if last + ENTRY_SIZE > BLOCK_SIZE then None
    else Some(SetCsum(Relength(b, last, (LenAt(b, last) + LenAt(b, off)) % 0x1_0000), csum))
  }

  /** Record `k` joined to the one before it. */
  function Merged(recs: seq<Rec>, k: nat): seq<Rec>
    requires 0 < k < |recs|
  {
    var p := recs[k - 1];
    recs[..k - 1] + [Rec(p.inode, p.len + recs[k].len, p.kind, p.name)] + recs[k + 1..]
  }

  lemma RemoveHere(b: seq<Byte>, last: nat, off: nat, csum: seq<Byte>)
    requires RecOk(b, last) && RecOk(b, off) && off == last + RecAt(b, last).len && last + ENTRY_SIZE <= BLOCK_SIZE && |csum| == 4
    ensures RemoveAt(b, last, off, csum).Some?
    ensures var b', p := RemoveAt(b, last, off, csum).value, RecAt(b, last);
            && RecOk(b', last) && RecAt(b', last) == Rec(p.inode, p.len + RecAt(b, off).len, p.kind, p.name)
            && b'[..last] == b[..last] && b'[off..BLOCK_SIZE - 4] == b[off..BLOCK_SIZE - 4]
  {
    hide ToLE, FromLE, Relength, SetCsum;
    var n := RecAt(b, last).len + RecAt(b, off).len;
    RelengthRec(b, last, n);
    RelengthBytes(b, last, n);
    var b1 := Relength(b, last, n);
    CsumRec(b1, csum, last);
    var b2 := SetCsum(b1, csum);
    SubSlice(b1, b2, 0, BLOCK_SIZE - 4, 0, last);
    SubSlice(b1, b2, 0, BLOCK_SIZE - 4, off, BLOCK_SIZE - 4);
  }

  /** Removal of a record other than the first joins it to the one before. */
  lemma RemoveTiles(b: seq<Byte>, last: nat, off: nat, csum: seq<Byte>)
    requires Reaches(b, 0, last) && Tiled(b, last) && last < TAIL && RecOk(b, last) && off == last + RecAt(b, last).len
    requires off < TAIL && RecOk(b, off) && last + ENTRY_SIZE <= BLOCK_SIZE && |csum| == 4
    ensures RemoveAt(b, last, off, csum).Some? && Tiled(b, 0)
    ensures var b', k := RemoveAt(b, last, off, csum).value, |Before(b, 0, last)| + 1;
            && k < |Recs(b, 0)| && Recs(b, 0)[k] == RecAt(b, off)
            && Tiled(b', 0) && Recs(b', 0) == Merged(Recs(b, 0), k)
  {
    hide RecOk, RecAt, RemoveAt, Tiled, Recs, Reaches, Before;
    RecLen(b, last);
    RecLen(b, off);
    RemoveHere(b, last, off, csum);
    var b' := RemoveAt(b, last, off, csum).value;
    Unfold(b, last);
    Unfold(b, off);
    var n := off + RecAt(b, off).len;
    SubSlice(b, b', off, BLOCK_SIZE - 4, n, TAIL);
    SameAfter(b, b', n);
    SubSlice(b, b', 0, last, 0, last);
    SameBefore(b, b', 0, last);
    Fold(b', last);
    Split(b, 0, last);
    Split(b', 0, last);
    Middle(Recs(b, 0), Before(b, 0, last), RecAt(b, last), Recs(b, off));
    MergedIs(Recs(b, 0), Before(b, 0, last), RecAt(b, last), RecAt(b, off), Recs(b, n));
  }

  lemma MergedIs(recs: seq<Rec>, pre: seq<Rec>, p: Rec, r: Rec, post: seq<Rec>)
    requires recs == pre + ([p] + ([r] + post))
    ensures |pre| + 1 < |recs| && recs[|pre| + 1] == r
    ensures Merged(recs, |pre| + 1) == pre + ([Rec(p.inode, p.len + r.len, p.kind, p.name)] + post)
  {
    Middle(recs, pre, p, [r] + post);
    Middle(recs, pre + [p], r, post);
  }

  // ---- names

  /** The least index of a record with that name; the number of records if none. */
  ghost function FindRec(recs: seq<Rec>, name: Name): (k: nat)
    ensures k <= |recs| && (k < |recs| ==> recs[k].name == name) && forall i | 0 <= i < k :: recs[i].name != name
  {
    if recs == [] || recs[0].name == name then 0 else 1 + FindRec(recs[1..], name)
  }

  ghost function FirstRoom(recs: seq<Rec>, n: nat): (k: nat)
    ensures k <= |recs| && (k < |recs| ==> Room(recs[k], n)) && forall i | 0 <= i < k :: !Room(recs[i], n)
  {
    if recs == [] || Room(recs[0], n) then 0 else 1 + FirstRoom(recs[1..], n)
  }

  /** The directory as a map; the first record of a name counts. */
  ghost function Dir(recs: seq<Rec>): map<Name, nat>
  {
    if recs == [] then map[] else Dir(recs[1..])[recs[0].name := recs[0].inode]
  }

  lemma {:induction false} DirFinds(recs: seq<Rec>, n: Name)
    ensures n in Dir(recs) <==> FindRec(recs, n) < |recs|
    ensures n in Dir(recs) ==> Dir(recs)[n] == recs[FindRec(recs, n)].inode
  {
    if recs != [] { DirFinds(recs[1..], n); }
  }

  ghost predicate Distinct(recs: seq<Rec>) { forall i, j | 0 <= i < j < |recs| :: recs[i].name != recs[j].name }

  lemma DirAt(recs: seq<Rec>, i: nat)
    requires Distinct(recs) && i < |recs|
    ensures FindRec(recs, recs[i].name) == i && recs[i].name in Dir(recs) && Dir(recs)[recs[i].name] == recs[i].inode
  {
    hide Dir;
    DirFinds(recs, recs[i].name);
  }

  /** The record behind a binding. */
  lemma DirHas(recs: seq<Rec>, n: Name) returns (i: nat)
    requires n in Dir(recs)
    ensures i < |recs| && recs[i].name == n && Dir(recs)[n] == recs[i].inode
  {
    DirFinds(recs, n);
    i := FindRec(recs, n);
  }

  /** Equal maps, by bindings. */
  lemma SameMap(m: map<Name, nat>, m': map<Name, nat>)
    requires forall n | n in m :: n in m' && m'[n] == m[n]
    requires forall n | n in m' :: n in m
    ensures m == m'
  {
  }

  lemma InsertedDistinct(recs: seq<Rec>, k: nat, inode: nat, kind: Byte, name: Name)
    requires Distinct(recs) && k < |recs| && Room(recs[k], |name|) && name !in Dir(recs)
    ensures Distinct(Inserted(recs, k, inode, kind, name))
  {
    hide Dir, Inserted, Room;
    forall i | 0 <= i < |recs| ensures recs[i].name != name { DirAt(recs, i); }
    InsertedAt(recs, k, inode, kind, name);
    AddedDistinct(recs, Inserted(recs, k, inode, kind, name), k + 1);
  }

  /** One more record, at `k`, whose name is new. */
  lemma AddedDistinct(recs: seq<Rec>, recs': seq<Rec>, k: nat)
    requires Distinct(recs) && k <= |recs| && |recs'| == |recs| + 1
    requires forall i | 0 <= i < k :: recs'[i].name == recs[i].name
    requires forall i | k < i < |recs'| :: recs'[i].name == recs[i - 1].name
    requires forall i | 0 <= i < |recs| :: recs[i].name != recs'[k].name
    ensures Distinct(recs')
  {
    forall i, j | 0 <= i < j < |recs'| ensures recs'[i].name != recs'[j].name {
      if j == k {
        assert recs[i].name != recs'[k].name;
      } else if i == k {
        assert recs[j - 1].name != recs'[k].name;
      } else {
        assert recs[if i < k then i else i - 1].name != recs[if j < k then j else j - 1].name;
      }
    }
  }

  lemma InsertedIn(recs: seq<Rec>, k: nat, inode: nat, kind: Byte, name: Name, n: Name)
    requires Distinct(recs) && k < |recs| && Room(recs[k], |name|) && name !in Dir(recs)
    ensures n in Dir(Inserted(recs, k, inode, kind, name)) <==> n in Dir(recs) || n == name
    ensures n in Dir(Inserted(recs, k, inode, kind, name)) ==>
      Dir(Inserted(recs, k, inode, kind, name))[n] == if n == name then inode else Dir(recs)[n]
  {
    hide Dir, Inserted, Room, Distinct, FindRec;
    var recs' := Inserted(recs, k, inode, kind, name);
    InsertedDistinct(recs, k, inode, kind, name);
    InsertedAt(recs, k, inode, kind, name);
    if n == name {
      DirAt(recs', k + 1);
    } else if n in Dir(recs) {
      var i := DirHas(recs, n);
      DirAt(recs', if i <= k then i else i + 1);
    } else if n in Dir(recs') {
      var i := DirHas(recs', n);
      DirAt(recs, if i <= k then i else i - 1);
    }
  }

  /** Splitting a record adds exactly the new binding. */
  lemma DirInserted(recs: seq<Rec>, k: nat, inode: nat, kind: Byte, name: Name)
    requires Distinct(recs) && k < |recs| && Room(recs[k], |name|) && name !in Dir(recs)
    ensures Distinct(Inserted(recs, k, inode, kind, name))
    ensures Dir(Inserted(recs, k, inode, kind, name)) == Dir(recs)[name := inode]
  {
    hide Dir, Inserted, Room, Distinct;
    var recs' := Inserted(recs, k, inode, kind, name);
    InsertedDistinct(recs, k, inode, kind, name);
    forall n ensures n in Dir(recs') <==> n in Dir(recs) || n == name { InsertedIn(recs, k, inode, kind, name, n); }
    forall n | n in Dir(recs') ensures Dir(recs')[n] == Dir(recs)[name := inode][n] { InsertedIn(recs, k, inode, kind, name, n); }
    SameMap(Dir(recs'), Dir(recs)[name := inode]);
  }

  lemma InsertedAt(recs: seq<Rec>, k: nat, inode: nat, kind: Byte, name: Name)
    requires k < |recs| && Room(recs[k], |name|)
    ensures var recs' := Inserted(recs, k, inode, kind, name);
            && |recs'| == |recs| + 1 && recs'[k + 1].name == name && recs'[k + 1].inode == inode
            && (forall i | 0 <= i <= k :: recs'[i].name == recs[i].name && recs'[i].inode == recs[i].inode)
            && (forall i | k + 1 < i < |recs'| :: recs'[i] == recs[i - 1])
  {
  }

  lemma MergedDistinct(recs: seq<Rec>, k: nat)
    requires Distinct(recs) && 0 < k < |recs|
    ensures Distinct(Merged(recs, k))
  {
    hide Merged;
    var recs' := Merged(recs, k);
    MergedAt(recs, k);
    forall i, j | 0 <= i < j < |recs'| ensures recs'[i].name != recs'[j].name {
      assert recs[if i < k then i else i + 1].name != recs[if j < k then j else j + 1].name;
    }
  }

  lemma MergedIn(recs: seq<Rec>, k: nat, n: Name)
    requires Distinct(recs) && 0 < k < |recs|
    ensures n in Dir(Merged(recs, k)) <==> n in Dir(recs) && n != recs[k].name
    ensures n in Dir(Merged(recs, k)) ==> Dir(Merged(recs, k))[n] == Dir(recs)[n]
  {
    hide Dir, Merged, FindRec, Distinct;
    var recs' := Merged(recs, k);
    MergedAt(recs, k);
    MergedDistinct(recs, k);
    DirAt(recs, k);
    if n in Dir(recs') {
      var i := DirHas(recs', n);
      DirAt(recs, if i < k then i else i + 1);
    } else if n in Dir(recs) && n != recs[k].name {
      var i := DirHas(recs, n);
      DirAt(recs', if i < k then i else i - 1);
    }
  }

  /** Joining a record to its predecessor removes exactly its binding. */
  lemma DirMerged(recs: seq<Rec>, k: nat)
    requires Distinct(recs) && 0 < k < |recs|
    ensures Distinct(Merged(recs, k)) && Dir(Merged(recs, k)) == Dir(recs) - {recs[k].name}
  {
    hide Dir, Merged, Distinct;
    MergedDistinct(recs, k);
    forall n ensures n in Dir(Merged(recs, k)) <==> n in Dir(recs) && n != recs[k].name { MergedIn(recs, k, n); }
    forall n | n in Dir(Merged(recs, k)) ensures Dir(Merged(recs, k))[n] == Dir(recs)[n] { MergedIn(recs, k, n); }
    SameMap(Dir(Merged(recs, k)), Dir(recs) - {recs[k].name});
  }

  lemma MergedAt(recs: seq<Rec>, k: nat)
    requires 0 < k < |recs|
    ensures var recs' := Merged(recs, k);
            && |recs'| == |recs| - 1
            && (forall i | 0 <= i < k :: recs'[i].name == recs[i].name && recs'[i].inode == recs[i].inode)
            && (forall i | k <= i < |recs'| :: recs'[i] == recs[i + 1])
  {
  }

  // ---- the code

  /** Where record `k` from `off` on starts; after the last one, the tail. */
  ghost function StartOf(b: seq<Byte>, off: nat, k: nat): nat
    requires Tiled(b, off) && k <= |Recs(b, off)|
    decreases k
  {
    if k == 0 then off else StartOf(b, off + LenAt(b, off), k - 1)
  }

  lemma {:induction false} StartIs(b: seq<Byte>, off: nat, k: nat)
    requires Tiled(b, off) && k <= |Recs(b, off)| && off <= TAIL
    ensures var o := StartOf(b, off, k);
            && o <= TAIL && Reaches(b, off, o) && Tiled(b, o) && |Before(b, off, o)| == k
            && (k == |Recs(b, off)| <==> o == TAIL) && (k < |Recs(b, off)| ==> RecOk(b, o) && RecAt(b, o) == Recs(b, off)[k])
    decreases k
  {
    hide RecOk, RecAt;
    if k > 0 {
      Unfold(b, off);
      RecLen(b, off);
      StartIs(b, off + LenAt(b, off), k - 1);
      ReachesUp(b, off + LenAt(b, off), StartOf(b, off, k));
    } else if off < TAIL {
      Unfold(b, off);
    }
  }

  lemma {:induction false} StartNext(b: seq<Byte>, off: nat, k: nat)
    requires Tiled(b, off) && k < |Recs(b, off)| && off <= TAIL
    ensures StartOf(b, off, k + 1) == StartOf(b, off, k) + Recs(b, off)[k].len
    decreases k
  {
    hide RecOk, RecAt;
    Unfold(b, off);
    RecLen(b, off);
    if k > 0 {
      StartNext(b, off + LenAt(b, off), k - 1);
    }
  }

  datatype Hit = Hit(offset: nat, last: nat)

  /** `dir_find_in_block`: the first record with the name, and the start of the one before it. */
  method FindInBlock(b: seq<Byte>, name: Name) returns (r: Option<Hit>)
    requires Tiled(b, 0) && |b| == BLOCK_SIZE
    ensures var recs := Recs(b, 0);
            var k := FindRec(recs, name);
            r == if k == |recs| then None else Some(Hit(StartOf(b, 0, k), if k == 0 then 0 else StartOf(b, 0, k - 1)))
  {
    hide RecOk, RecAt, Tiled, Recs, StartOf, Reaches, Before;
    ghost var recs := Recs(b, 0);
    ghost var k := 0;
    var offset, last := 0, 0;
    StartZero(b);
    while offset < BLOCK_SIZE - 12
      invariant 0 <= k <= |recs| && offset == StartOf(b, 0, k) && last == if k == 0 then 0 else StartOf(b, 0, k - 1)
      invariant forall i | 0 <= i < k :: recs[i].name != name
      decreases |recs| - k
    {
      StartIs(b, 0, k);
      RecFields(b, offset);
      StartNext(b, 0, k);
      // the record is in use, so the scan moves on
      assert InodeAt(b, offset) != 0;
      if |name| == NameLenAt(b, offset) && NameAt(b, offset) == name {
        return Some(Hit(offset, last));
      }
      last := offset;
      offset := offset + LenAt(b, offset);
      k := k + 1;
    }
    StartIs(b, 0, k);
    return None;
  }

  lemma StartZero(b: seq<Byte>)
    requires Tiled(b, 0)
    ensures StartOf(b, 0, 0) == 0 && |Recs(b, 0)| > 0
  {
  }

  lemma RecFields(b: seq<Byte>, o: nat)
    requires RecOk(b, o)
    ensures o + HEADER <= |b| == BLOCK_SIZE && o + HEADER + NameLenAt(b, o) <= BLOCK_SIZE && InodeAt(b, o) != 0
    ensures RecAt(b, o) == Rec(InodeAt(b, o), LenAt(b, o), KindAt(b, o), NameAt(b, o)) && |NameAt(b, o)| == NameLenAt(b, o)
    ensures Used(NameLenAt(b, o)) <= LenAt(b, o) && o + LenAt(b, o) <= TAIL
  {
  }

  /** The tail record as `Ext4DirEntryTail::from` wants it; read as an entry it is unused. */
  ghost predicate TailOk(b: seq<Byte>) { |b| == BLOCK_SIZE && b[TAIL..TAIL + 8] == [0, 0, 0, 0, 12, 0, 0, 0xDE] }

  lemma TailUnused(b: seq<Byte>)
    requires TailOk(b)
    ensures InodeAt(b, TAIL) == 0
  {
    assert b[TAIL..TAIL + 4] == b[TAIL..TAIL + 8][..4] == [0, 0, 0, 0];
    FromLEZeros(b[TAIL..TAIL + 4]);
  }

  /** Insertion into record `k`. */
  ghost function Insertion(b: seq<Byte>, k: nat, inode: nat, kind: Byte, name: Name, pad: Byte, csum: seq<Byte>): seq<Byte>
    requires Tiled(b, 0) && k < |Recs(b, 0)| && Room(Recs(b, 0)[k], |name|) && |name| <= 255 && |csum| == 4
  {
    StartIs(b, 0, k);
    InsertAt(b, StartOf(b, 0, k), inode, kind, name, pad, csum)
  }

  /** `Hangs`: the scan meets the unused tail and never moves on. */
  datatype Outcome = Done | Hangs | NoSpace | Panics

  /** `dir_try_insert_entry` on a block in memory. */
  method TryInsertEntry(blk: array<Byte>, inode: nat, kind: Byte, name: Name, pad: Byte, csum: seq<Byte>) returns (r: Outcome)
    requires blk.Length == BLOCK_SIZE && Tiled(blk[..], 0) && TailOk(blk[..]) && |name| <= 255 && |csum| == 4 && 0 < inode < 0x1_0000_0000
    modifies blk
    ensures TailOk(blk[..])
    ensures var recs := Recs(old(blk[..]), 0);
            var k := FirstRoom(recs, |name|);
            if k == |recs| then r == Hangs && blk[..] == old(blk[..])
            else (r == Done && blk[..] == Insertion(old(blk[..]), k, inode, kind, name, pad, csum)
                  && Tiled(blk[..], 0) && Recs(blk[..], 0) == Inserted(recs, k, inode, kind, name))
  {
    hide RecOk, RecAt, Tiled, Recs, StartOf, Reaches, Before, TailOk, Inserted, InsertAt, Relength, EntryBytes, SetCsum, Overwrite;
    ghost var b := blk[..];
    ghost var recs := Recs(b, 0);
    ghost var k := 0;
    var offset := 0;
    StartZero(b);
    TailUnused(b);
    while offset < blk.Length
      invariant 0 <= k <= |recs| && offset == StartOf(b, 0, k) && blk[..] == b
      invariant forall i | 0 <= i < k :: !Room(recs[i], |name|)
      decreases |recs| - k
    {
      StartIs(b, 0, k);
      if InodeAt(blk[..], offset) == 0 {
        if k < |recs| { RecFields(b, offset); }
        return Hangs;
      }
      if k == |recs| { assert false; }
      RecFields(b, offset);
      StartNext(b, 0, k);
      var len := LenAt(blk[..], offset);
      var sz := Used(NameLenAt(blk[..], offset));
      var free := len - sz;
      if free >= Required(|name|) {
        InsertTiles(b, offset, inode, kind, name, pad, csum);
        InsertTail(b, offset, inode, kind, name, pad, csum);
        SplitEntry(blk, offset, sz, free, inode, kind, name, pad, csum);
        return Done;
      }
      offset := offset + len;
      k := k + 1;
    }
    StartIs(b, 0, k);
    assert false;
  }

  lemma InsertTail(b: seq<Byte>, o: nat, inode: nat, kind: Byte, name: Name, pad: Byte, csum: seq<Byte>)
    requires RecOk(b, o) && Room(RecAt(b, o), |name|) && |name| <= 255 && |csum| == 4 && TailOk(b)
    ensures TailOk(InsertAt(b, o, inode, kind, name, pad, csum))
  {
    hide InsertAt;
    InsertElsewhere(b, o, inode, kind, name, pad, csum);
    var b', n := InsertAt(b, o, inode, kind, name, pad, csum), o + RecAt(b, o).len;
    RecLen(b, o);
    SubSlice(b, b', n, BLOCK_SIZE - 4, TAIL, TAIL + 8);
  }

  /** The three writes of a successful insertion. */
  method SplitEntry(blk: array<Byte>, o: nat, sz: nat, free: nat, inode: nat, kind: Byte, name: Name, pad: Byte, csum: seq<Byte>)
    requires blk.Length == BLOCK_SIZE && RecOk(blk[..], o) && Room(RecAt(blk[..], o), |name|) && |name| <= 255 && |csum| == 4
    requires sz == Used(|RecAt(blk[..], o).name|) && free == RecAt(blk[..], o).len - sz
    modifies blk
    ensures blk[..] == InsertAt(old(blk[..]), o, inode, kind, name, pad, csum)
  {
    hide EntryBytes, ToLE, Overwrite, RecOk, RecAt, InsertAt, Room;
    ghost var b := blk[..];
    RoomBounds(b, o, |name|);
    InsertBytes(b, o, inode, kind, name, pad, csum);
    assert blk[o..o + ENTRY_SIZE] == b[o..o + ENTRY_SIZE];
    var de := Overwrite(blk[o..o + ENTRY_SIZE], 4, ToLE(sz, 2));
    var added := EntryBytes(Rec(inode, free, kind, name), pad);
    CopyInto(blk, o, de);
    CopyInto(blk, o + sz, added);
    CopyInto(blk, BLOCK_SIZE - 4, csum);
  }

  lemma RoomBounds(b: seq<Byte>, o: nat, n: nat)
    requires RecOk(b, o) && Room(RecAt(b, o), n)
    ensures |b| == BLOCK_SIZE && o + Used(|RecAt(b, o).name|) + ENTRY_SIZE <= TAIL && Used(|RecAt(b, o).name|) < RecAt(b, o).len < 0x1_0000
  {
    LenBound(b, o);
  }

  lemma InsertBytes(b: seq<Byte>, o: nat, inode: nat, kind: Byte, name: Name, pad: Byte, csum: seq<Byte>)
    requires RecOk(b, o) && Room(RecAt(b, o), |name|) && |name| <= 255 && |csum| == 4
    ensures var sz := Used(|RecAt(b, o).name|);
            && o + sz + ENTRY_SIZE <= TAIL && |b| == BLOCK_SIZE && sz <= RecAt(b, o).len
            && InsertAt(b, o, inode, kind, name, pad, csum)
              == Overwrite(Overwrite(Overwrite(b, o, Overwrite(b[o..o + ENTRY_SIZE], 4, ToLE(sz, 2))),
                                     o + sz, EntryBytes(Rec(inode, RecAt(b, o).len - sz, kind, name), pad)),
                           BLOCK_SIZE - 4, csum)
  {
    hide Overwrite, ToLE, EntryBytes;
    RoomBounds(b, o, |name|);
  }

  /** What removal of a name makes of a block. A name that is not there leaves both offsets 0.
      `None` is a panic: on a malformed tail, or when the 264-byte slice does not fit. */
  ghost function Removal(b: seq<Byte>, name: Name, csum: seq<Byte>): (r: Option<seq<Byte>>)
    requires Tiled(b, 0) && |b| == BLOCK_SIZE && |csum| == 4
    ensures r.Some? ==> |r.value| == BLOCK_SIZE
  {
    var k := FindRec(Recs(b, 0), name);
    if !TailOk(b) then None
    else if 0 < k < |Recs(b, 0)| then
      Starts(b, k);
      RemoveAt(b, StartOf(b, 0, k - 1), StartOf(b, 0, k), csum)
    else RemoveAt(b, 0, 0, csum)
  }

  lemma Starts(b: seq<Byte>, k: nat)
    requires Tiled(b, 0) && 0 < k < |Recs(b, 0)|
    ensures var last, off := StartOf(b, 0, k - 1), StartOf(b, 0, k);
            && last < off < TAIL && off + HEADER <= |b| && last + HEADER <= |b|
            && Reaches(b, 0, last) && |Before(b, 0, last)| == k - 1
            && Tiled(b, last) && RecOk(b, last) && RecOk(b, off) && off == last + RecAt(b, last).len
  {
    hide RecOk, RecAt, Reaches, Before, Tiled, Recs, StartOf;
    StartIs(b, 0, k - 1);
    StartIs(b, 0, k);
    StartNext(b, 0, k - 1);
    RecLen(b, StartOf(b, 0, k - 1));
    RecLen(b, StartOf(b, 0, k));
  }

  /** Changing a length and the checksum keeps the rest of the tail. */
  lemma RemoveTail(b: seq<Byte>, last: nat, off: nat, csum: seq<Byte>)
    requires TailOk(b) && last + HEADER <= TAIL && off + HEADER <= |b| && |csum| == 4
    ensures RemoveAt(b, last, off, csum).Some? ==> TailOk(RemoveAt(b, last, off, csum).value)
  {
    hide ToLE, FromLE, Relength, SetCsum;
    if last + ENTRY_SIZE <= BLOCK_SIZE {
      var n := (LenAt(b, last) + LenAt(b, off)) % 0x1_0000;
      RelengthBytes(b, last, n);
      var b1 := Relength(b, last, n);
      SubSlice(b1, SetCsum(b1, csum), 0, BLOCK_SIZE - 4, TAIL, TAIL + 8);
    }
  }

  lemma RelengthTail(b: seq<Byte>, off: nat, len: nat)
    requires |b| == BLOCK_SIZE && off + ENTRY_SIZE <= |b| && off + HEADER <= TAIL
    ensures TailOk(Relength(b, off, len)) <==> TailOk(b)
  {
    hide Relength;
    RelengthBytes(b, off, len);
    assert Relength(b, off, len)[TAIL..TAIL + 8] == b[TAIL..TAIL + 8];
  }

  /** `Ext4DirEntryTail::from`: none for a malformed tail, where `ext4_dir_set_csum` panics. */
  method TailFrom(b: seq<Byte>) returns (ok: bool)
    requires |b| == BLOCK_SIZE
    ensures ok == TailOk(b)
  {
    ok := b[TAIL..TAIL + 8] == [0, 0, 0, 0, 12, 0, 0, 0xDE];
  }

  /** `ext4_dir_remove_entry_new`: `blk` is the block on the device that the search ends in. The
      changes are made in a copy and written back at the end. */
  method RemoveEntry(blk: array<Byte>, name: Name, csum: seq<Byte>) returns (r: Outcome)
    requires blk.Length == BLOCK_SIZE && Tiled(blk[..], 0) && |csum| == 4
    modifies blk
    ensures var want := Removal(old(blk[..]), name, csum);
            if want.None? then r == Panics && blk[..] == old(blk[..]) else r == Done && blk[..] == want.value && TailOk(blk[..])
  {
    hide RecOk, RecAt, Tiled, Recs, StartOf, Reaches, Before, Overwrite, ToLE, FromLE, FindRec, TailOk;
    ghost var b := blk[..];
    StartZero(b);
    var hit := FindInBlock(blk[..], name);
    var offset, last := 0, 0;
    if hit.Some? {
      offset, last := hit.value.offset, hit.value.last;
    }
    ghost var k := FindRec(Recs(b, 0), name);
    if 0 < k < |Recs(b, 0)| { Starts(b, k); }
    var data := blk[..];
    var len := (LenAt(data, last) + LenAt(data, offset)) % 0x1_0000;
    if last + ENTRY_SIZE > BLOCK_SIZE {
      return Panics;
    }
    var pde := Overwrite(data[last..last + ENTRY_SIZE], 4, ToLE(len, 2));
    data := Overwrite(data, last, pde);
    RelengthTail(b, last, len);
    var tail := TailFrom(data);
    if !tail {
      return Panics;
    }
    RemoveTail(b, last, offset, csum);
    data := Overwrite(data, BLOCK_SIZE - 4, csum);
    CopyWhole(blk, data);
    return Done;
  }

  /** `sync_blk_to_disk`. */
  method CopyWhole(blk: array<Byte>, data: seq<Byte>)
    requires blk.Length == |data|
    modifies blk
    ensures blk[..] == data
  {
    CopyInto(blk, 0, data);
  }

  /** What removal should do: keep the tiling, lose exactly that name, and not touch the block when
      the name is not there. */
  ghost predicate Right(b: seq<Byte>, b': seq<Byte>, name: Name)
    requires Tiled(b, 0)
  {
    Tiled(b', 0) && Dir(Recs(b', 0)) == Dir(Recs(b, 0)) - {name} && (name !in Dir(Recs(b, 0)) ==> b' == b)
  }

  /** The tail is well formed; the name is there, not in the first record, and the record before it
      starts early enough for a whole entry struct. */
  ghost predicate Removable(b: seq<Byte>, name: Name)
    requires Tiled(b, 0)
  {
    var k := FindRec(Recs(b, 0), name);
    TailOk(b) && 0 < k < |Recs(b, 0)| && StartOf(b, 0, k - 1) + ENTRY_SIZE <= BLOCK_SIZE
  }

  lemma RemoveRight(b: seq<Byte>, name: Name, csum: seq<Byte>)
    requires Tiled(b, 0) && |b| == BLOCK_SIZE && |csum| == 4 && Distinct(Recs(b, 0)) && Removable(b, name)
    ensures Removal(b, name, csum).Some? && Right(b, Removal(b, name, csum).value, name) && Distinct(Recs(Removal(b, name, csum).value, 0))
    ensures Recs(Removal(b, name, csum).value, 0) == Merged(Recs(b, 0), FindRec(Recs(b, 0), name)) && TailOk(Removal(b, name, csum).value)
  {
    hide RecOk, RecAt, Tiled, Recs, StartOf, Reaches, Before, RemoveAt, FindRec, Dir, Merged, Distinct, TailOk;
    var k := FindRec(Recs(b, 0), name);
    Starts(b, k);
    RecLen(b, StartOf(b, 0, k - 1));
    RemoveTail(b, StartOf(b, 0, k - 1), StartOf(b, 0, k), csum);
    RemoveTiles(b, StartOf(b, 0, k - 1), StartOf(b, 0, k), csum);
    DirMerged(Recs(b, 0), k);
    DirFinds(Recs(b, 0), name);
  }

  /** Removing the first record's name, or a name that is not there, doubles the first record's
      length and keeps its name. */
  lemma RemoveFirst(b: seq<Byte>, csum: seq<Byte>)
    requires Tiled(b, 0) && |b| == BLOCK_SIZE && |csum| == 4
    ensures RemoveAt(b, 0, 0, csum).Some?
    ensures var b' := RemoveAt(b, 0, 0, csum).value;
            b' != b && (Tiled(b', 0) ==> |Recs(b', 0)| > 0 && |Recs(b, 0)| > 0 && Recs(b', 0)[0].name == Recs(b, 0)[0].name)
  {
    hide RecOk, RecAt, Tiled, Recs, RemoveAt;
    Unfold(b, 0);
    RecLen(b, 0);
    FirstBytes(b, csum);
    var b' := RemoveAt(b, 0, 0, csum).value;
    if Tiled(b', 0) {
      Unfold(b', 0);
      RecFields(b', 0);
      RecFields(b, 0);
    }
  }

  lemma FirstBytes(b: seq<Byte>, csum: seq<Byte>)
    requires RecOk(b, 0) && |csum| == 4 && |b| == BLOCK_SIZE
    ensures RemoveAt(b, 0, 0, csum).Some?
    ensures var b' := RemoveAt(b, 0, 0, csum).value;
            LenAt(b', 0) == 2 * LenAt(b, 0) && LenAt(b, 0) > 0 && NameLenAt(b', 0) == NameLenAt(b, 0) && NameAt(b', 0) == NameAt(b, 0)
  {
    hide ToLE, FromLE, Relength, SetCsum;
    var n := 2 * LenAt(b, 0);
    var b1 := Relength(b, 0, n);
    RelengthBytes(b, 0, n);
    Pow2();
    LERoundTrip(n, 2);
    var b2 := SetCsum(b1, csum);
    SubSlice(b1, b2, 0, BLOCK_SIZE - 4, 4, 6);
    SubSlice(b1, b2, 0, BLOCK_SIZE - 4, 6, HEADER + 255);
    assert b1[6..HEADER + 255] == b[6..HEADER + 255];
    SameName(b, b2);
  }

  lemma SameName(b: seq<Byte>, b': seq<Byte>)
    requires |b| == |b'| == BLOCK_SIZE && b'[6..HEADER + 255] == b[6..HEADER + 255]
    ensures NameLenAt(b', 0) == NameLenAt(b, 0) && NameAt(b', 0) == NameAt(b, 0)
  {
    assert b'[6] == b'[6..HEADER + 255][0] && b[6] == b[6..HEADER + 255][0];
    SubSlice(b, b', 6, HEADER + 255, HEADER, HEADER + NameLenAt(b, 0));
  }

  /** Removal does what it should exactly for the removable names. */
  lemma RemoveIff(b: seq<Byte>, name: Name, csum: seq<Byte>)
    requires Tiled(b, 0) && |b| == BLOCK_SIZE && |csum| == 4 && Distinct(Recs(b, 0))
    ensures (Removal(b, name, csum).Some? && Right(b, Removal(b, name, csum).value, name)) <==> Removable(b, name)
  {
    hide RecOk, RecAt, Tiled, Recs, StartOf, Reaches, Before, FindRec, Dir, Distinct, Relength, SetCsum, FromLE, TailOk;
    var recs := Recs(b, 0);
    var k := FindRec(recs, name);
    if Removable(b, name) {
      RemoveRight(b, name, csum);
    } else if !TailOk(b) {
    } else if k == 0 || k == |recs| {
      StartZero(b);
      RemoveFirst(b, csum);
      var b' := RemoveAt(b, 0, 0, csum).value;
      DirFinds(recs, name);
      if k == 0 && Tiled(b', 0) {
        NameStays(Recs(b', 0), name);
      }
    } else {
      Starts(b, k);
    }
  }

  lemma NameStays(recs: seq<Rec>, name: Name)
    requires |recs| > 0 && recs[0].name == name
    ensures name in Dir(recs)
  {
  }

  /** A block that `ext4_dir_add_entry` starts afresh in whatever the new block held: the entry, then
      the tail, whose checksum `ext4_dir_set_csum` fills in. */
  function FreshBlock(b: seq<Byte>, inode: nat, kind: Byte, name: Name, pad: Byte, csum: seq<Byte>): (r: seq<Byte>)
    requires |b| == BLOCK_SIZE && |name| <= 255 && |csum| == 4
    ensures |r| == BLOCK_SIZE
  {
    Overwrite(Overwrite(b, 0, EntryBytes(Rec(inode, TAIL, kind, name), pad)), TAIL, [0, 0, 0, 0, 12, 0, 0, 0xDE] + csum)
  }

  /** It holds one record up to a well-formed tail. */
  lemma NewBlock(b: seq<Byte>, inode: nat, kind: Byte, name: Name, pad: Byte, csum: seq<Byte>)
    requires |b| == BLOCK_SIZE && |name| <= 255 && |csum| == 4 && 0 < inode < 0x1_0000_0000
    ensures var b' := FreshBlock(b, inode, kind, name, pad, csum);
            Tiled(b', 0) && Recs(b', 0) == [Rec(inode, TAIL, kind, name)] && TailOk(b') && Good(b') && Aligned(Recs(b', 0)) && b'[4092..] == csum
  {
    hide EntryBytes, RecOk, RecAt;
    var b1 := Overwrite(b, 0, EntryBytes(Rec(inode, TAIL, kind, name), pad));
    EntryRec(b, 0, Rec(inode, TAIL, kind, name), pad);
    var tail: seq<Byte> := [0, 0, 0, 0, 12, 0, 0, 0xDE] + csum;
    var b' := FreshBlock(b, inode, kind, name, pad, csum);
    assert b' == Overwrite(b1, TAIL, tail);
    FreshTail(b1, tail);
    RecLen(b1, 0);
    SameRec(b1, b', 0);
    assert Tiled(b', TAIL) && Recs(b', TAIL) == [];
    Fold(b', 0);
  }

  lemma FreshTail(b: seq<Byte>, tail: seq<Byte>)
    requires |b| == BLOCK_SIZE && |tail| == 12 && tail[..8] == [0, 0, 0, 0, 12, 0, 0, 0xDE]
    ensures TailOk(Overwrite(b, TAIL, tail)) && Overwrite(b, TAIL, tail)[0..TAIL] == b[0..TAIL] && Overwrite(b, TAIL, tail)[TAIL + 8..] == tail[8..]
  {
    var b' := Overwrite(b, TAIL, tail);
    forall i | 0 <= i < 8 ensures b'[TAIL + i] == tail[..8][i] {
      assert b'[TAIL..TAIL + |tail|][i] == tail[i];
    }
    assert b'[TAIL..TAIL + 8] == tail[..8];
  }

  /** Its only name cannot be removed: the lookup still finds it, or the block no longer tiles. */
  lemma OnlyNameStays(b: seq<Byte>, inode: nat, kind: Byte, name: Name, pad: Byte, csum: seq<Byte>)
    requires |b| == BLOCK_SIZE && |name| <= 255 && 0 < inode < 0x1_0000_0000 && |csum| == 4
    ensures var b' := FreshBlock(b, inode, kind, name, pad, csum);
            Tiled(b', 0) && !(Removal(b', name, csum).Some? && Right(b', Removal(b', name, csum).value, name))
  {
    hide FreshBlock, Tiled, Recs, Removal, Right, Removable, TailOk;
    NewBlock(b, inode, kind, name, pad, csum);
    var b' := FreshBlock(b, inode, kind, name, pad, csum);
    RemoveIff(b', name, csum);
    NotRemovable(b', name);
  }

  lemma NotRemovable(b: seq<Byte>, name: Name)
    requires Tiled(b, 0) && |Recs(b, 0)| == 1 && Recs(b, 0)[0].name == name
    ensures !Removable(b, name)
  {
    hide Tiled, Recs;
  }

  // ---- runs of insertions and removals

  datatype Op = OpInsert(inode: nat, kind: Byte, name: Name, pad: Byte, csum: seq<Byte>) | OpRemove(name: Name, csum: seq<Byte>)

  /** Records with distinct names tile the block up to a well-formed tail. */
  ghost predicate Good(b: seq<Byte>) { |b| == BLOCK_SIZE && TailOk(b) && Tiled(b, 0) && Distinct(Recs(b, 0)) }

  /** A name that is not there and fits, with room for it; or a removable name. */
  ghost predicate Enabled(b: seq<Byte>, op: Op)
  {
    Good(b) && |op.csum| == 4 &&
    match op
    case OpInsert(inode, _, name, _, _) =>
      |name| <= 255 && 0 < inode < 0x1_0000_0000 && name !in Dir(Recs(b, 0)) && FirstRoom(Recs(b, 0), |name|) < |Recs(b, 0)|
    case OpRemove(name, _) => Removable(b, name)
  }

  /** The bytes that `TryInsertEntry` and `RemoveEntry` leave. */
  ghost function Step(b: seq<Byte>, op: Op): seq<Byte>
    requires Enabled(b, op)
  {
    match op
    case OpInsert(inode, kind, name, pad, csum) =>
      Insertion(b, FirstRoom(Recs(b, 0), |name|), inode, kind, name, pad, csum)
    case OpRemove(name, csum) =>
      RemoveRight(b, name, csum);
      Removal(b, name, csum).value
  }

  function AbsStep(m: map<Name, nat>, op: Op): map<Name, nat>
  {
    match op
    case OpInsert(inode, _, name, _, _) => m[name := inode]
    case OpRemove(name, _) => m - {name}
  }

  lemma StepRefines(b: seq<Byte>, op: Op)
    requires Enabled(b, op)
    ensures Good(Step(b, op)) && Dir(Recs(Step(b, op), 0)) == AbsStep(Dir(Recs(b, 0)), op)
  {
    hide RecOk, RecAt, Tiled, Recs, StartOf, Reaches, Before, InsertAt, Distinct, Dir, Inserted, Merged, Removal, TailOk;
    match op {
      case OpInsert(inode, kind, name, pad, csum) =>
        var k := FirstRoom(Recs(b, 0), |name|);
        StartIs(b, 0, k);
        InsertTiles(b, StartOf(b, 0, k), inode, kind, name, pad, csum);
        InsertTail(b, StartOf(b, 0, k), inode, kind, name, pad, csum);
        DirInserted(Recs(b, 0), k, inode, kind, name);
      case OpRemove(name, csum) =>
        RemoveRight(b, name, csum);
    }
  }

  ghost predicate Legal(b: seq<Byte>, ops: seq<Op>)
    decreases |ops|
  {
    ops == [] || (Enabled(b, ops[0]) && Legal(Step(b, ops[0]), ops[1..]))
  }

  ghost function Run(b: seq<Byte>, ops: seq<Op>): seq<Byte>
    requires Legal(b, ops)
    decreases |ops|
  {
    if ops == [] then b else Run(Step(b, ops[0]), ops[1..])
  }

  function AbsRun(m: map<Name, nat>, ops: seq<Op>): map<Name, nat>
    decreases |ops|
  {
    if ops == [] then m else AbsRun(AbsStep(m, ops[0]), ops[1..])
  }

  /** Over any run of insertions and removals, with space freed by removals used again, the records
      tile the block and lookup in it is lookup in the map built by the same operations. */
  lemma {:induction false} DirectoryIsMap(b: seq<Byte>, ops: seq<Op>)
    requires Good(b) && Legal(b, ops)
    ensures Good(Run(b, ops)) && Dir(Recs(Run(b, ops), 0)) == AbsRun(Dir(Recs(b, 0)), ops)
    decreases |ops|
  {
    hide Good, Step, Enabled, Dir, Recs, AbsStep;
    if ops != [] {
      StepRefines(b, ops[0]);
      DirectoryIsMap(Step(b, ops[0]), ops[1..]);
    }
  }

  /** Every change leaves its checksum in the last four bytes. */
  lemma ChecksumStored(b: seq<Byte>, op: Op)
    requires Enabled(b, op)
    ensures |Step(b, op)| == 4096 && Step(b, op)[4092..] == op.csum
  {
    hide RecOk, RecAt, Tiled, Recs, StartOf, Reaches, Before, Distinct, Dir, TailOk, Relength, EntryBytes, SetCsum, Overwrite, FindRec, FirstRoom;
    match op {
      case OpInsert(inode, kind, name, pad, csum) =>
        StartIs(b, 0, FirstRoom(Recs(b, 0), |name|));
        InsertCsum(b, StartOf(b, 0, FirstRoom(Recs(b, 0), |name|)), inode, kind, name, pad, csum);
      case OpRemove(name, csum) =>
        var k := FindRec(Recs(b, 0), name);
        Starts(b, k);
        CsumLast(Relength(b, StartOf(b, 0, k - 1), (LenAt(b, StartOf(b, 0, k - 1)) + LenAt(b, StartOf(b, 0, k))) % 0x1_0000), csum);
    }
  }

  lemma CsumLast(b: seq<Byte>, csum: seq<Byte>)
    requires |b| == BLOCK_SIZE && |csum| == 4
    ensures SetCsum(b, csum)[BLOCK_SIZE - 4..] == csum
  {
  }

  lemma InsertCsum(b: seq<Byte>, o: nat, inode: nat, kind: Byte, name: Name, pad: Byte, csum: seq<Byte>)
    requires RecOk(b, o) && Room(RecAt(b, o), |name|) && |name| <= 255 && |csum| == 4
    ensures InsertAt(b, o, inode, kind, name, pad, csum)[BLOCK_SIZE - 4..] == csum
  {
    hide Relength, EntryBytes, SetCsum, Overwrite;
    var sz := Used(|RecAt(b, o).name|);
    RoomBounds(b, o, |name|);
    CsumLast(Overwrite(Relength(b, o, sz), o + sz, EntryBytes(Rec(inode, RecAt(b, o).len - sz, kind, name), pad)), csum);
  }

  // ---- alignment

  /** Every record's length is a multiple of 4. */
  ghost predicate Aligned(recs: seq<Rec>) { forall i | 0 <= i < |recs| :: recs[i].len % 4 == 0 }

  /** Where a record is split: the first multiple of 4 behind its name. The new record takes the
      rest of its length; all other records are as they were. */
  lemma SplitPoint(recs: seq<Rec>, k: nat, inode: nat, kind: Byte, name: Name)
    requires k < |recs| && Room(recs[k], |name|)
    ensures var recs', r, cut := Inserted(recs, k, inode, kind, name), recs[k], (|recs[k].name| + 11) / 4 * 4;
            && |recs'| == |recs| + 1 && cut <= r.len - (|name| + 267) / 4 * 4
            && recs'[k] == Rec(r.inode, cut, r.kind, r.name) && recs'[k + 1] == Rec(inode, r.len - cut, kind, name)
            && (forall i | 0 <= i < k :: recs'[i] == recs[i]) && (forall i | k + 1 < i < |recs'| :: recs'[i] == recs[i - 1])
  {
    Rounded(|recs[k].name|);
    Rounded(|name|);
    hide Used, Required;
  }

  lemma SplitAligned(recs: seq<Rec>, k: nat, inode: nat, kind: Byte, name: Name)
    requires k < |recs| && Room(recs[k], |name|) && Aligned(recs)
    ensures Aligned(Inserted(recs, k, inode, kind, name))
  {
    hide Inserted, Room;
    SplitPoint(recs, k, inode, kind, name);
    var recs', cut := Inserted(recs, k, inode, kind, name), (|recs[k].name| + 11) / 4 * 4;
    FourDivides((|recs[k].name| + 11) / 4, recs[k].len);
    forall i | 0 <= i < |recs'| ensures recs'[i].len % 4 == 0 {
      assert i < k || i == k || i == k + 1 || recs'[i] == recs[i - 1];
    }
  }

  lemma FourDivides(q: nat, n: nat)
    requires n % 4 == 0
    ensures q * 4 % 4 == 0 && (n - q * 4) % 4 == 0
  {
  }

  /** A record is chosen for the split exactly if it is the first with room for its own name and a
      whole entry struct more than the new one. */
  lemma RoomIs(r: Rec, n: nat)
    ensures Room(r, n) <==> r.len >= (|r.name| + 11) / 4 * 4 + (n + 267) / 4 * 4
  {
    Rounded(|r.name|);
    Rounded(n);
  }

  lemma MergedAligned(recs: seq<Rec>, k: nat)
    requires 0 < k < |recs| && Aligned(recs)
    ensures Aligned(Merged(recs, k))
  {
    var recs' := Merged(recs, k);
    assert recs'[k - 1].len == recs[k - 1].len + recs[k].len;
    FourSum(recs[k - 1].len, recs[k].len);
    MergedAt(recs, k);
    forall i | 0 <= i < |recs'| ensures recs'[i].len % 4 == 0 {
      assert i < k - 1 ==> recs'[i] == recs[i];
      assert i >= k ==> recs'[i] == recs[i + 1];
    }
  }

  lemma FourSum(m: nat, n: nat)
    requires m % 4 == 0 && n % 4 == 0
    ensures (m + n) % 4 == 0
  {
  }

  lemma StepAligned(b: seq<Byte>, op: Op)
    requires Enabled(b, op) && Aligned(Recs(b, 0))
    ensures Good(Step(b, op)) && Aligned(Recs(Step(b, op), 0))
  {
    hide RecOk, RecAt, Tiled, Recs, StartOf, Reaches, Before, InsertAt, Distinct, Dir, Inserted, Merged, Removal, TailOk, Aligned, Room;
    StepRefines(b, op);
    match op {
      case OpInsert(inode, kind, name, pad, csum) =>
        var k := FirstRoom(Recs(b, 0), |name|);
        StartIs(b, 0, k);
        InsertTiles(b, StartOf(b, 0, k), inode, kind, name, pad, csum);
        SplitAligned(Recs(b, 0), k, inode, kind, name);
      case OpRemove(name, csum) =>
        RemoveRight(b, name, csum);
        MergedAligned(Recs(b, 0), FindRec(Recs(b, 0), name));
    }
  }

  lemma {:induction false} StartAligned(b: seq<Byte>, off: nat, k: nat)
    requires Tiled(b, off) && Aligned(Recs(b, off)) && k <= |Recs(b, off)| && off % 4 == 0 && off <= TAIL
    ensures StartOf(b, off, k) % 4 == 0
    decreases k
  {
    hide RecOk, RecAt;
    if k > 0 {
      Unfold(b, off);
      RecLen(b, off);
      assert Recs(b, off)[0].len % 4 == 0;
      var rest := Recs(b, off + LenAt(b, off));
      assert forall i | 0 <= i < |rest| :: rest[i] == Recs(b, off)[i + 1];
      StartAligned(b, off + LenAt(b, off), k - 1);
    }
  }

  /** Over any run from a block whose records start at multiples of 4, as a fresh block's does, all
      records start at multiples of 4. */
  lemma {:induction false} RecordsAligned(b: seq<Byte>, ops: seq<Op>, k: nat)
    requires Good(b) && Aligned(Recs(b, 0)) && Legal(b, ops)
    ensures Good(Run(b, ops)) && Aligned(Recs(Run(b, ops), 0))
    ensures k <= |Recs(Run(b, ops), 0)| ==> StartOf(Run(b, ops), 0, k) % 4 == 0
    decreases |ops|
  {
    hide Good, Step, Enabled, Recs, Aligned, StartOf;
    if ops != [] {
      StepAligned(b, ops[0]);
      RecordsAligned(Step(b, ops[0]), ops[1..], k);
    } else {
      GoodTiled(b);
      if k <= |Recs(b, 0)| { StartAligned(b, 0, k); }
    }
  }

  lemma GoodTiled(b: seq<Byte>)
    requires Good(b)
    ensures Tiled(b, 0)
  {
  }

  /** `dir_find_in_block` answers as the map does. */
  lemma LookupIsMap(b: seq<Byte>, name: Name)
    requires Tiled(b, 0)
    ensures var k := FindRec(Recs(b, 0), name);
            && (k < |Recs(b, 0)| <==> name in Dir(Recs(b, 0)))
            && (k < |Recs(b, 0)| ==> RecOk(b, StartOf(b, 0, k)) && InodeAt(b, StartOf(b, 0, k)) == Dir(Recs(b, 0))[name])
  {
    hide RecOk, RecAt, Tiled, Recs, StartOf, Reaches, Before, Dir, FindRec;
    var k := FindRec(Recs(b, 0), name);
    DirFinds(Recs(b, 0), name);
    StartIs(b, 0, k);
    if k < |Recs(b, 0)| { RecFields(b, StartOf(b, 0, k)); }
  }
}
