/** Little-endian words inside byte sequences, and overwriting a range of bytes. */
module Bytes {
  type Byte = b: int | 0 <= b < 256

  function Pow256(n: nat): (r: nat)
    ensures r > 0
  {
    if n == 0 then 1 else 256 * Pow256(n - 1)
  }

  function FromLE(s: seq<Byte>): nat
  {
    if s == [] then 0 else s[0] + 256 * FromLE(s[1..])
  }

  function ToLE(w: nat, n: nat): (s: seq<Byte>)
    ensures |s| == n
  {
    if n == 0 then [] else [w % 256] + ToLE(w / 256, n - 1)
  }

  /** A word that fits in `n` bytes survives being stored and loaded again. */
  lemma {:induction false} LERoundTrip(w: nat, n: nat)
    requires w < Pow256(n)
    ensures FromLE(ToLE(w, n)) == w
  {
    if n > 0 {
      LERoundTrip(w / 256, n - 1);
      assert ToLE(w, n)[1..] == ToLE(w / 256, n - 1);
    }
  }

  /** Byte `i` counts 256^i. */
  lemma {:induction false} LittleEndian(s: seq<Byte>, i: nat)
    requires i < |s|
    ensures FromLE(s) / Pow256(i) % 256 == s[i]
  {
    if i > 0 {
      var p, rest := Pow256(i - 1), FromLE(s[1..]);
      LittleEndian(s[1..], i - 1);
      DivBy(s[0] + 256 * rest, 256, p);
      Quotient(s[0] + 256 * rest, 256, rest, s[0]);
      assert FromLE(s) == s[0] + 256 * rest && Pow256(i) == 256 * p;
    }
  }

  lemma DivBy(n: nat, j: nat, k: nat)
    requires j > 0 && k > 0
    ensures n / (j * k) == n / j / k
  {
    var a, m := n / j, j * k;
    assert m * (a / k) == j * (k * (a / k)) && n == j * (k * (a / k)) + (j * (a % k) + n % j);
    UnderProduct(j, k, a % k, n % j);
    Quotient(n, m, a / k, j * (a % k) + n % j);
  }

  lemma UnderProduct(j: nat, k: nat, r: nat, s: nat)
    requires r < k && s < j
    ensures j * r + s < j * k
  {
    assert j * r + j == j * (r + 1);
  }

  lemma Quotient(n: nat, m: nat, q: nat, r: nat)
    requires m > 0 && n == m * q + r && r < m
    ensures n / m == q
  {
    Small(n / m - q, m, r - n % m);
  }

  lemma Small(d: int, m: int, e: int)
    requires m > 0 && d * m == e && -m < e < m
    ensures d == 0
  {
  }

  lemma {:induction false} FromLEZeros(s: seq<Byte>)
    requires forall i | 0 <= i < |s| :: s[i] == 0
    ensures FromLE(s) == 0
  {
    if s != [] {
      FromLEZeros(s[1..]);
    }
  }

  lemma {:induction false} FromLEBound(s: seq<Byte>)
    ensures FromLE(s) < Pow256(|s|)
  {
    if s != [] {
      FromLEBound(s[1..]);
    }
  }

  lemma Pow256Of8()
    ensures Pow256(8) == 0x1_0000_0000_0000_0000
  {
    assert Pow256(4) == 0x1_0000_0000;
  }

  /** `s` with the bytes from `off` on replaced by `data`. */
  function Overwrite(s: seq<Byte>, off: nat, data: seq<Byte>): (r: seq<Byte>)
    requires off + |data| <= |s|
    ensures |r| == |s|
    ensures r[off..off + |data|] == data
    ensures forall i | 0 <= i < |s| && !(off <= i < off + |data|) :: r[i] == s[i]
  {
    s[..off] + data + s[off + |data|..]
  }

  /** `f` is `f0` with the first `n` bytes of `data` at `off`. */
  ghost predicate Patched(f0: seq<Byte>, f: seq<Byte>, off: nat, data: seq<Byte>, n: nat)
  {
    off + |data| <= |f0| && n <= |data| && f == Overwrite(f0, off, data[..n])
  }

  lemma PatchedNone(f: seq<Byte>, off: nat, data: seq<Byte>)
    requires off + |data| <= |f|
    ensures Patched(f, f, off, data, 0)
  {
  }

  lemma PatchedMore(f0: seq<Byte>, f: seq<Byte>, f': seq<Byte>, off: nat, data: seq<Byte>, n: nat, k: nat)
    requires Patched(f0, f, off, data, n) && n + k <= |data| && |f| == |f0|
    requires f' == Overwrite(f, off + n, data[n..n + k])
    ensures Patched(f0, f', off, data, n + k)
  {
    assert data[..n] + data[n..n + k] == data[..n + k];
  }

  lemma PatchedAll(f0: seq<Byte>, f: seq<Byte>, off: nat, data: seq<Byte>)
    requires Patched(f0, f, off, data, |data|)
    ensures off + |data| <= |f0| && f == Overwrite(f0, off, data)
  {
    assert data[..|data|] == data;
  }

  /** `copy_from_slice` into part of a buffer. */
  method CopyInto(buf: array<Byte>, offset: nat, data: seq<Byte>)
    requires offset + |data| <= buf.Length
    modifies buf
    ensures buf[..] == Overwrite(old(buf[..]), offset, data)
  {
    ghost var b := buf[..];
    var i := 0;
    while i < |data|
      invariant 0 <= i <= |data|
      invariant forall j | 0 <= j < buf.Length :: buf[j] == if offset <= j < offset + i then data[j - offset] else b[j]
    {
      buf[offset + i] := data[i];
      i := i + 1;
    }
    assert buf[offset..offset + |data|] == data;
  }
}
