/** Bytes, base-128 varints and little-endian words, as server/tak_proto.go handles them.
    The varint format is the one of the Protocol Buffers Encoding specification,
    section "Base 128 Varints". */
module TakVarint {

  import opened Basics

  type uint64 = v: int | 0 <= v < TWO_64

  const TWO_63: int := 0x8000_0000_0000_0000
  const TWO_64: int := 0x1_0000_0000_0000_0000

  /** A Go slice: its length is a non-negative `int`, which has 64 bits. */
  type slice = s: bytes | |s| < TWO_63

  // ---------- powers and bitwise or ----------

  function Pow2(n: nat): (p: nat)
    ensures p >= 1
  {
    if n == 0 then 1 else 2 * Pow2(n - 1)
  }

  lemma {:induction false} Pow2Add(m: nat, n: nat)
    ensures Pow2(m + n) == Pow2(m) * Pow2(n)
  {
    if m > 0 {
      Pow2Add(m - 1, n);
      assert Pow2(m + n) == 2 * Pow2(m - 1 + n);
      Doubled(Pow2(m - 1), Pow2(n));
    }
  }

  lemma Doubled(a: nat, b: nat)
    ensures 2 * (a * b) == (2 * a) * b
  {
  }

  lemma Pow2Of1()
    ensures Pow2(1) == 2
  {
  }

  lemma Pow2Of64()
    ensures Pow2(7) == 0x80 && Pow2(63) == TWO_63 && Pow2(64) == TWO_64
  {
    hide Pow2;
    Pow2Of1();
    Pow2Add(1, 1); Pow2Add(2, 1); Pow2Add(3, 3); Pow2Add(6, 1);
    Pow2Add(7, 7); Pow2Add(14, 14); Pow2Add(28, 28); Pow2Add(56, 7); Pow2Add(63, 1);
  }

  /** The bitwise or of two non-negative words. */
  function BitOr(a: nat, b: nat): nat
    decreases a + b
  {
    if a == 0 && b == 0 then 0
    else (if a % 2 == 1 || b % 2 == 1 then 1 else 0) + 2 * BitOr(a / 2, b / 2)
  }

  lemma {:induction false} BitOrZero(b: nat)
    ensures BitOr(0, b) == b
  {
    if b > 0 { BitOrZero(b / 2); }
  }

  /** Or-ing a word into the bits above another one adds it. */
  lemma {:induction false} BitOrDisjoint(a: nat, hi: nat, s: nat)
    requires a < Pow2(s)
    ensures BitOr(a, hi * Pow2(s)) == a + hi * Pow2(s)
    decreases s
  {
    if s == 0 {
      BitOrZero(hi);
    } else {
      var b := hi * Pow2(s);
      assert b == 2 * (hi * Pow2(s - 1));
      assert a / 2 < Pow2(s - 1);
      BitOrDisjoint(a / 2, hi, s - 1);
      if a == 0 && b == 0 {
      } else {
        assert b % 2 == 0 && b / 2 == hi * Pow2(s - 1);
      }
    }
  }

  // ---------- varints: meaning ----------

  /** The number a run of base-128 groups stands for, least significant group first. */
  function Base128(s: bytes): nat
  {
    if s == [] then 0 else s[0] % 0x80 + 0x80 * Base128(s[1..])
  }

  lemma {:induction false} Base128Append(s: bytes, b: byte)
    ensures Base128(s) < Pow2(7 * |s|)
    ensures Base128(s + [b]) == Base128(s) + (b % 0x80) * Pow2(7 * |s|)
  {
    if s == [] {
      assert Base128([b]) == b % 0x80 + 0x80 * Base128([b][1..]);
      assert s + [b] == [b];
    } else {
      Base128Append(s[1..], b);
      assert (s + [b])[1..] == s[1..] + [b];
      var p := Pow2(7 * (|s| - 1));
      assert Pow2(7 * |s|) == 0x80 * p by {
        Pow2Add(7, 7 * (|s| - 1));
        Pow2Of64();
      }
      var d := b % 0x80;
      assert 0x80 * (d * p) == d * (0x80 * p);
    }
  }

  /** How many bytes the varint at the start of `s` takes: up to and including the first
      byte below 0x80; 0 when there is no such byte among the first ten. */
  function VarintLen(s: bytes): (n: nat)
    ensures n <= |s| && n <= 10
    ensures n > 0 ==> s[n - 1] < 0x80 && forall i :: 0 <= i < n - 1 ==> s[i] >= 0x80
    ensures n == 0 ==> forall i :: 0 <= i < |s| && i < 10 ==> s[i] >= 0x80
  {
    FirstFinal(s, 0)
  }

  function FirstFinal(s: bytes, i: nat): (n: nat)
    requires i <= |s| && i <= 10
    requires forall j :: 0 <= j < i ==> s[j] >= 0x80
    ensures n <= |s| && n <= 10
    ensures n > 0 ==> s[n - 1] < 0x80 && forall j :: 0 <= j < n - 1 ==> s[j] >= 0x80
    ensures n == 0 ==> forall j :: 0 <= j < |s| && j < 10 ==> s[j] >= 0x80
    decreases 10 - i
  {
    if i == |s| || i == 10 then 0
    else if s[i] < 0x80 then i + 1
    else FirstFinal(s, i + 1)
  }

  /** The value of the varint at the start of `s`: 64 bits are kept. */
  function VarintValue(s: bytes): uint64
  {
    Base128(s[..VarintLen(s)]) % TWO_64
  }

  function VarintBytes(v: nat): (s: bytes)
    ensures |s| >= 1
  {
    if v >= 0x80 then [v % 0x80 + 0x80] + VarintBytes(v / 0x80) else [v]
  }

  // ---------- varints: the loops of appendVarint and decodeVarint ----------

  /** `byte(val) | 0x80`: the low seven bits with the continuation bit set. */
  function LowByteWithFlag(v: nat): (b: byte)
    ensures b == v % 0x80 + 0x80
  {
    v % 0x100 % 0x80 + 0x80
  }

  method AppendVarint(buf: bytes, val: uint64) returns (out: bytes)
    ensures out == buf + VarintBytes(val)
  {
    out := buf;
    var v: nat := val;
    while v >= 0x80
      invariant out + VarintBytes(v) == buf + VarintBytes(val)
      decreases v
    {
      var group := LowByteWithFlag(v);
      assert out + VarintBytes(v) == (out + [group]) + VarintBytes(v / 0x80);
      out := out + [group];
      v := v / 0x80;
    }
    out := out + [v];
  }

  method DecodeVarint(buf: bytes) returns (val: uint64, n: nat)
    ensures n == VarintLen(buf)
    ensures val == if n == 0 then 0 else VarintValue(buf)
  {
    val := 0;
    var shift := 0;
    var i := 0;
    while i < |buf|
      invariant 0 <= i <= |buf| && i <= 10 && shift == 7 * i
      invariant forall j :: 0 <= j < i ==> buf[j] >= 0x80
      invariant val == Base128(buf[..i]) % TWO_64
    {
      if i >= 10 {
        return 0, 0;
      }
      var b := buf[i];
      OrGroup(buf[..i], b);
      assert buf[..i + 1] == buf[..i] + [b];
      val := BitOr(val, (b % 0x80) * Pow2(shift) % TWO_64);
      if b < 0x80 {
        return val, i + 1;
      }
      i, shift := i + 1, shift + 7;
    }
    return 0, 0;
  }

  /** One turn of the decoding loop: the shifted group lands in bits that are still clear,
      and the shift drops what does not fit in 64 bits. */
  lemma OrGroup(done: bytes, b: byte)
    requires |done| < 10
    ensures BitOr(Base128(done) % TWO_64, (b % 0x80) * Pow2(7 * |done|) % TWO_64) == Base128(done + [b]) % TWO_64
  {
    hide Base128, BitOr, Pow2;
    Base128Append(done, b);
    Pow2Of64();
    var s := 7 * |done|;
    Pow2Add(s, 64 - s);
    OrGroupAt(Base128(done), b % 0x80, s, Pow2(s), Pow2(64 - s), TWO_64);
  }

  lemma OrGroupAt(lo: nat, d: nat, s: nat, p: nat, q: nat, m: nat)
    requires p == Pow2(s) && q > 0 && p * q == m && lo < p
    ensures BitOr(lo % m, d * p % m) == (lo + d * p) % m
  {
    var r := d % q;
    SplitProduct(d, p, q);
    KeepLow(lo, r * p, d / q, p, r, q, m);
    BitOrDisjoint(lo, r, s);
  }

  lemma KeepLow(lo: nat, x: nat, k: nat, p: nat, r: nat, q: nat, m: nat)
    requires lo < p && r < q && p * q == m && x == r * p
    ensures lo % m == lo && (x + k * m) % m == x && (lo + (x + k * m)) % m == lo + x
  {
    MulMono(r + 1, q, p);
    assert (r + 1) * p == x + p;
    assert m > 0 && lo + x < m;
    var e := k * m;
    ModAdds(lo, 0, m);
    ModAdds(x, k, m);
    ModAdds(lo + x, k, m);
    assert lo + (x + e) == (lo + x) + e;
  }

  lemma SplitProduct(d: nat, p: nat, q: nat)
    requires q > 0
    ensures d * p == (d % q) * p + (d / q) * (p * q)
  {
    assert d == (d / q) * q + d % q;
    assert ((d / q) * q + d % q) * p == ((d / q) * q) * p + (d % q) * p;
    assert ((d / q) * q) * p == (d / q) * (q * p);
  }

  lemma ModAdds(x: nat, k: nat, m: nat)
    requires x < m
    ensures (x + k * m) % m == x
  {
    DivUnique(x + k * m, k, x, m);
  }

  // ---------- the varint round trip ----------

  lemma {:induction false} VarintShape(v: nat, rest: bytes, k: nat)
    requires v < Pow2(7 * k) && k > 0
    ensures var e := VarintBytes(v);
            |e| <= k && e[|e| - 1] < 0x80 && (forall i :: 0 <= i < |e| - 1 ==> e[i] >= 0x80)
            && Base128(e) == v
    decreases v
  {
    var e := VarintBytes(v);
    if v >= 0x80 {
      Pow2Of64();
      if k == 1 { assert false; }
      Pow2Add(7, 7 * (k - 1));
      VarintShape(v / 0x80, rest, k - 1);
      var t := VarintBytes(v / 0x80);
      assert e == [v % 0x80 + 0x80] + t && e[1..] == t;
      forall i | 0 <= i < |e| - 1 ensures e[i] >= 0x80 {
        if i > 0 { assert e[i] == t[i - 1]; }
      }
      assert e[|e| - 1] == t[|t| - 1];
    } else {
      assert e == [v];
      assert Base128([v]) == v % 0x80 + 0x80 * Base128([v][1..]);
    }
  }

  /** Decoding what appendVarint wrote, whatever follows it, gives the value back and
      consumes exactly the bytes written, at most ten. */
  lemma VarintRoundTrip(v: uint64, rest: bytes)
    ensures VarintLen(VarintBytes(v) + rest) == |VarintBytes(v)| <= 10
    ensures VarintValue(VarintBytes(v) + rest) == v
  {
    hide Base128, VarintBytes, FirstFinal;
    assert v < Pow2(7 * 10) by { Pow2Of64(); Pow2Add(64, 6); }
    VarintShape(v, rest, 10);
    var e := VarintBytes(v);
    var s := e + rest;
    assert forall i :: 0 <= i < |e| ==> s[i] == e[i];
    assert s[..|e|] == e;
    assert VarintLen(s) == |e|;
  }

  // ---------- little-endian 64-bit words ----------

  function LeBytes(v: nat, width: nat): (s: bytes)
    ensures |s| == width
  {
    if width == 0 then [] else [v % 0x100] + LeBytes(v / 0x100, width - 1)
  }

  function LeValue(s: bytes): nat
  {
    if s == [] then 0 else s[0] + 0x100 * LeValue(s[1..])
  }

  lemma ByteMore(width: nat)
    requires width > 0
    ensures Pow2(8 * width) == 0x100 * Pow2(8 * (width - 1))
  {
    hide Pow2;
    Pow2Of1();
    Pow2Of64();
    Pow2Add(7, 1);
    Pow2Add(8, 8 * (width - 1));
    assert 8 * width == 8 + 8 * (width - 1);
  }

  lemma {:induction false} LeRoundTrip(v: nat, width: nat)
    requires v < Pow2(8 * width)
    ensures LeValue(LeBytes(v, width)) == v
  {
    if width > 0 {
      ByteMore(width);
      LeRoundTrip(v / 0x100, width - 1);
      assert LeBytes(v, width)[1..] == LeBytes(v / 0x100, width - 1);
    }
  }

  /** Byte k of a word is its digit k to the base 256. */
  lemma {:induction false} LeLayout(v: nat, width: nat, k: nat)
    requires k < width
    ensures LeBytes(v, width)[k] == v / Pow2(8 * k) % 0x100
    decreases k
  {
    if k > 0 {
      LeLayout(v / 0x100, width - 1, k - 1);
      ByteMore(k);
      DivTwice(v, 0x100, Pow2(8 * (k - 1)));
    }
  }

  lemma DivTwice(v: nat, a: nat, b: nat)
    requires a > 0 && b > 0
    ensures a * b > 0 && v / a / b == v / (a * b)
  {
    var q, r := v / a, v % a;
    var p, s := q / b, q % b;
    TwoDigits(v, a, b, q, r, p, s);
    DivUnique(v, p, s * a + r, a * b);
  }

  lemma TwoDigits(v: nat, a: nat, b: nat, q: nat, r: nat, p: nat, s: nat)
    requires v == q * a + r && r < a && q == p * b + s && s < b
    ensures v == p * (a * b) + (s * a + r) && s * a + r < a * b
  {
    MulMono(s + 1, b, a);
    assert (s + 1) * a == s * a + a;
    Distributes(p, b, s, a);
  }

  lemma Distributes(p: nat, b: nat, s: nat, a: nat)
    ensures (p * b + s) * a == p * (a * b) + s * a
  {
  }

  lemma {:induction false} LeInRange(s: bytes)
    ensures LeValue(s) < Pow2(8 * |s|)
  {
    if s != [] {
      ByteMore(|s|);
      LeInRange(s[1..]);
    }
  }
}
