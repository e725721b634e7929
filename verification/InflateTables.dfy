/** The tables and sums of RFC 1951 and RFC 1950 by their rules, apart from the constants and loops that hold them. */
module InflateTables {
  import opened Bytes
  import opened Powers
  import opened BitReader
  import opened Huffman
  import opened InflateSpec

  // ---------- the order of code lengths ----------

  /** Which of the 3-bit lengths of section 3.2.7 is the one of code length symbol c: the repeats first, then zero, then
      from the middle outwards. */
  function Where(c: nat): (j: nat)
    requires c < 19
    ensures j < 19
  {
    if c >= 16 then c - 16 else if c == 0 then 3 else if c >= 8 then 2 * c - 12 else 19 - 2 * c
  }

  lemma OrderIs(c: nat)
    requires c < 19
    ensures CodeLenOrder[Where(c)] == c
  {
  }

  /** A code length symbol has the length that stands at its place, or none if its place is not written. */
  lemma {:induction false} CodeLensIs(s: seq<Bit>, p: nat, n: nat, c: nat)
    requires n <= 19 && p + 3 * n <= |s| && c < 19
    ensures CodeLens(s, p, n)[c] == if Where(c) < n then Num(s, p + 3 * Where(c), 3) else 0
    decreases n
  {
    hide Num;
    if n > 0 {
      CodeLensIs(s, p, n - 1, c);
      OrderIs(c);
      PlacesDiffer(n - 1, c);
    }
  }

  lemma PlacesDiffer(j: nat, c: nat)
    requires j < 19 && c < 19
    ensures CodeLenOrder[j] < 19 && (CodeLenOrder[j] == c <==> Where(c) == j)
  {
  }

  // ---------- lengths and distances ----------

  /** Section 3.2.5: four symbols share a number of extra bits, from the ninth on, and each starts where the one before
      it ends; the longest match has a symbol of its own. */
  lemma LengthTable(sym: nat)
    requires 257 <= sym <= 285
    ensures LengthBits(sym) == if sym < 265 || sym == 285 then 0 else (sym - 261) / 4
    ensures LengthFrom(sym) == if sym < 265 then sym - 254 else if sym == 285 then 258
                               else 3 + (4 + (sym - 261) % 4) * Pow2((sym - 261) / 4)
  {
    ExtraBits(sym);
    hide Pow2, LengthBits;
    if 265 <= sym <= 284 { LengthPower(sym); }
  }

  lemma ExtraBits(sym: nat)
    requires 257 <= sym <= 285
    ensures LengthBits(sym) == if sym < 265 || sym == 285 then 0 else (sym - 261) / 4
  {
  }

  lemma LengthPower(sym: nat)
    requires 265 <= sym <= 284
    ensures Pow2((sym - 261) / 4) == if sym < 269 then 2 else if sym < 273 then 4 else if sym < 277 then 8
                                     else if sym < 281 then 16 else 32
  {
    SmallPowers();
  }

  /** Distances likewise, two symbols to a number of extra bits, from the fifth on. */
  lemma DistTable(d: nat)
    requires d <= 29
    ensures DistBits(d) == if d < 4 then 0 else (d - 2) / 2
    ensures DistFrom(d) == if d < 4 then d + 1 else 1 + (2 + d % 2) * Pow2((d - 2) / 2)
  {
    DistExtraBits(d);
    hide Pow2, DistBits;
    if d >= 4 { DistPower(d); }
  }

  lemma DistExtraBits(d: nat)
    requires d <= 29
    ensures DistBits(d) == if d < 4 then 0 else (d - 2) / 2
  {
  }

  lemma DistPower(d: nat)
    requires 4 <= d <= 29
    ensures var e := (d - 2) / 2;
            Pow2(e) == if e == 1 then 2 else if e == 2 then 4 else if e == 3 then 8 else if e == 4 then 16
                       else if e == 5 then 32 else if e == 6 then 64 else if e == 7 then 128 else if e == 8 then 256
                       else if e == 9 then 512 else if e == 10 then 1024 else if e == 11 then 2048
                       else if e == 12 then 4096 else 8192
  {
    SmallPowers();
  }

  lemma SmallPowers()
    ensures Pow2(0) == 1 && Pow2(1) == 2 && Pow2(2) == 4 && Pow2(3) == 8 && Pow2(4) == 16 && Pow2(5) == 32
    ensures Pow2(6) == 64 && Pow2(7) == 128 && Pow2(8) == 256 && Pow2(9) == 512 && Pow2(10) == 1024 && Pow2(11) == 2048
    ensures Pow2(12) == 4096 && Pow2(13) == 8192
  {
    hide Pow2;
    Pow2Zero();
    Pow2Next(0); Pow2Next(1); Pow2Next(2); Pow2Next(3); Pow2Next(4); Pow2Next(5); Pow2Next(6); Pow2Next(7);
    Pow2Next(8); Pow2Next(9); Pow2Next(10); Pow2Next(11); Pow2Next(12);
  }

  /** Every distance of 1 to 32768 has a symbol and extra bits. */
  lemma {:induction false} EveryDistance(dist: nat, d: nat) returns (sym: nat, extra: nat)
    requires d <= 29 && DistFrom(d) <= dist <= 32768
    ensures d <= sym <= 29 && extra < Pow2(DistBits(sym)) && DistFrom(sym) + extra == dist
    decreases 29 - d
  {
    hide DistFrom, DistBits, Pow2;
    DistEnds(d);
    if d < 29 && dist >= DistFrom(d + 1) {
      sym, extra := EveryDistance(dist, d + 1);
    } else {
      sym, extra := d, dist - DistFrom(d);
    }
  }

  /** The distances of a symbol end where those of the next one start. */
  lemma DistEnds(d: nat)
    requires d <= 29
    ensures DistFrom(d) + Pow2(DistBits(d)) == if d == 29 then 32769 else DistFrom(d + 1)
  {
    hide DistFrom, DistBits, Pow2;
    if d == 29 || d < 4 {
      DistTable(d);
      SmallPowers();
      if d < 4 { DistTable(d + 1); }
    } else if d % 2 == 0 {
      DistPair((d - 2) / 2);
    } else {
      DistPair((d - 2) / 2);
      DistPair((d - 2) / 2 + 1);
      Pow2Next((d - 2) / 2);
    }
  }

  /** The two symbols with e extra bits. */
  lemma DistPair(e: nat)
    requires 1 <= e <= 13
    ensures DistBits(2 * e + 2) == DistBits(2 * e + 3) == e
    ensures DistFrom(2 * e + 2) == 1 + 2 * Pow2(e) && DistFrom(2 * e + 3) == 1 + 3 * Pow2(e)
  {
    hide DistFrom, DistBits, Pow2;
    DistTable(2 * e + 2);
    DistTable(2 * e + 3);
  }

  /** Every length of 3 to 258 has a symbol and extra bits. */
  lemma {:induction false} EveryLength(length: nat, s: nat) returns (sym: nat, extra: nat)
    requires 257 <= s <= 285 && LengthFrom(s) <= length <= 258
    ensures s <= sym <= 285 && extra < Pow2(LengthBits(sym)) && LengthFrom(sym) + extra == length
    decreases 285 - s
  {
    hide LengthFrom, LengthBits, Pow2;
    LengthEnds(s);
    if s < 285 && length >= LengthFrom(s + 1) {
      sym, extra := EveryLength(length, s + 1);
    } else {
      sym, extra := s, length - LengthFrom(s);
    }
  }

  /** Likewise lengths; the last length of the last symbol but one is also that of the last. */
  lemma LengthEnds(s: nat)
    requires 257 <= s <= 285
    ensures LengthFrom(s) + Pow2(LengthBits(s)) == if s >= 284 then 259 else LengthFrom(s + 1)
    ensures s == 284 ==> LengthFrom(s + 1) == 258
  {
    hide LengthFrom, LengthBits, Pow2;
    LengthTable(s);
    SmallPowers();
    if s < 285 {
      LengthTable(s + 1);
    }
    if 265 <= s < 284 {
      var e, r := (s - 261) / 4, (s - 261) % 4;
      Pow2Next(e);
      assert (s + 1 - 261) / 4 == (if r < 3 then e else e + 1) && (s + 1 - 261) % 4 == if r < 3 then r + 1 else 0;
    }
  }

  // ---------- the codes of section 3.2.2 ----------

  /** Symbols of one length have consecutive codes in their order. */
  lemma CodesFollow(lens: seq<int>, a: nat, b: nat)
    requires a < b < |lens| && lens[a] == lens[b] > 0 && forall k | a < k < b :: lens[k] != lens[a]
    ensures CodeOf(lens, b) == CodeOf(lens, a) + 1
  {
    CountStep(lens, a, lens[a]);
    CountSame(lens, a + 1, b, lens[a]);
  }

  lemma {:induction false} CountSame(lens: seq<int>, j: nat, k: nat, l: int)
    requires j <= k <= |lens| && forall i | j <= i < k :: lens[i] != l
    ensures Count(lens[..j], l) == Count(lens[..k], l)
    decreases k
  {
    if j < k {
      CountStep(lens, k - 1, l);
      CountSame(lens, j, k - 1, l);
    }
  }

  /** Codes of the shorter length come before those of the longer one, bit by bit. */
  lemma ShorterFirst(lens: seq<int>, a: nat, b: nat)
    requires a < |lens| && b < |lens| && 0 < lens[a] < lens[b]
    ensures (CodeOf(lens, a) + 1) * Pow2(lens[b] - lens[a]) <= CodeOf(lens, b)
  {
    hide Pow2, First;
    RankBelowCount(lens, a);
    FirstGrows(lens, lens[a], lens[b]);
    TimesMonotone(CodeOf(lens, a) + 1, First(lens, lens[a]) + Count(lens, lens[a]), Pow2(lens[b] - lens[a]));
  }

  /** A code stands in the stream with its most significant bit first. */
  lemma {:induction false} WordBits(v: nat, n: nat, j: nat)
    requires j < n
    ensures MsbBits(v, n)[j] == v / Pow2(n - 1 - j) % 2
    decreases n
  {
    if j < n - 1 {
      WordBits(v / 2, n - 1, j);
      Halves(v, n - 2 - j);
    }
  }

  // ---------- the fixed codes of section 3.2.6 ----------

  lemma {:induction false} CountRepeated(value: int, n: nat, l: int)
    ensures Count(Repeated(value, n), l) == if l == value then n else 0
  {
    if n > 0 {
      CountRepeated(value, n - 1, l);
      assert Repeated(value, n)[..n - 1] == Repeated(value, n - 1);
    }
  }

  lemma {:induction false} CountAppend(a: seq<int>, b: seq<int>, l: int)
    ensures Count(a + b, l) == Count(a, l) + Count(b, l)
    decreases |b|
  {
    if b == [] {
      assert a + b == a;
    } else {
      CountAppend(a, b[..|b| - 1], l);
      assert (a + b)[..|a + b| - 1] == a + b[..|b| - 1];
    }
  }

  /** How many of the first k literals and lengths have codes of l bits. */
  function FixedCount(k: nat, l: int): nat
    requires k <= 288
  {
    if l == 8 then (if k <= 144 then k else if k <= 280 then 144 else k - 136)
    else if l == 9 then (if k <= 144 then 0 else if k <= 256 then k - 144 else 112)
    else if l == 7 then (if k <= 256 then 0 else if k <= 280 then k - 256 else 24)
    else 0
  }

  lemma FixedCounts(k: nat, l: int)
    requires k <= 288
    ensures Count(FixedLits()[..k], l) == FixedCount(k, l)
  {
    var parts := [Repeated(8, Within(k, 0, 144)), Repeated(9, Within(k, 144, 256)), Repeated(7, Within(k, 256, 280)),
                  Repeated(8, Within(k, 280, 288))];
    assert FixedLits()[..k] == parts[0] + parts[1] + parts[2] + parts[3];
    CountAppend(parts[0] + parts[1] + parts[2], parts[3], l);
    CountAppend(parts[0] + parts[1], parts[2], l);
    CountAppend(parts[0], parts[1], l);
    CountRepeated(8, Within(k, 0, 144), l);
    CountRepeated(9, Within(k, 144, 256), l);
    CountRepeated(7, Within(k, 256, 280), l);
    CountRepeated(8, Within(k, 280, 288), l);
  }

  /** How much of the part from a to b lies before k. */
  function Within(k: nat, a: nat, b: nat): nat
    requires a <= b
  {
    if k <= a then 0 else if k < b then k - a else b - a
  }

  lemma FixedFirsts()
    ensures First(FixedLits(), 7) == 0 && First(FixedLits(), 8) == 48 && First(FixedLits(), 9) == 400
  {
    hide FixedLits, Count;
    var f := FixedLits();
    assert f[..288] == f;
    forall l
      ensures Count(f, l) == FixedCount(288, l)
    {
      FixedCounts(288, l);
    }
    assert First(f, 4) == 0 && First(f, 7) == 0;
  }

  /** The codes of the fixed literals and lengths, as the table of section 3.2.6 has them. */
  lemma FixedCodes(sym: nat)
    requires sym < 288
    ensures var (bits, code) := if sym < 144 then (8, 48 + sym) else if sym < 256 then (9, 400 + sym - 144)
                                else if sym < 280 then (7, sym - 256) else (8, 192 + sym - 280);
            FixedLits()[sym] == bits && CodeOf(FixedLits(), sym) == code
  {
    FixedFirsts();
    FixedCounts(sym, FixedLits()[sym]);
  }

  /** A fixed distance code is its symbol in five bits. */
  lemma FixedDistCodes(d: nat)
    requires d < 32
    ensures FixedDists()[d] == 5 && CodeOf(FixedDists(), d) == d
  {
    assert FixedDists()[..d] == Repeated(5, d);
    CountRepeated(5, d, 5);
    CountRepeated(5, 32, 1); CountRepeated(5, 32, 2); CountRepeated(5, 32, 3); CountRepeated(5, 32, 4);
    assert First(FixedDists(), 3) == 0;
  }

  // ---------- the header of section 2.2 of RFC 1950 ----------

  ghost function HeadBits(cm: nat, cinfo: nat, fcheck: nat, fdict: nat, flevel: nat): (s: seq<Bit>)
    ensures |s| == 16
  {
    Digits(cm, 4) + Digits(cinfo, 4) + Digits(fcheck, 5) + Digits(fdict, 1) + Digits(flevel, 2)
  }

  /** The two bytes of a header, field by field: the check, the method, the window and the dictionary, in that order. */
  lemma HeaderFields(cm: nat, cinfo: nat, fcheck: nat, fdict: nat, flevel: nat, rest: seq<Bit>)
    requires cm < 16 && cinfo < 16 && fcheck < 32 && fdict < 2 && flevel < 4
    ensures Header(HeadBits(cm, cinfo, fcheck, fdict, flevel) + rest)
            == if (256 * (cm + 16 * cinfo) + fcheck + 32 * fdict + 64 * flevel) % 31 != 0
               then Stop(Data("incorrect header check"))
               else if cm != 8 then Stop(Data("unknown compression method"))
               else if cinfo > 7 then Stop(Data("invalid window size"))
               else if fdict == 1 then Stop(NeedDict)
               else Go(16)
  {
    hide *;
    var cmf, flg := cm + 16 * cinfo, fcheck + 32 * (fdict + 2 * flevel);
    HeaderBits(cm, cinfo, fcheck, fdict, flevel, rest);
    HeaderParts(cm, cinfo, fcheck, fdict, flevel);
    assert 256 * (cm + 16 * cinfo) + fcheck + 32 * fdict + 64 * flevel == 256 * cmf + flg;
    HeaderOf(HeadBits(cm, cinfo, fcheck, fdict, flevel) + rest, cmf, flg);
  }

  lemma HeaderOf(s: seq<Bit>, cmf: nat, flg: nat)
    requires 16 <= |s| && Num(s, 0, 8) == cmf && Num(s, 8, 8) == flg
    ensures Header(s) == if (256 * cmf + flg) % 31 != 0 then Stop(Data("incorrect header check"))
                         else if cmf % 16 != 8 then Stop(Data("unknown compression method"))
                         else if cmf / 16 > 7 then Stop(Data("invalid window size"))
                         else if flg / 32 % 2 != 0 then Stop(NeedDict)
                         else Go(16)
  {
    hide Num;
  }

  lemma HeaderBits(cm: nat, cinfo: nat, fcheck: nat, fdict: nat, flevel: nat, rest: seq<Bit>)
    requires cm < 16 && cinfo < 16 && fcheck < 32 && fdict < 2 && flevel < 4
    ensures var s := HeadBits(cm, cinfo, fcheck, fdict, flevel) + rest;
            16 <= |s| && Num(s, 0, 8) == cm + 16 * cinfo && Num(s, 8, 8) == fcheck + 32 * (fdict + 2 * flevel)
  {
    hide Digits, Value, Pow2;
    SmallPowers();
    var a, b, c, d, e := Digits(cm, 4), Digits(cinfo, 4), Digits(fcheck, 5), Digits(fdict, 1), Digits(flevel, 2);
    var s := a + b + c + d + e + rest;
    DigitsValue(cm, 4);
    DigitsValue(cinfo, 4);
    DigitsValue(fcheck, 5);
    DigitsValue(fdict, 1);
    DigitsValue(flevel, 2);
    assert s[0..8] == a + b && s[8..16] == c + (d + e);
    ValueAppend(a, b);
    ValueAppend(d, e);
    ValueAppend(c, d + e);
  }

  lemma HeaderParts(cm: nat, cinfo: nat, fcheck: nat, fdict: nat, flevel: nat)
    requires cm < 16 && cinfo < 16 && fcheck < 32 && fdict < 2 && flevel < 4
    ensures (cm + 16 * cinfo) % 16 == cm && (cm + 16 * cinfo) / 16 == cinfo
    ensures (fcheck + 32 * (fdict + 2 * flevel)) / 32 % 2 == fdict
  {
    DivIs(cm + 16 * cinfo, 16, cinfo, cm);
    DivIs(fcheck + 32 * (fdict + 2 * flevel), 32, fdict + 2 * flevel, fcheck);
    DivIs(fdict + 2 * flevel, 2, flevel, fdict);
  }

  // ---------- Adler-32 of section 8.2 of RFC 1950 ----------

  ghost function Total(out: seq<Byte>): nat
  {
    if out == [] then 0 else out[0] + Total(out[1..])
  }

  /** Each byte as often as it is added: the first one once for every byte, the last one once. */
  ghost function Weighted(out: seq<Byte>): nat
  {
    if out == [] then 0 else |out| * out[0] + Weighted(out[1..])
  }

  lemma {:induction false} TotalSnoc(a: seq<Byte>, c: Byte)
    ensures Total(a + [c]) == Total(a) + c && Weighted(a + [c]) == Weighted(a) + Total(a) + c
    decreases |a|
  {
    if a != [] {
      TotalSnoc(a[1..], c);
      assert (a + [c])[1..] == a[1..] + [c];
      OneTimeMore(|a|, a[0]);
    }
  }

  lemma OneTimeMore(n: nat, x: nat)
    ensures (n + 1) * x == n * x + x
  {
  }

  lemma {:induction false} SumsAre(out: seq<Byte>)
    ensures SumA(out) == 1 + Total(out) && SumB(out) == |out| + Weighted(out)
    decreases |out|
  {
    if out != [] {
      var n := |out| - 1;
      SumsAre(out[..n]);
      assert out == out[..n] + [out[n]];
      TotalSnoc(out[..n], out[n]);
    }
  }

  /** The checksum's low half is one and the sum of the bytes, its high half the sum of all the low sums. */
  lemma AdlerIs(out: seq<Byte>)
    ensures Adler(out) / 65536 == (|out| + Weighted(out)) % 65521 && Adler(out) % 65536 == (1 + Total(out)) % 65521
  {
    SumsAre(out);
    DivIs(Adler(out), 65536, (|out| + Weighted(out)) % 65521, (1 + Total(out)) % 65521);
  }

  /** Another byte in any one place makes another checksum. */
  lemma AdlerCatchesAByte(out: seq<Byte>, i: nat, c: Byte)
    requires i < |out| && c != out[i]
    ensures Adler(out[i := c]) != Adler(out)
  {
    AdlerIs(out);
    AdlerIs(out[i := c]);
    TotalChanges(out, i, c);
    hide *;
    Apart(1 + Total(out), 1 + Total(out[i := c]));
  }

  lemma Apart(x: nat, y: nat)
    requires x != y && -65521 < x - y < 65521
    ensures x % 65521 != y % 65521
  {
    if x % 65521 == y % 65521 {
      Multiple(x / 65521 - y / 65521, 65521, x - y);
    }
  }

  lemma {:induction false} TotalChanges(out: seq<Byte>, i: nat, c: Byte)
    requires i < |out|
    ensures Total(out[i := c]) - Total(out) == c - out[i]
    decreases |out|
  {
    if i > 0 {
      TotalChanges(out[1..], i - 1, c);
      assert out[i := c][1..] == out[1..][i - 1 := c];
    } else {
      assert out[i := c][1..] == out[1..];
    }
  }
}
