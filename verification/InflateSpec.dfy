/** What a zlib stream says, bit by bit: sections 3.2.3 to 3.2.7 of RFC 1951 inside section 2.2 of RFC 1950, with the
    faults of internal/zlibmsg and a limit on the output. */
module InflateSpec {
  import opened Bytes
  import opened BitReader
  import opened Huffman

  datatype Fault = Data(msg: string) | NeedDict

  /** A fault, the end of the input, the end of the room for output, or a value to go on with. */
  datatype Res<T> = Stop(fault: Fault) | RanOut | Full | Go(value: T)

  /** Where a run stands: the bits consumed and the whole output so far. */
  datatype Point = Point(at: nat, out: seq<Byte>)

  ghost predicate Room(limit: int, total: nat)
  {
    limit < 0 || total < limit
  }

  /** An integer of n bits at p. */
  ghost function Num(s: seq<Bit>, p: nat, n: nat): (v: nat)
    requires p + n <= |s|
  {
    Value(s[p..p + n])
  }

  // ---------- the wrapper ----------

  ghost function Header(s: seq<Bit>): (r: Res<nat>)
    ensures r.Go? ==> r.value <= |s|
  {
    if 16 > |s| then RanOut
    else
      var cmf, flg := Num(s, 0, 8), Num(s, 8, 8);
      if (256 * cmf + flg) % 31 != 0 then Stop(Data("incorrect header check"))
      else if cmf % 16 != 8 then Stop(Data("unknown compression method"))
      else if cmf / 16 + 8 > 15 then Stop(Data("invalid window size"))
      else if flg / 32 % 2 != 0 then Stop(NeedDict)
      else Go(16)
  }

  /** The two sums of Adler-32, not reduced. */
  ghost function SumA(out: seq<Byte>): nat
  {
    if out == [] then 1 else SumA(out[..|out| - 1]) + out[|out| - 1]
  }

  ghost function SumB(out: seq<Byte>): nat
  {
    if out == [] then 0 else SumB(out[..|out| - 1]) + SumA(out)
  }

  ghost function Adler(out: seq<Byte>): nat
  {
    SumB(out) % 65521 * 65536 + SumA(out) % 65521
  }

  ghost function Checksum(s: seq<Bit>, p: nat, out: seq<Byte>): Res<Point>
  {
    var a := Aligned(p);
    if a + 32 > |s| then RanOut
    else if BigEndian(s, a) != Adler(out) then Stop(Data("incorrect data check"))
    else Go(Point(a + 32, out))
  }

  ghost function BigEndian(s: seq<Bit>, a: nat): nat
    requires a + 32 <= |s|
  {
    ((Num(s, a, 8) * 256 + Num(s, a + 8, 8)) * 256 + Num(s, a + 16, 8)) * 256 + Num(s, a + 24, 8)
  }

  // ---------- stored blocks ----------

  ghost function StoredBytes(s: seq<Bit>, p: nat, n: nat, out: seq<Byte>, limit: int): (r: Res<Point>)
    requires p <= |s|
    ensures r.Go? ==> p <= r.value.at <= |s|
    decreases n
  {
    if n == 0 then Go(Point(p, out))
    else if !Room(limit, |out|) then Full
    else if p + 8 > |s| then RanOut
    else StoredBytes(s, p + 8, n - 1, out + [ByteAt(s, p)], limit)
  }

  ghost function ByteAt(s: seq<Bit>, p: nat): (b: Byte)
    requires p + 8 <= |s|
    ensures b == Num(s, p, 8)
  {
    ByteBound(s[p..p + 8]);
    Num(s, p, 8)
  }

  lemma ByteBound(t: seq<Bit>)
    requires |t| == 8
    ensures Value(t) < 256
  {
    Powers.Pow2Constants();
  }

  ghost function Stored(s: seq<Bit>, p: nat, out: seq<Byte>, limit: int): (r: Res<Point>)
    ensures r.Go? ==> p <= r.value.at <= |s|
  {
    var a := Aligned(p);
    if a + 32 > |s| then RanOut
    else if Num(s, a, 16) != 0xffff - Num(s, a + 16, 16) then Stop(Data("invalid stored block lengths"))
    else StoredBytes(s, a + 32, Num(s, a, 16), out, limit)
  }

  // ---------- compressed blocks ----------

  const LengthBase: seq<nat> := [
    3, 4, 5, 6, 7, 8, 9, 10, 11, 13, 15, 17, 19, 23, 27, 31, 35, 43, 51, 59, 67, 83, 99, 115, 131, 163, 195, 227, 258]
  const LengthExtra: seq<nat> := [
    0, 0, 0, 0, 0, 0, 0, 0, 1, 1, 1, 1, 2, 2, 2, 2, 3, 3, 3, 3, 4, 4, 4, 4, 5, 5, 5, 5, 0]
  const DistBase: seq<nat> := [
    1, 2, 3, 4, 5, 7, 9, 13, 17, 25, 33, 49, 65, 97, 129, 193, 257, 385, 513, 769, 1025, 1537, 2049, 3073, 4097, 6145,
    8193, 12289, 16385, 24577]
  const DistExtra: seq<nat> := [
    0, 0, 0, 0, 1, 1, 2, 2, 3, 3, 4, 4, 5, 5, 6, 6, 7, 7, 8, 8, 9, 9, 10, 10, 11, 11, 12, 12, 13, 13]
  const CodeLenOrder: seq<nat> := [16, 17, 18, 0, 8, 7, 9, 6, 10, 5, 11, 4, 12, 3, 13, 2, 14, 1, 15]

  function LengthBits(sym: nat): (n: nat)
    requires 257 <= sym <= 285
    ensures n <= 5
  {
    LengthExtra[sym - 257]
  }

  function DistBits(d: nat): (n: nat)
    requires d <= 29
    ensures n <= 13
  {
    DistExtra[d]
  }

  function DistFrom(d: nat): (n: nat)
    requires d <= 29
    ensures 1 <= n <= 24577
  {
    DistBase[d]
  }

  function LengthFrom(sym: nat): (n: nat)
    requires 257 <= sym <= 285
    ensures 3 <= n <= 258
  {
    LengthBase[sym - 257]
  }

  /** A match: how much to copy from how far back, and where the stream goes on. */
  datatype Ref = Ref(at: nat, length: nat, dist: nat)

  ghost function Match(s: seq<Bit>, p: nat, total: nat, sym: nat, dists: seq<int>): (r: Res<Ref>)
    requires 257 <= sym <= 285
    ensures r.Go? ==> p <= r.value.at <= |s| && 1 <= r.value.dist <= total
  {
    var e := LengthBits(sym);
    if p + e > |s| then RanOut
    else match SymbolAt(dists, s, p + e)
      case Short => RanOut
      case Invalid => Stop(Data("invalid distance code"))
      case Symbol(d, q) =>
        if d > 29 then Stop(Data("invalid distance code"))
        else if q + DistBits(d) > |s| then RanOut
        else
          var dist := DistFrom(d) + Num(s, q, DistBits(d));
          if dist > total then Stop(Data("invalid distance too far back"))
          else Go(Ref(q + DistBits(d), LengthFrom(sym) + Num(s, p, e), dist))
  }

  /** Copy byte by byte from the whole output, so that a match may run into what it writes. */
  ghost function Copy(out: seq<Byte>, dist: nat, length: nat, limit: int): Res<seq<Byte>>
    requires 1 <= dist <= |out|
    decreases length
  {
    if length == 0 then Go(out)
    else if !Room(limit, |out|) then Full
    else Copy(out + [out[|out| - dist]], dist, length - 1, limit)
  }

  /** The body of a block, whichever tables it uses. */
  ghost function Block(s: seq<Bit>, p: nat, out: seq<Byte>, limit: int, lits: seq<int>,
                       dists: seq<int>): (r: Res<Point>)
    ensures r.Go? ==> p <= r.value.at <= |s|
    decreases |s| - p
  {
    match SymbolAt(lits, s, p)
    case Short => RanOut
    case Invalid => Stop(Data("invalid literal/length code"))
    case Symbol(sym, q) =>
      if sym < 256 then
        if !Room(limit, |out|) then Full else Block(s, q, out + [sym], limit, lits, dists)
      else if sym == 256 then Go(Point(q, out))
      else if sym > 285 then Stop(Data("invalid literal/length code"))
      else match Match(s, q, |out|, sym, dists)
        case Stop(f) => Stop(f)
        case RanOut => RanOut
        case Full => Full
        case Go(m) =>
          match Copy(out, m.dist, m.length, limit)
          case Go(out') => Block(s, m.at, out', limit, lits, dists)
          case Stop(f) => Stop(f)
          case RanOut => RanOut
          case Full => Full
  }

  // ---------- the tables of a dynamic block ----------

  datatype Lens = Lens(at: nat, lens: seq<int>)

  ghost function CodeLens(s: seq<Bit>, p: nat, n: nat): (r: seq<int>)
    requires n <= 19 && p + 3 * n <= |s|
    ensures |r| == 19
  {
    if n == 0 then seq(19, _ => 0)
    else CodeLens(s, p, n - 1)[CodeLenOrder[n - 1] := Num(s, p + 3 * (n - 1), 3)]
  }

  ghost function Repeated(value: int, n: nat): (r: seq<int>)
    ensures |r| == n
  {
    seq(n, _ => value)
  }

  /** How many bits follow a repeat symbol, and the least it repeats. */
  ghost function RepeatBits(sym: nat): nat
  {
    if sym == 16 then 2 else if sym == 17 then 3 else 7
  }

  ghost function ReadLengths(s: seq<Bit>, p: nat, codes: seq<int>, acc: seq<int>, total: nat): (r: Res<Lens>)
    requires p <= |s| && |acc| <= total
    ensures r.Go? ==> p <= r.value.at <= |s| && |r.value.lens| == total
    decreases |s| - p
  {
    if |acc| >= total then Go(Lens(p, acc))
    else match SymbolAt(codes, s, p)
      case Short => RanOut
      case Invalid => Stop(Data("invalid code lengths set"))
      case Symbol(sym, q) =>
        if sym < 16 then ReadLengths(s, q, codes, acc + [sym], total)
        else if sym == 16 && |acc| == 0 then Stop(Data("invalid bit length repeat"))
        else if q + RepeatBits(sym) > |s| then RanOut
        else
          var value := if sym == 16 then acc[|acc| - 1] else 0;
          var repeat := (if sym <= 17 then 3 else 11) + Num(s, q, RepeatBits(sym));
          if |acc| + repeat > total then Stop(Data("invalid bit length repeat"))
          else ReadLengths(s, q + RepeatBits(sym), codes, acc + Repeated(value, repeat), total)
  }

  /** The lengths of both alphabets of a block, one after the other. */
  ghost function TableLengths(s: seq<Bit>, p: nat, codes: seq<int>, total: nat): (r: Res<Lens>)
    requires p <= |s|
    ensures r.Go? ==> p <= r.value.at <= |s| && |r.value.lens| == total
  {
    if !Accepts(codes, true) then Stop(Data("invalid code lengths set"))
    else if AllZero(codes) then Go(Lens(p, Repeated(0, total)))
    else ReadLengths(s, p, codes, [], total)
  }

  ghost function Dynamic(s: seq<Bit>, p: nat, out: seq<Byte>, limit: int): (r: Res<Point>)
    ensures r.Go? ==> p <= r.value.at <= |s|
  {
    if p + 14 > |s| then RanOut
    else
      var nlen, ndist, ncode := Num(s, p, 5) + 257, Num(s, p + 5, 5) + 1, Num(s, p + 10, 4) + 4;
      if nlen > 286 || ndist > 30 then Stop(Data("too many length or distance symbols"))
      else if p + 14 + 3 * ncode > |s| then RanOut
      else
        FourBits(s[p + 10..p + 14]);
        match TableLengths(s, p + 14 + 3 * ncode, CodeLens(s, p + 14, ncode), nlen + ndist)
        case Stop(f) => Stop(f)
        case RanOut => RanOut
        case Full => Full
        case Go(t) =>
          if t.lens[256] == 0 then Stop(Data("invalid code -- missing end-of-block"))
          else if !Accepts(t.lens[..nlen], false) then Stop(Data("invalid literal/lengths set"))
          else if !Accepts(t.lens[nlen..], false) then Stop(Data("invalid distances set"))
          else Block(s, t.at, out, limit, t.lens[..nlen], t.lens[nlen..])
  }

  lemma FourBits(t: seq<Bit>)
    requires |t| == 4
    ensures Value(t) < 16
  {
    assert Powers.Pow2(4) == 2 * Powers.Pow2(3) == 4 * Powers.Pow2(2) == 8 * Powers.Pow2(1) == 16;
  }

  ghost function FixedLits(): (r: seq<int>)
    ensures |r| == 288
  {
    Repeated(8, 144) + Repeated(9, 112) + Repeated(7, 24) + Repeated(8, 8)
  }

  ghost function FixedDists(): (r: seq<int>)
    ensures |r| == 32
  {
    Repeated(5, 32)
  }

  // ---------- the whole stream ----------

  ghost function BlockOf(s: seq<Bit>, kind: nat, p: nat, out: seq<Byte>, limit: int): (r: Res<Point>)
    ensures r.Go? ==> p <= r.value.at <= |s|
  {
    match kind
    case 0 => Stored(s, p, out, limit)
    case 1 => Block(s, p, out, limit, FixedLits(), FixedDists())
    case 2 => Dynamic(s, p, out, limit)
    case _ => Stop(Data("invalid block type"))
  }

  ghost function Blocks(s: seq<Bit>, p: nat, out: seq<Byte>, limit: int): Res<Point>
    decreases |s| - p
  {
    if p + 3 > |s| then RanOut
    else match BlockOf(s, Num(s, p + 1, 2), p + 3, out, limit)
      case Stop(f) => Stop(f)
      case RanOut => RanOut
      case Full => Full
      case Go(pt) =>
        if Num(s, p, 1) == 1 then Checksum(s, pt.at, pt.out) else Blocks(s, pt.at, pt.out, limit)
  }

  /** The run of the inflater over a whole stream. */
  ghost function Inflated(s: seq<Bit>, limit: int): Res<Point>
  {
    match Header(s)
    case Go(p) => Blocks(s, p, [], limit)
    case Stop(f) => Stop(f)
    case RanOut => RanOut
    case Full => Full
  }

  ghost function Message(r: Res<Point>): string
  {
    match r
    case Stop(NeedDict) => "inflate: needs dictionary (no message)"
    case Stop(Data(m)) => "inflate: data stream error (" + m + ")"
    case _ => ""
  }
}
