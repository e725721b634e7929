/** The inflater of internal/zlibmsg/zlibmsg.go, proved to say of every stream what its bits say. */
module Inflate {
  import opened Bytes
  import opened BitReader
  import opened Huffman
  import opened HuffmanTables
  import opened InflateSpec
  import opened Window
  import InflateMonotone

  /** The tables a block decodes with. */
  datatype Tables = Tables(lits: Code, dists: Code)

  method Fill(n: nat, value: int) returns (r: seq<int>)
    ensures r == Repeated(value, n)
  {
    return seq(n, _ => value);
  }

  /** fixedLengths: the lists DEFLATE fixes are complete codes, so the panic cannot happen. */
  method FixedLengths() returns (t: Tables)
    ensures t.lits.Represents(FixedLits()) && t.dists.Represents(FixedDists())
  {
    var lengths := seq(288, sym => if sym < 144 then 8 else if sym < 256 then 9 else if sym < 280 then 7 else 8);
    var distances := seq(32, _ => 5);
    assert lengths == FixedLits() && distances == FixedDists();
    FixedAreComplete();
    var l, lok := Build(lengths, false);
    var d, dok := Build(distances, false);
    return Tables(l, d);
  }

  lemma {:induction false} KraftAppend(a: seq<int>, b: seq<int>)
    ensures Kraft(a + b) == Kraft(a) + Kraft(b)
    decreases |b|
  {
    if b == [] {
      assert a + b == a;
    } else {
      KraftAppend(a, b[..|b| - 1]);
      assert (a + b)[..|a + b| - 1] == a + b[..|b| - 1];
    }
  }

  lemma {:induction false} KraftRepeated(l: nat, n: nat)
    requires 0 < l <= MaxBits
    ensures Kraft(Repeated(l, n)) == n * Powers.Pow2(MaxBits - l)
    decreases n
  {
    if n > 0 {
      KraftRepeated(l, n - 1);
      assert Repeated(l, n)[..n - 1] == Repeated(l, n - 1);
      Distributes(n - 1, Powers.Pow2(MaxBits - l));
    }
  }

  lemma Distributes(x: nat, y: nat)
    ensures (x + 1) * y == x * y + y
  {
  }

  /** 144 codes of 8 bits, 112 of 9, 24 of 7 and 8 more of 8 fill the code space, and so do 32 of 5. */
  lemma FixedAreComplete()
    ensures Complete(FixedLits()) && Complete(FixedDists())
  {
    hide Kraft;
    var a, b, c, d := Repeated(8, 144), Repeated(9, 112), Repeated(7, 24), Repeated(8, 8);
    KraftAppend(a + b + c, d);
    KraftAppend(a + b, c);
    KraftAppend(a, b);
    KraftRepeated(8, 144);
    KraftRepeated(9, 112);
    KraftRepeated(7, 24);
    KraftRepeated(8, 8);
    KraftRepeated(5, 32);
    SmallPowers();
    Powers.Pow2Constants();
  }

  lemma SmallPowers()
    ensures Powers.Pow2(6) == 64 && Powers.Pow2(7) == 128 && Powers.Pow2(8) == 256 && Powers.Pow2(10) == 1024
  {
    assert Powers.Pow2(3) == 2 * Powers.Pow2(2) == 4 * Powers.Pow2(1) == 8;
    assert Powers.Pow2(6) == 2 * Powers.Pow2(5) == 4 * Powers.Pow2(4) == 8 * Powers.Pow2(3);
    assert Powers.Pow2(10) == 2 * Powers.Pow2(9) == 4 * Powers.Pow2(8) == 8 * Powers.Pow2(7);
  }

  class Inflater {
    const src: Bits
    const dst: Output

    constructor (raw: seq<Byte>, limit: int)
      ensures Valid() && src.data == raw && dst.limit == limit && src.At() == 0 && dst.out == []
      ensures fresh(src) && fresh(dst) && fresh(dst.window)
    {
      src := new Bits(raw);
      dst := new Output(limit);
    }

    ghost predicate Valid()
      reads src, dst, dst.window
    {
      src.Valid() && dst.Valid() && !dst.full
    }

    /** The run so far and what the bits say agree. */
    ghost predicate Agrees(r: Res<Point>, f: Option<Fault>)
      reads src, dst, dst.window
    {
      match r
      case Stop(x) => f == Some(x)
      case RanOut => f == None && src.short
      case Full => f == None && dst.full
      case Go(pt) => f == None && Valid() && src.At() == pt.at && dst.out == pt.out
    }

    /** header: the tests in zlib's order. */
    method ReadHeader() returns (f: Option<Fault>, done: bool)
      requires Valid() && src.At() == 0
      modifies src
      ensures match Header(src.Stream())
              case Stop(x) => done && f == Some(x)
              case RanOut => done && f == None
              case Full => false
              case Go(p) => !done && Valid() && src.At() == p
    {
      hide Value, StreamOf, Powers.Pow2, Output.Valid;
      var ok := src.Need(16);
      if !ok {
        return None, true;
      }
      HeaderBytes(src);
      var cmf := src.hold % 256;
      var flg := src.hold / 256 % 256;
      if (256 * cmf + flg) % 31 != 0 {
        return Some(Data("incorrect header check")), true;
      }
      if cmf % 16 != 8 {
        return Some(Data("unknown compression method")), true;
      }
      if cmf / 16 + 8 > 15 {
        return Some(Data("invalid window size")), true;
      }
      src.Drop(16);
      if flg / 32 % 2 != 0 {
        return Some(NeedDict), true;
      }
      return None, false;
    }

    /** stored: copy a block that was not compressed. */
    method StoredBlock() returns (f: Option<Fault>)
      requires Valid()
      modifies src, dst, dst.window
      ensures Agrees(Stored(src.Stream(), old(src.At()), old(dst.out), dst.limit), f)
    {
      hide Value, StreamOf, Powers.Pow2, Output.Valid, Bits.Valid, Bits.At;
      src.AtIsWithin();
      src.Align();
      var length, ok := src.Take(16);
      if !ok {
        return None;
      }
      var inverse: int;
      inverse, ok := src.Take(16);
      if !ok {
        return None;
      }
      if length != 0xffff - inverse {
        return Some(Data("invalid stored block lengths"));
      }
      f := StoredBody(length);
    }

    /** The bytes of a stored block. */
    method StoredBody(length: nat) returns (f: Option<Fault>)
      requires Valid()
      modifies src, dst, dst.window
      ensures 0 <= old(src.At()) <= |src.Stream()|
      ensures Agrees(StoredBytes(src.Stream(), old(src.At()), length, old(dst.out), dst.limit), f)
    {
      hide Value, StreamOf, Powers.Pow2, Output.Valid, Bits.Valid, Bits.At;
      ghost var s, at, out := src.Stream(), src.At(), dst.out;
      src.AtIsWithin();
      for n := 0 to length
        invariant Valid() && at <= src.At() <= |s| && 0 <= at
        invariant StoredBytes(s, src.At(), length - n, dst.out, dst.limit) == StoredBytes(s, at, length, out, dst.limit)
      {
        var room := dst.HasRoom();
        if !room {
          dst.full := true;
          return None;
        }
        var c, ok := src.Take(8);
        if !ok {
          return None;
        }
        ByteBound(s[src.At() - 8..src.At()]);
        dst.Emit(c);
      }
      return None;
    }

    /** The length and distance of a match, after its length symbol. */
    method ReadMatch(t: Tables, sym: nat, ghost dists: seq<int>) returns (f: Option<Fault>, length: nat, dist: nat)
      requires Valid() && 257 <= sym <= 285 && t.dists.Represents(dists)
      modifies src
      ensures match Match(src.Stream(), old(src.At()), |dst.out|, sym, dists)
              case Stop(x) => f == Some(x)
              case RanOut => f == None && src.short
              case Full => false
              case Go(m) => f == None && Valid() && src.At() == m.at && length == m.length && dist == m.dist
                            && 1 <= dist <= WindowSize
    {
      hide StreamOf, Ring, SumA, SumB, Bits.Valid, Bits.At, LengthBits, LengthFrom, DistBits, DistFrom, SymbolAt;
      hide Value, Code.Represents, Powers.Pow2;
      length, dist := 0, 0;
      var extra, ok := src.Take(LengthBits(sym));
      if !ok {
        return None, 0, 0;
      }
      length := LengthFrom(sym) + extra;
      var dsym, status := Decode(t.dists, src, dists);
      if status == DecodeShort {
        return None, 0, 0;
      }
      if status == DecodeInvalid || dsym > 29 {
        return Some(Data("invalid distance code")), 0, 0;
      }
      var dextra;
      dextra, ok := src.Take(DistBits(dsym));
      if !ok {
        return None, 0, 0;
      }
      dist := DistFrom(dsym) + dextra;
      DistReach(dsym);
      if dist > dst.total {
        return Some(Data("invalid distance too far back")), 0, 0;
      }
      return None, length, dist;
    }

    /** block: the body of a compressed block. */
    method CompressedBlock(t: Tables, ghost lits: seq<int>, ghost dists: seq<int>) returns (f: Option<Fault>)
      requires Valid() && t.lits.Represents(lits) && t.dists.Represents(dists)
      modifies src, dst, dst.window
      ensures Agrees(Block(src.Stream(), old(src.At()), old(dst.out), dst.limit, lits, dists), f)
    {
      hide StreamOf, Ring, SumA, SumB, Bits.Holds, Bits.At, SymbolAt, Match, Copy, Code.Represents;
      ghost var s := src.Stream();
      src.AtIsWithin();
      ghost var whole := Block(s, src.At(), dst.out, dst.limit, lits, dists);
      while true
        invariant Valid() && 0 <= src.At() && Block(s, src.At(), dst.out, dst.limit, lits, dists) == whole
        decreases |s| - src.At()
      {
        var sym, status := Decode(t.lits, src, lits);
        if status == DecodeShort {
          return None;
        }
        if status == DecodeInvalid {
          return Some(Data("invalid literal/length code"));
        }
        if sym < 256 {
          var room := dst.HasRoom();
          if !room {
            dst.full := true;
            return None;
          }
          dst.Emit(sym);
          continue;
        }
        if sym == 256 {
          return None;
        }
        if sym > 285 {
          return Some(Data("invalid literal/length code"));
        }
        var length, dist;
        f, length, dist := ReadMatch(t, sym, dists);
        if f.Some? || src.short {
          return f;
        }
        dst.CopyBack(dist, length);
        if dst.full {
          return None;
        }
      }
    }

    /** The lengths of the code-length alphabet, in DEFLATE's own order. */
    method ReadCodeLens(ncode: nat) returns (lens: seq<int>, ok: bool)
      requires Valid() && 0 < ncode <= 19
      modifies src
      ensures ok <==> old(src.At()) + 3 * ncode <= |src.Stream()|
      ensures ok ==> Valid() && src.At() == old(src.At()) + 3 * ncode
      ensures ok ==> 0 <= old(src.At()) && lens == CodeLens(src.Stream(), old(src.At()), ncode)
      ensures !ok ==> src.short
    {
      hide Value, StreamOf, Powers.Pow2, Output.Valid, Bits.Valid, Bits.At;
      ghost var s, at := src.Stream(), src.At();
      src.AtIsWithin();
      lens := seq(19, _ => 0);
      for n := 0 to ncode
        invariant Valid() && src.At() == at + 3 * n && at + 3 * n <= |s| && lens == CodeLens(s, at, n)
      {
        var v;
        v, ok := src.Take(3);
        if !ok {
          return;
        }
        lens := lens[CodeLenOrder[n] := v];
      }
      ok := true;
    }

    /** readLengths: the lengths of a block's alphabets, themselves Huffman coded. */
    method ReadAllLengths(c: Code, total: nat, ghost codes: seq<int>) returns (f: Option<Fault>, lens: seq<int>)
      requires Valid() && c.Represents(codes)
      modifies src
      ensures 0 <= old(src.At()) <= |src.Stream()|
      ensures match ReadLengths(src.Stream(), old(src.At()), codes, [], total)
              case Stop(x) => f == Some(x)
              case RanOut => f == None && src.short
              case Full => false
              case Go(t) => f == None && Valid() && src.At() == t.at && lens == t.lens
    {
      hide StreamOf, Value, Output.Valid, Bits.Valid, Bits.At, SymbolAt, Code.Represents;
      src.AtIsWithin();
      ghost var s, at := src.Stream(), src.At();
      lens := [];
      while |lens| < total
        invariant Valid() && 0 <= src.At() <= |s| && |lens| <= total
        invariant ReadLengths(s, src.At(), codes, lens, total) == ReadLengths(s, at, codes, [], total)
        decreases |s| - src.At()
      {
        var sym, status := Decode(c, src, codes);
        if status == DecodeShort {
          return None, lens;
        }
        if status == DecodeInvalid {
          return Some(Data("invalid code lengths set")), lens;
        }
        if sym < 16 {
          lens := lens + [sym];
          continue;
        }
        if sym == 16 && |lens| == 0 {
          return Some(Data("invalid bit length repeat")), lens;
        }
        var value := if sym == 16 then lens[|lens| - 1] else 0;
        var n, ok := src.Take(if sym == 16 then 2 else if sym == 17 then 3 else 7);
        if !ok {
          return None, lens;
        }
        var repeat := (if sym <= 17 then 3 else 11) + n;
        if |lens| + repeat > total {
          return Some(Data("invalid bit length repeat")), lens;
        }
        var more := Fill(repeat, value);
        lens := lens + more;
      }
      return None, lens;
    }

    /** The two length lists of a dynamic block. */
    method ReadTables(nlen: nat, ndist: nat, ncode: nat) returns (f: Option<Fault>, lens: seq<int>)
      requires Valid() && 0 < ncode <= 19
      modifies src
      ensures 0 <= old(src.At())
      ensures old(src.At()) + 3 * ncode > |src.Stream()| ==> f == None && src.short
      ensures old(src.At()) + 3 * ncode <= |src.Stream()| ==>
        match TableLengths(src.Stream(), old(src.At()) + 3 * ncode, CodeLens(src.Stream(), old(src.At()), ncode),
                nlen + ndist)
        case Stop(x) => f == Some(x)
        case RanOut => f == None && src.short
        case Full => false
        case Go(t) => f == None && Valid() && src.At() == t.at && lens == t.lens
    {
      hide StreamOf, Output.Valid, Bits.Valid, Bits.At, SymbolAt, CodeLens, Accepts, ReadLengths;
      src.AtIsWithin();
      ghost var s, at := src.Stream(), src.At();
      lens := [];
      var codeLens, ok := ReadCodeLens(ncode);
      if !ok {
        return None, lens;
      }
      var codes;
      codes, ok := Build(codeLens, true);
      if !ok {
        return Some(Data("invalid code lengths set")), lens;
      }
      if codes.empty {
        lens := Fill(nlen + ndist, 0);
        return None, lens;
      }
      f, lens := ReadAllLengths(codes, nlen + ndist, codeLens);
    }

    /** How many lengths of each kind a dynamic block has. */
    method ReadCounts() returns (nlen: nat, ndist: nat, ncode: nat, ok: bool)
      requires src.Valid()
      modifies src
      ensures 0 <= old(src.At()) && (ok <==> old(src.At()) + 14 <= |src.Stream()|) && (!ok ==> src.short)
      ensures ok ==>
        var s, at := src.Stream(), old(src.At());
        && src.Valid() && src.At() == at + 14
        && nlen == Num(s, at, 5) + 257 && ndist == Num(s, at + 5, 5) + 1 && ncode == Num(s, at + 10, 4) + 4
    {
      hide StreamOf, Value, Bits.Valid, Bits.At;
      src.AtIsWithin();
      nlen, ndist, ncode := 0, 0, 0;
      nlen, ok := src.Take(5);
      if !ok {
        return;
      }
      ndist, ok := src.Take(5);
      if !ok {
        return;
      }
      ncode, ok := src.Take(4);
      nlen, ndist, ncode := nlen + 257, ndist + 1, ncode + 4;
    }

    /** dynamic: read a block's own tables, then decode it. */
    method DynamicBlock() returns (f: Option<Fault>)
      requires Valid()
      modifies src, dst, dst.window
      ensures Agrees(Dynamic(src.Stream(), old(src.At()), old(dst.out), dst.limit), f)
    {
      hide StreamOf, Value, Output.Valid, Bits.Holds, Bits.At, SymbolAt, CodeLens, Accepts, Block, TableLengths;
      hide Code.Represents;
      src.AtIsWithin();
      ghost var s, at := src.Stream(), src.At();
      var nlen, ndist, ncode, ok := ReadCounts();
      if !ok {
        return None;
      }
      FourBits(s[at + 10..at + 14]);
      if nlen > 286 || ndist > 30 {
        return Some(Data("too many length or distance symbols"));
      }
      var lens;
      f, lens := ReadTables(nlen, ndist, ncode);
      if f.Some? || src.short {
        return f;
      }
      if lens[256] == 0 {
        return Some(Data("invalid code -- missing end-of-block"));
      }
      var lengths, distances;
      lengths, ok := Build(lens[..nlen], false);
      if !ok {
        return Some(Data("invalid literal/lengths set"));
      }
      distances, ok := Build(lens[nlen..], false);
      if !ok {
        return Some(Data("invalid distances set"));
      }
      f := CompressedBlock(Tables(lengths, distances), lens[..nlen], lens[nlen..]);
    }

    /** checksum: the Adler-32 of all the output, most significant byte first. */
    method ReadChecksum() returns (f: Option<Fault>)
      requires Valid()
      modifies src
      ensures Agrees(Checksum(src.Stream(), old(src.At()), dst.out), f)
    {
      hide StreamOf, Value, Output.Valid, Bits.Holds, Bits.At, Adler, BigEndian;
      src.AtIsWithin();
      src.Align();
      var want, ok := ReadFour();
      if !ok {
        return None;
      }
      var sum := dst.Sum();
      if want != sum {
        return Some(Data("incorrect data check"));
      }
      return None;
    }

    /** Four bytes as a number, most significant first. */
    method ReadFour() returns (want: nat, ok: bool)
      requires src.Valid()
      modifies src
      ensures 0 <= old(src.At()) && (ok <==> old(src.At()) + 32 <= |src.Stream()|) && (!ok ==> src.short)
      ensures ok ==> src.Valid() && src.At() == old(src.At()) + 32 && want == BigEndian(src.Stream(), old(src.At()))
    {
      hide StreamOf, Value, Bits.Valid, Bits.At;
      src.AtIsWithin();
      ghost var s, at := src.Stream(), src.At();
      want := 0;
      for n := 0 to 4
        invariant src.Valid() && src.At() == at + 8 * n && at + 8 * n <= |s| && want == BytesAt(s, at, n)
      {
        var c;
        c, ok := src.Take(8);
        if !ok {
          return;
        }
        want := want * 256 + c;
      }
      FourBytes(s, at);
      ok := true;
    }

    /** run: the whole stream, block after block. */
    method Run() returns (f: Option<Fault>)
      requires Valid() && src.At() == 0 && dst.out == []
      modifies src, dst, dst.window
      ensures var r := Inflated(src.Stream(), dst.limit);
              f == if r.Stop? then Some(r.fault) else None
    {
      hide StreamOf, Value, Output.Valid, Bits.Holds, Bits.At, BlockOf, Checksum, Header;
      ghost var s := src.Stream();
      var done;
      f, done := ReadHeader();
      if done {
        return;
      }
      ghost var whole := Blocks(s, src.At(), [], dst.limit);
      while true
        invariant Valid() && 0 <= src.At() && Blocks(s, src.At(), dst.out, dst.limit) == whole
        decreases |s| - src.At()
      {
        src.AtIsWithin();
        var last, ok := src.Take(1);
        if !ok {
          return None;
        }
        var kind;
        kind, ok := src.Take(2);
        if !ok {
          return None;
        }
        f := RunBlock(kind);
        if f.Some? || src.short || dst.full {
          return f;
        }
        if last == 1 {
          f := ReadChecksum();
          return f;
        }
      }
    }

    /** One block of the kind its header names. */
    method RunBlock(kind: nat) returns (f: Option<Fault>)
      requires Valid()
      modifies src, dst, dst.window
      ensures Agrees(BlockOf(src.Stream(), kind, old(src.At()), old(dst.out), dst.limit), f)
    {
      hide StreamOf, Value, Output.Valid, Bits.Valid, Bits.At, Stored, Block, Dynamic;
      src.AtIsWithin();
      match kind {
        case 0 => f := StoredBlock();
        case 1 =>
          var t := FixedLengths();
          f := CompressedBlock(t, FixedLits(), FixedDists());
        case 2 => f := DynamicBlock();
        case _ => return Some(Data("invalid block type"));
      }
    }
  }

  ghost function BytesAt(s: seq<Bit>, a: nat, n: nat): nat
    requires a + 8 * n <= |s|
  {
    if n == 0 then 0 else BytesAt(s, a, n - 1) * 256 + Num(s, a + 8 * (n - 1), 8)
  }

  lemma FourBytes(s: seq<Bit>, a: nat)
    requires a + 32 <= |s|
    ensures BytesAt(s, a, 4) == BigEndian(s, a)
  {
    assert BytesAt(s, a, 2) == BytesAt(s, a, 1) * 256 + Num(s, a + 8, 8);
    assert BytesAt(s, a, 3) == BytesAt(s, a, 2) * 256 + Num(s, a + 16, 8);
  }

  /** Diagnose: the line git prints is the one the bits of the stream call for. */
  method Diagnose(raw: seq<Byte>, maxOut: int) returns (line: string)
    ensures line == InflateMonotone.Diagnosis(raw, maxOut)
  {
    hide Inflated;
    var i := new Inflater(raw, maxOut);
    var f := i.Run();
    match f {
      case None => return "";
      case Some(NeedDict) => return "inflate: needs dictionary (no message)";
      case Some(Data(msg)) => return "inflate: data stream error (" + msg + ")";
    }
  }

  lemma HeaderBytes(src: Bits)
    requires src.Holds() && src.At() == 0 && src.n == 16
    ensures src.hold % 256 == Num(src.Stream(), 0, 8) && src.hold / 256 % 256 == Num(src.Stream(), 8, 8)
  {
    hide Value, StreamOf, Powers.Pow2;
    var t := src.Stream()[0..16];
    Splits(t, 8);
    Powers.Pow2Constants();
    assert t[..8] == src.Stream()[0..8] && t[8..] == src.Stream()[8..16];
    ByteBound(t[8..]);
  }

  /** No distance symbol reaches further back than the window. */
  lemma DistReach(d: nat)
    requires d <= 29
    ensures DistFrom(d) + Powers.Pow2(DistBits(d)) <= WindowSize + 1
  {
  }
}
