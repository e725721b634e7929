/** Whole zlib streams: any blocks that an encoder may write, stored, fixed or with tables of their own, are read
    back. */
module InflateStreams {
  import opened Bytes
  import opened Powers
  import opened BitReader
  import opened Huffman
  import opened InflateSpec
  import opened InflateTables
  import opened InflateRoundTrip
  import InflateMonotone

  // ---------- the lengths of the codes of a block ----------

  /** What section 3.2.7 writes code lengths with: one length, the last one again, or a run of zeros. */
  datatype Run = One(l: nat) | Again(n: nat) | Zeros(n: nat) | ManyZeros(n: nat)
  {
    function Symbol(): nat
    {
      match this
      case One(l) => l
      case Again(_) => 16
      case Zeros(_) => 17
      case ManyZeros(_) => 18
    }

    predicate Valid()
    {
      match this
      case One(l) => l < 16
      case Again(n) => 3 <= n <= 6
      case Zeros(n) => 3 <= n <= 10
      case ManyZeros(n) => 11 <= n <= 138
    }

    /** What it adds to the lengths so far. */
    ghost function After(acc: seq<int>): seq<int>
    {
      match this
      case One(l) => acc + [l]
      case Again(n) => acc + Repeated(if acc == [] then 0 else acc[|acc| - 1], n)
      case Zeros(n) => acc + Repeated(0, n)
      case ManyZeros(n) => acc + Repeated(0, n)
    }

    ghost predicate Coded(codes: seq<int>)
    {
      Valid() && Symbol() < |codes| && codes[Symbol()] > 0
    }

    ghost function Extra(): seq<Bit>
      requires Valid()
    {
      match this
      case One(_) => []
      case Again(n) => Digits(n - 3, 2)
      case Zeros(n) => Digits(n - 3, 3)
      case ManyZeros(n) => Digits(n - 11, 7)
    }

    ghost function Bits(codes: seq<int>): (s: seq<Bit>)
      requires Coded(codes)
      ensures s != []
    {
      Word(codes, Symbol()) + Extra()
    }
  }

  ghost function AllAfter(runs: seq<Run>, acc: seq<int>): seq<int>
  {
    if runs == [] then acc else AllAfter(runs[1..], runs[0].After(acc))
  }

  /** The runs have codes, and none repeats a length before there is one. */
  ghost predicate RunsFit(runs: seq<Run>, codes: seq<int>, acc: seq<int>)
  {
    runs != [] ==>
      runs[0].Coded(codes) && (runs[0].Again? ==> acc != []) && RunsFit(runs[1..], codes, runs[0].After(acc))
  }

  ghost function RunsBits(runs: seq<Run>, codes: seq<int>, acc: seq<int>): seq<Bit>
    requires RunsFit(runs, codes, acc)
  {
    if runs == [] then [] else runs[0].Bits(codes) + RunsBits(runs[1..], codes, runs[0].After(acc))
  }

  lemma {:induction false} RunsGrow(runs: seq<Run>, codes: seq<int>, acc: seq<int>)
    requires RunsFit(runs, codes, acc)
    ensures |acc| + |runs| <= |AllAfter(runs, acc)|
    decreases |runs|
  {
    if runs != [] {
      RunsGrow(runs[1..], codes, runs[0].After(acc));
    }
  }

  /** One run is read back, or refused if it goes past the end of the lists or repeats what is not there. */
  lemma RunReads(r: Run, codes: seq<int>, acc: seq<int>, total: nat, before: seq<Bit>, after: seq<Bit>)
    requires r.Coded(codes) && Accepts(codes, true) && InRange(codes) && |codes| == 19 && |acc| < total
    ensures var s := before + r.Bits(codes) + after;
            ReadLengths(s, |before|, codes, acc, total)
              == if (r.Again? && acc == []) || |r.After(acc)| > total then Stop(Data("invalid bit length repeat"))
                 else ReadLengths(s, |before| + |r.Bits(codes)|, codes, r.After(acc), total)
  {
    hide SymbolAt, Num, Word, Digits, Accepts, InRange;
    var w, x := Word(codes, r.Symbol()), r.Extra();
    var s := before + r.Bits(codes) + after;
    assert s == before + w + (x + after) && s == (before + w) + x + after;
    DecodeInvertsCode(codes, true, r.Symbol(), before, x + after);
    SmallPowers();
    match r
    case One(_) =>
    case Again(n) => NumOfDigits(before + w, n - 3, 2, after);
    case Zeros(n) => NumOfDigits(before + w, n - 3, 3, after);
    case ManyZeros(n) => NumOfDigits(before + w, n - 11, 7, after);
  }

  /** Runs that make a whole list of lengths are read back to it. */
  lemma {:induction false} RunsRead(runs: seq<Run>, codes: seq<int>, acc: seq<int>, before: seq<Bit>, after: seq<Bit>)
    requires RunsFit(runs, codes, acc) && Accepts(codes, true) && InRange(codes) && |codes| == 19
    ensures var bits, lens := RunsBits(runs, codes, acc), AllAfter(runs, acc);
            |acc| <= |lens|
            && ReadLengths(before + bits + after, |before|, codes, acc, |lens|) == Go(Lens(|before| + |bits|, lens))
    decreases |runs|
  {
    hide SymbolAt, Num, Word, Digits, Accepts, InRange, Run.Bits, Run.After;
    RunsGrow(runs, codes, acc);
    if runs != [] {
      var head, acc' := runs[0].Bits(codes), runs[0].After(acc);
      var rest, lens := RunsBits(runs[1..], codes, acc'), AllAfter(runs, acc);
      RunsGrow(runs[1..], codes, acc');
      assert before + RunsBits(runs, codes, acc) + after == before + head + (rest + after);
      assert before + RunsBits(runs, codes, acc) + after == (before + head) + rest + after;
      RunReads(runs[0], codes, acc, |lens|, before, rest + after);
      RunsRead(runs[1..], codes, acc', before + head, after);
    }
  }

  // ---------- the tables of a dynamic block ----------

  /** Which symbol's length is the j-th. */
  function Turn(j: nat): (c: nat)
    requires j < 19
    ensures c < 19 && Where(c) == j
  {
    if j < 3 then 16 + j else if j == 3 then 0 else if j % 2 == 0 then 6 + j / 2 else (19 - j) / 2
  }

  ghost function CodeBits(codes: seq<int>, n: nat): (s: seq<Bit>)
    requires |codes| == 19 && n <= 19 && forall c | 0 <= c < 19 :: 0 <= codes[c] < 8
    ensures |s| == 3 * n
  {
    if n == 0 then [] else CodeBits(codes, n - 1) + Digits(codes[Turn(n - 1)], 3)
  }

  lemma {:induction false} CodeBitsAt(codes: seq<int>, n: nat, j: nat)
    requires |codes| == 19 && j < n <= 19 && forall c | 0 <= c < 19 :: 0 <= codes[c] < 8
    ensures CodeBits(codes, n)[3 * j..3 * j + 3] == Digits(codes[Turn(j)], 3)
    decreases n
  {
    if j < n - 1 {
      CodeBitsAt(codes, n - 1, j);
      assert CodeBits(codes, n)[3 * j..3 * j + 3] == CodeBits(codes, n - 1)[3 * j..3 * j + 3];
    }
  }

  /** The three counts, the lengths of the code length codes, and the lengths written with those codes. */
  datatype Tables = Tables(nlen: nat, ndist: nat, ncode: nat, codes: seq<int>, runs: seq<Run>)
  {
    /** The counts fit into their fields, and what is not written of the code length codes is zero. */
    ghost predicate Fields()
    {
      && 257 <= nlen <= 288 && 1 <= ndist <= 32 && 4 <= ncode <= 19
      && |codes| == 19 && (forall c | 0 <= c < 19 :: 0 <= codes[c] < 8 && (Where(c) >= ncode ==> codes[c] == 0))
    }

    ghost function Lens(): seq<int> { AllAfter(runs, []) }

    ghost predicate Full()
    {
      && Fields() && Accepts(codes, true) && !AllZero(codes) && RunsFit(runs, codes, [])
      && |Lens()| == nlen + ndist
    }

    ghost function Front(): (s: seq<Bit>)
      requires Fields()
      ensures |s| == 14 + 3 * ncode
    {
      Digits(nlen - 257, 5) + Digits(ndist - 1, 5) + Digits(ncode - 4, 4) + CodeBits(codes, ncode)
    }

    ghost function Bits(): seq<Bit>
      requires Full()
    {
      Front() + RunsBits(runs, codes, [])
    }
  }

  lemma FrontReads(t: Tables, before: seq<Bit>, after: seq<Bit>)
    requires t.Fields()
    ensures var s, p := before + t.Front() + after, |before|;
            && Num(s, p, 5) == t.nlen - 257 && Num(s, p + 5, 5) == t.ndist - 1 && Num(s, p + 10, 4) == t.ncode - 4
            && CodeLens(s, p + 14, t.ncode) == t.codes
  {
    hide Num, Digits, CodeBits, CodeLens;
    SmallPowers();
    var a, b, c := Digits(t.nlen - 257, 5), Digits(t.ndist - 1, 5), Digits(t.ncode - 4, 4);
    var d := CodeBits(t.codes, t.ncode);
    var s := before + t.Front() + after;
    assert s == before + a + (b + c + d + after) && s == (before + a) + b + (c + d + after);
    assert s == (before + a + b) + c + (d + after) && s == (before + a + b + c) + d + after;
    NumOfDigits(before, t.nlen - 257, 5, b + c + d + after);
    NumOfDigits(before + a, t.ndist - 1, 5, c + d + after);
    NumOfDigits(before + a + b, t.ncode - 4, 4, d + after);
    CodesRead(t, before + a + b + c, after);
  }

  lemma CodesRead(t: Tables, before: seq<Bit>, after: seq<Bit>)
    requires t.Fields()
    ensures CodeLens(before + CodeBits(t.codes, t.ncode) + after, |before|, t.ncode) == t.codes
  {
    hide Digits, CodeBits, CodeLens;
    var bits := CodeBits(t.codes, t.ncode);
    var s := before + bits + after;
    forall c: nat | c < 19
      ensures CodeLens(s, |before|, t.ncode)[c] == t.codes[c]
    {
      CodeLensIs(s, |before|, t.ncode, c);
      var j := Where(c);
      if j < t.ncode {
        CodeBitsAt(t.codes, t.ncode, j);
        TurnBack(c);
        assert s[|before| + 3 * j..|before| + 3 * j + 3] == bits[3 * j..3 * j + 3];
        SmallPowers();
        DigitsValue(t.codes[c], 3);
      }
    }
  }

  lemma TurnBack(c: nat)
    requires c < 19
    ensures Turn(Where(c)) == c
  {
  }

  /** A dynamic block's tables are read back, and the block goes on with them right after, unless there are too many,
      the end of the block has no code, or one of the two codes is not accepted. */
  lemma DynamicReads(t: Tables, out: seq<Byte>, limit: int, before: seq<Bit>, after: seq<Bit>)
    requires t.Full()
    ensures var s, lens := before + t.Bits() + after, t.Lens();
            InflateSpec.Dynamic(s, |before|, out, limit)
              == if t.nlen > 286 || t.ndist > 30 then Stop(Data("too many length or distance symbols"))
                 else if lens[256] == 0 then Stop(Data("invalid code -- missing end-of-block"))
                 else if !Accepts(lens[..t.nlen], false) then Stop(Data("invalid literal/lengths set"))
                 else if !Accepts(lens[t.nlen..], false) then Stop(Data("invalid distances set"))
                 else Block(s, |before| + |t.Bits()|, out, limit, lens[..t.nlen], lens[t.nlen..])
  {
    hide Num, CodeLens, ReadLengths, Block, Accepts, AllZero, RunsBits, RunsFit, Tables.Lens, Tables.Front;
    var bits := RunsBits(t.runs, t.codes, []);
    assert before + t.Bits() + after == before + t.Front() + (bits + after);
    assert before + t.Bits() + after == (before + t.Front()) + bits + after;
    FrontReads(t, before, bits + after);
    CodesInRange(t);
    TablesRead(t, before + t.Front(), after);
  }

  lemma CodesInRange(t: Tables)
    requires t.Fields()
    ensures InRange(t.codes)
  {
  }

  lemma TablesRead(t: Tables, before: seq<Bit>, after: seq<Bit>)
    requires t.Full()
    ensures var bits := RunsBits(t.runs, t.codes, []);
            TableLengths(before + bits + after, |before|, t.codes, t.nlen + t.ndist)
              == Go(InflateSpec.Lens(|before| + |bits|, t.Lens()))
  {
    hide ReadLengths, Accepts, AllZero, RunsBits, RunsFit;
    CodesInRange(t);
    RunsRead(t.runs, t.codes, [], before, after);
  }

  /** Code length codes that are not accepted are refused, and if there are none nothing has a length. */
  lemma DynamicRefuses(t: Tables, out: seq<Byte>, limit: int, before: seq<Bit>, after: seq<Bit>)
    requires t.Fields() && t.nlen <= 286 && t.ndist <= 30 && (!Accepts(t.codes, true) || AllZero(t.codes))
    ensures InflateSpec.Dynamic(before + t.Front() + after, |before|, out, limit)
              == Stop(Data(if Accepts(t.codes, true) then "invalid code -- missing end-of-block"
                           else "invalid code lengths set"))
  {
    hide Num, CodeLens, ReadLengths, Block, Accepts, AllZero, Tables.Front;
    FrontReads(t, before, after);
  }

  // ---------- stored blocks ----------

  ghost function BytesBits(bytes: seq<Byte>): (s: seq<Bit>)
    ensures |s| == 8 * |bytes|
  {
    if bytes == [] then [] else Digits(bytes[0], 8) + BytesBits(bytes[1..])
  }

  lemma {:induction false} BytesRead(bytes: seq<Byte>, out: seq<Byte>, before: seq<Bit>, after: seq<Bit>)
    ensures StoredBytes(before + BytesBits(bytes) + after, |before|, |bytes|, out, -1)
              == Go(Point(|before| + 8 * |bytes|, out + bytes))
    decreases |bytes|
  {
    hide Digits, Num;
    if bytes != [] {
      var head, rest := Digits(bytes[0], 8), BytesBits(bytes[1..]);
      var s := before + BytesBits(bytes) + after;
      assert s == before + head + (rest + after) && s == (before + head) + rest + after;
      Pow2Constants();
      NumOfDigits(before, bytes[0], 8, rest + after);
      BytesRead(bytes[1..], out + [bytes[0]], before + head, after);
      assert out + [bytes[0]] + bytes[1..] == out + bytes;
    } else {
      assert out + bytes == out;
    }
  }

  /** The bits of a stored block: to the end of the byte, the number of bytes, its complement, and the bytes. */
  ghost function StoredBits(pad: seq<Bit>, len: nat, inverse: nat, bytes: seq<Byte>): seq<Bit>
  {
    pad + Digits(len, 16) + Digits(inverse, 16) + BytesBits(bytes)
  }

  /** A stored block is read back exactly when its two counts are each other's complement. */
  lemma StoredReads(pad: seq<Bit>, len: nat, inverse: nat, bytes: seq<Byte>, out: seq<Byte>, before: seq<Bit>,
                    after: seq<Bit>)
    requires |pad| == Aligned(|before|) - |before| && len < 65536 && inverse < 65536 && |bytes| == len
    ensures var bits := StoredBits(pad, len, inverse, bytes);
            Stored(before + bits + after, |before|, out, -1)
              == if len + inverse == 65535 then Go(Point(|before| + |bits|, out + bytes))
                 else Stop(Data("invalid stored block lengths"))
  {
    hide Digits, Num, StoredBytes, BytesBits;
    var a, b, c := Digits(len, 16), Digits(inverse, 16), BytesBits(bytes);
    var s := before + StoredBits(pad, len, inverse, bytes) + after;
    assert s == (before + pad) + a + (b + c + after) && s == (before + pad + a) + b + (c + after);
    assert s == (before + pad + a + b) + c + after;
    Pow2Constants();
    NumOfDigits(before + pad, len, 16, b + c + after);
    NumOfDigits(before + pad + a, inverse, 16, c + after);
    BytesRead(bytes, out, before + pad + a + b, after);
  }

  // ---------- blocks of any kind ----------

  datatype Piece =
    | Plain(pad: seq<Bit>, bytes: seq<Byte>)
    | Fixed(tokens: seq<Token>, outs: seq<seq<Byte>>)
    | Own(t: Tables, tokens: seq<Token>, outs: seq<seq<Byte>>)
  {
    function Kind(): nat
    {
      match this
      case Plain(_, _) => 0
      case Fixed(_, _) => 1
      case Own(_, _, _) => 2
    }

    /** It can be written at this place, when this much has been put out. */
    ghost predicate Writable(at: nat, out: seq<Byte>)
    {
      match this
      case Plain(pad, bytes) => |pad| == Aligned(at) - at && |bytes| < 65536
      case Fixed(tokens, outs) => Expands(tokens, outs, FixedLits(), FixedDists()) && outs[0] == out
      case Own(t, tokens, outs) =>
        && t.Full() && t.nlen <= 286 && t.ndist <= 30
        && var lits, dists := t.Lens()[..t.nlen], t.Lens()[t.nlen..];
           && Accepts(lits, false) && Accepts(dists, false) && lits[256] > 0
           && Expands(tokens, outs, lits, dists) && outs[0] == out
    }

    ghost function Out(out: seq<Byte>): seq<Byte>
    {
      if Plain? then out + bytes else if outs == [] then out else outs[|outs| - 1]
    }

    ghost function Bits(at: nat, out: seq<Byte>): seq<Bit>
    {
      if Writable(at, out) then BitsOf(at, out) else []
    }

    ghost function BitsOf(at: nat, out: seq<Byte>): seq<Bit>
      requires Writable(at, out)
    {
      match this
      case Plain(pad, bytes) => StoredBits(pad, |bytes|, 65535 - |bytes|, bytes)
      case Fixed(tokens, outs) =>
        FixedHasEnd();
        CodedBlock(tokens, outs, FixedLits(), FixedDists())
      case Own(t, tokens, outs) => t.Bits() + CodedBlock(tokens, outs, t.Lens()[..t.nlen], t.Lens()[t.nlen..])
    }
  }

  lemma OwnReads(pc: Piece, out: seq<Byte>, before: seq<Bit>, after: seq<Bit>)
    requires pc.Own? && pc.Writable(|before|, out)
    ensures InflateSpec.Dynamic(before + pc.Bits(|before|, out) + after, |before|, out, -1)
              == Go(Point(|before| + |pc.Bits(|before|, out)|, pc.Out(out)))
  {
    hide InflateSpec.Dynamic, Block, CodedBlock, Expands, Accepts, Tables.Bits, Tables.Lens;
    var t := pc.t;
    var lits, dists := t.Lens()[..t.nlen], t.Lens()[t.nlen..];
    var block := CodedBlock(pc.tokens, pc.outs, lits, dists);
    assert before + pc.Bits(|before|, out) + after == before + t.Bits() + (block + after);
    assert before + pc.Bits(|before|, out) + after == (before + t.Bits()) + block + after;
    InflateMonotone.AcceptedInRange(lits, false);
    InflateMonotone.AcceptedInRange(dists, false);
    OutsAre(pc.tokens, pc.outs, lits, dists);
    DynamicReads(t, out, -1, before, block + after);
    BlockInverts(pc.tokens, pc.outs, lits, dists, before + t.Bits(), after);
  }

  /** A block of any kind is read back. */
  lemma PieceReads(pc: Piece, out: seq<Byte>, before: seq<Bit>, after: seq<Bit>)
    requires pc.Writable(|before|, out)
    ensures BlockOf(before + pc.Bits(|before|, out) + after, pc.Kind(), |before|, out, -1)
              == Go(Point(|before| + |pc.Bits(|before|, out)|, pc.Out(out)))
  {
    hide InflateSpec.Dynamic, Block, Stored, CodedBlock, StoredBits, FixedLits, FixedDists, Accepts, InRange;
    hide Tables.Bits;
    match pc
    case Plain(pad, bytes) => StoredReads(pad, |bytes|, 65535 - |bytes|, bytes, out, before, after);
    case Fixed(tokens, outs) =>
      FixedHasEnd();
      BlockInverts(tokens, outs, FixedLits(), FixedDists(), before, after);
      OutsAre(tokens, outs, FixedLits(), FixedDists());
    case Own(t, tokens, outs) =>
      OwnReads(pc, out, before, after);
  }

  lemma OutsAre(tokens: seq<Token>, outs: seq<seq<Byte>>, lits: seq<int>, dists: seq<int>)
    requires Expands(tokens, outs, lits, dists)
    ensures |outs| == |tokens| + 1
  {
  }

  // ---------- whole streams ----------

  /** Blocks one after another, each written where the last one ended. */
  ghost predicate AllWritable(pieces: seq<Piece>, at: nat, out: seq<Byte>)
  {
    pieces != [] ==>
      && pieces[0].Writable(at + 3, out)
      && AllWritable(pieces[1..], at + 3 + |pieces[0].Bits(at + 3, out)|, pieces[0].Out(out))
  }

  /** Each with its last-block bit and its kind before it. */
  ghost function AllBits(pieces: seq<Piece>, at: nat, out: seq<Byte>): seq<Bit>
  {
    if pieces == [] then []
    else
      var bits := pieces[0].Bits(at + 3, out);
      Digits(if |pieces| == 1 then 1 else 0, 1) + Digits(pieces[0].Kind(), 2) + bits
      + AllBits(pieces[1..], at + 3 + |bits|, pieces[0].Out(out))
  }

  ghost function AllOut(pieces: seq<Piece>, at: nat, out: seq<Byte>): seq<Byte>
  {
    if pieces == [] then out
    else AllOut(pieces[1..], at + 3 + |pieces[0].Bits(at + 3, out)|, pieces[0].Out(out))
  }

  /** Blocks are read one after another up to the last, whose output the checksum is then held against. */
  lemma {:induction false} PiecesRead(pieces: seq<Piece>, out: seq<Byte>, before: seq<Bit>, after: seq<Bit>)
    requires pieces != [] && AllWritable(pieces, |before|, out)
    ensures var bits := AllBits(pieces, |before|, out);
            var s := before + bits + after;
            Blocks(s, |before|, out, -1) == Checksum(s, |before| + |bits|, AllOut(pieces, |before|, out))
    decreases |pieces|
  {
    hide BlockOf, Checksum, Digits, Num, Piece.Bits, Piece.Writable, Piece.Out;
    var at := |before|;
    var last := if |pieces| == 1 then 1 else 0;
    var a, b, c := Digits(last, 1), Digits(pieces[0].Kind(), 2), pieces[0].Bits(at + 3, out);
    var rest := AllBits(pieces[1..], at + 3 + |c|, pieces[0].Out(out));
    var s := before + AllBits(pieces, at, out) + after;
    assert s == before + a + b + c + (rest + after) && s == (before + a + b + c) + rest + after;
    PieceStarts(before, last, pieces[0], out, rest + after);
    if |pieces| > 1 {
      PiecesRead(pieces[1..], pieces[0].Out(out), before + a + b + c, after);
    } else {
      assert pieces[1..] == [];
    }
  }

  /** A block and the three bits before it. */
  lemma PieceStarts(before: seq<Bit>, last: nat, pc: Piece, out: seq<Byte>, after: seq<Bit>)
    requires last < 2 && pc.Writable(|before| + 3, out)
    ensures var s := before + Digits(last, 1) + Digits(pc.Kind(), 2) + pc.Bits(|before| + 3, out) + after;
            && Num(s, |before|, 1) == last && Num(s, |before| + 1, 2) == pc.Kind()
            && BlockOf(s, pc.Kind(), |before| + 3, out, -1)
                 == Go(Point(|before| + 3 + |pc.Bits(|before| + 3, out)|, pc.Out(out)))
  {
    hide BlockOf, Digits, Num, Piece.Bits, Piece.Writable, Piece.Out;
    SmallPowers();
    var a, b, c := Digits(last, 1), Digits(pc.Kind(), 2), pc.Bits(|before| + 3, out);
    var s := before + a + b + c + after;
    assert s == before + a + (b + c + after) && s == (before + a) + b + (c + after);
    assert s == (before + a + b) + c + after;
    NumOfDigits(before, last, 1, b + c + after);
    NumOfDigits(before + a, pc.Kind(), 2, c + after);
    PieceReads(pc, out, before + a + b, after);
  }

  /** There is no fourth kind of block. */
  lemma FourthKind(last: nat, out: seq<Byte>, limit: int, before: seq<Bit>, after: seq<Bit>)
    requires last < 2
    ensures Blocks(before + (Digits(last, 1) + Digits(3, 2)) + after, |before|, out, limit)
              == Stop(Data("invalid block type"))
  {
    hide Num, Digits;
    SmallPowers();
    var a, b := Digits(last, 1), Digits(3, 2);
    var s := before + (a + b) + after;
    assert s == before + a + (b + after) && s == (before + a) + b + after;
    NumOfDigits(before, last, 1, b + after);
    NumOfDigits(before + a, 3, 2, after);
  }

  /** A header that is accepted: the method, a window of at most 32K, the check and the level. */
  ghost predicate GoodHead(cinfo: nat, fcheck: nat, flevel: nat)
  {
    cinfo < 8 && fcheck < 32 && flevel < 4 && (256 * (8 + 16 * cinfo) + fcheck + 64 * flevel) % 31 == 0
  }

  ghost function Head(cinfo: nat, fcheck: nat, flevel: nat): (s: seq<Bit>)
    ensures |s| == 16
  {
    HeadBits(8, cinfo, fcheck, 0, flevel)
  }

  ghost function SumBits(sum: seq<Byte>): (s: seq<Bit>)
    requires |sum| == 4
    ensures |s| == 32
  {
    Digits(sum[0], 8) + Digits(sum[1], 8) + Digits(sum[2], 8) + Digits(sum[3], 8)
  }

  ghost function Read32(sum: seq<Byte>): int
    requires |sum| == 4
  {
    var a: int, b: int, c: int, d: int := sum[0], sum[1], sum[2], sum[3];
    ((a * 256 + b) * 256 + c) * 256 + d
  }

  lemma FiveParts(before: seq<Bit>, a: seq<Bit>, b: seq<Bit>, c: seq<Bit>, d: seq<Bit>)
    ensures var s := before + (a + b + c + d);
            && s == before + a + (b + c + d) && s == (before + a) + b + (c + d)
            && s == (before + a + b) + c + d && s == (before + a + b + c) + d + []
  {
  }

  lemma SumReads(before: seq<Bit>, sum: seq<Byte>)
    requires |sum| == 4
    ensures BigEndian(before + SumBits(sum), |before|) == Read32(sum)
  {
    hide Digits, Num;
    var a, b, c, d := Digits(sum[0], 8), Digits(sum[1], 8), Digits(sum[2], 8), Digits(sum[3], 8);
    var s := before + SumBits(sum);
    Pow2Constants();
    FiveParts(before, a, b, c, d);
    NumOfDigits(before, sum[0], 8, b + c + d);
    NumOfDigits(before + a, sum[1], 8, c + d);
    NumOfDigits(before + a + b, sum[2], 8, d);
    NumOfDigits(before + a + b + c, sum[3], 8, []);
  }

  /** A zlib stream of blocks of any kinds, padded to a byte, with a checksum. */
  ghost function ZlibStream(head: seq<Bit>, pieces: seq<Piece>, pad: seq<Bit>, sum: seq<Byte>): seq<Bit>
    requires |sum| == 4
  {
    head + AllBits(pieces, |head|, []) + (pad + SumBits(sum))
  }

  /** A stream of any blocks is read to its end, and blamed exactly when its checksum is not that of the output. */
  lemma StreamInverts(cinfo: nat, fcheck: nat, flevel: nat, pieces: seq<Piece>, pad: seq<Bit>, sum: seq<Byte>)
    requires GoodHead(cinfo, fcheck, flevel) && pieces != [] && AllWritable(pieces, 16, []) && |sum| == 4
    requires var end := 16 + |AllBits(pieces, 16, [])|; |pad| == Aligned(end) - end
    ensures var s := ZlibStream(Head(cinfo, fcheck, flevel), pieces, pad, sum);
            var out := AllOut(pieces, 16, []);
            Inflated(s, -1) == if Read32(sum) == Adler(out) then Go(Point(|s|, out))
                               else Stop(Data("incorrect data check"))
  {
    hide AllBits, AllOut, AllWritable, SumBits, Header, BigEndian, Adler, Read32, Blocks, Digits, Num;
    var bits := AllBits(pieces, 16, []);
    var head := Head(cinfo, fcheck, flevel);
    var s := ZlibStream(head, pieces, pad, sum);
    assert s == head + bits + (pad + SumBits(sum)) && s == head + (bits + (pad + SumBits(sum)));
    assert s == (head + bits + pad) + SumBits(sum);
    HeadReads(cinfo, fcheck, flevel, bits + (pad + SumBits(sum)));
    PiecesRead(pieces, [], head, pad + SumBits(sum));
    SumReads(head + bits + pad, sum);
    hide *;
    StreamEnds(s, head + bits + pad, sum, 16 + |bits|, AllOut(pieces, 16, []));
  }

  lemma HeadReads(cinfo: nat, fcheck: nat, flevel: nat, rest: seq<Bit>)
    requires GoodHead(cinfo, fcheck, flevel)
    ensures Header(Head(cinfo, fcheck, flevel) + rest) == Go(16)
  {
    hide Header, HeadBits;
    HeaderFields(8, cinfo, fcheck, 0, flevel, rest);
  }

  lemma StreamEnds(s: seq<Bit>, front: seq<Bit>, sum: seq<Byte>, end: nat, out: seq<Byte>)
    requires |sum| == 4 && s == front + SumBits(sum) && |front| == Aligned(end)
    requires Header(s) == Go(16) && Blocks(s, 16, [], -1) == Checksum(s, end, out)
    requires BigEndian(s, |front|) == Read32(sum)
    ensures Inflated(s, -1) == if Read32(sum) == Adler(out) then Go(Point(|s|, out))
                               else Stop(Data("incorrect data check"))
  {
    hide SumBits, Header, BigEndian, Adler, Read32, Blocks;
  }

  /** A stream that wants a dictionary gets the one message that names no data error, whatever follows its header. */
  lemma DictionaryIsNamed(data: seq<Byte>, cinfo: nat, fcheck: nat, flevel: nat, rest: seq<Bit>, limit: int)
    requires cinfo < 8 && fcheck < 32 && flevel < 4 && (256 * (8 + 16 * cinfo) + fcheck + 32 + 64 * flevel) % 31 == 0
    requires StreamOf(data) == HeadBits(8, cinfo, fcheck, 1, flevel) + rest
    ensures InflateMonotone.Diagnosis(data, limit) == "inflate: needs dictionary (no message)"
  {
    hide HeadBits, Header, StreamOf;
    HeaderFields(8, cinfo, fcheck, 1, flevel, rest);
  }

  /** What is said of the bytes of such a stream: nothing, or that its checksum is wrong. */
  lemma StreamIsDiagnosed(data: seq<Byte>, cinfo: nat, fcheck: nat, flevel: nat, pieces: seq<Piece>, pad: seq<Bit>,
                          sum: seq<Byte>)
    requires GoodHead(cinfo, fcheck, flevel) && pieces != [] && AllWritable(pieces, 16, []) && |sum| == 4
    requires var end := 16 + |AllBits(pieces, 16, [])|; |pad| == Aligned(end) - end
    requires StreamOf(data) == ZlibStream(Head(cinfo, fcheck, flevel), pieces, pad, sum)
    ensures InflateMonotone.Diagnosis(data, -1)
              == if Read32(sum) == Adler(AllOut(pieces, 16, [])) then ""
                 else "inflate: data stream error (incorrect data check)"
  {
    hide AllBits, AllOut, AllWritable, ZlibStream, Adler, Read32, Inflated, StreamOf;
    StreamInverts(cinfo, fcheck, flevel, pieces, pad, sum);
  }
}
