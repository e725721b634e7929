/** What an encoder writes, the inflater reads back: a compressed block holds the literals and matches put into it. */
module InflateRoundTrip {
  import opened Bytes
  import opened Powers
  import opened BitReader
  import opened Huffman
  import opened InflateSpec
  import Inflate

  /** A literal byte, or a match given by its symbols and extra bits. */
  datatype Token = Literal(c: Byte) | Back(sym: nat, extra: nat, dsym: nat, dextra: nat)

  /** The token has codes in both alphabets, and reaches no further back than the output goes. */
  ghost predicate Fits(t: Token, lits: seq<int>, dists: seq<int>, total: nat)
  {
    match t
    case Literal(c) => c < |lits| && lits[c] > 0
    case Back(sym, extra, dsym, dextra) =>
      && 257 <= sym <= 285 && sym < |lits| && lits[sym] > 0 && extra < Pow2(LengthBits(sym))
      && dsym <= 29 && dsym < |dists| && dists[dsym] > 0 && dextra < Pow2(DistBits(dsym))
      && DistFrom(dsym) + dextra <= total
  }

  ghost function Coded(t: Token, lits: seq<int>, dists: seq<int>, total: nat): seq<Bit>
    requires Fits(t, lits, dists, total)
  {
    match t
    case Literal(c) => Word(lits, c)
    case Back(sym, extra, dsym, dextra) =>
      Word(lits, sym) + Digits(extra, LengthBits(sym)) + Word(dists, dsym) + Digits(dextra, DistBits(dsym))
  }

  /** What a token adds to an output: byte i of a match is the byte that stands `dist` before it. */
  ghost predicate Extends(out: seq<Byte>, t: Token, out': seq<Byte>)
  {
    match t
    case Literal(c) => out' == out + [c]
    case Back(sym, extra, dsym, dextra) =>
      && 257 <= sym <= 285 && dsym <= 29 && DistFrom(dsym) + dextra <= |out|
      && |out'| == |out| + LengthFrom(sym) + extra && out <= out'
      && forall i | |out| <= i < |out'| :: out'[i] == out'[i - (DistFrom(dsym) + dextra)]
  }

  /** A block's tokens and the outputs after each of them. */
  ghost predicate Expands(tokens: seq<Token>, outs: seq<seq<Byte>>, lits: seq<int>, dists: seq<int>)
  {
    && |outs| == |tokens| + 1
    && forall i | 0 <= i < |tokens| :: Fits(tokens[i], lits, dists, |outs[i]|)
         && Extends(outs[i], tokens[i], outs[i + 1])
  }

  ghost function CodedBlock(tokens: seq<Token>, outs: seq<seq<Byte>>, lits: seq<int>, dists: seq<int>): seq<Bit>
    requires Expands(tokens, outs, lits, dists) && 256 < |lits| && lits[256] > 0
  {
    if tokens == [] then Word(lits, 256)
    else Coded(tokens[0], lits, dists, |outs[0]|) + CodedBlock(tokens[1..], outs[1..], lits, dists)
  }

  /** Copying byte by byte makes the one output in which every copied byte repeats the byte `dist` before it. */
  lemma {:induction false} CopyIs(out: seq<Byte>, dist: nat, length: nat, out': seq<Byte>)
    requires 1 <= dist <= |out| && |out'| == |out| + length && out <= out'
    requires forall i | |out| <= i < |out'| :: out'[i] == out'[i - dist]
    ensures Copy(out, dist, length, -1) == Go(out')
    decreases length
  {
    if length > 0 {
      var next := out + [out[|out| - dist]];
      assert out'[|out|] == out'[|out| - dist] == out[|out| - dist];
      assert next <= out';
      CopyIs(next, dist, length - 1, out');
    } else {
      assert out == out';
    }
  }

  lemma NumOfDigits(before: seq<Bit>, x: nat, n: nat, after: seq<Bit>)
    requires x < Pow2(n)
    ensures Num(before + Digits(x, n) + after, |before|, n) == x
  {
    assert (before + Digits(x, n) + after)[|before|..|before| + n] == Digits(x, n);
    DigitsValue(x, n);
  }

  /** After its length symbol, a match is read back whole. */
  lemma MatchInverts(t: Token, lits: seq<int>, dists: seq<int>, total: nat, before: seq<Bit>, after: seq<Bit>)
    requires t.Back? && Fits(t, lits, dists, total) && Accepts(dists, false) && InRange(dists)
    ensures var coded := Digits(t.extra, LengthBits(t.sym)) + Word(dists, t.dsym) + Digits(t.dextra, DistBits(t.dsym));
            Match(before + coded + after, |before|, total, t.sym, dists)
              == Go(Ref(|before| + |coded|, LengthFrom(t.sym) + t.extra, DistFrom(t.dsym) + t.dextra))
  {
    hide SymbolAt, Num, Word, Digits, LengthBits, DistBits, LengthFrom, DistFrom, Accepts, InRange;
    var x, w, y := Digits(t.extra, LengthBits(t.sym)), Word(dists, t.dsym), Digits(t.dextra, DistBits(t.dsym));
    var s := before + (x + w + y) + after;
    MatchParts(before, x, w, y, after);
    NumOfDigits(before, t.extra, LengthBits(t.sym), w + y + after);
    DecodeInvertsCode(dists, false, t.dsym, before + x, y + after);
    NumOfDigits(before + x + w, t.dextra, DistBits(t.dsym), after);
    MatchFrom(s, |before|, total, t, dists);
  }

  lemma MatchParts(before: seq<Bit>, x: seq<Bit>, w: seq<Bit>, y: seq<Bit>, after: seq<Bit>)
    ensures before + (x + w + y) + after == before + x + (w + y + after)
    ensures before + (x + w + y) + after == (before + x) + w + (y + after)
    ensures before + (x + w + y) + after == (before + x + w) + y + after
  {
  }

  /** A match whose three parts are known. */
  lemma MatchFrom(s: seq<Bit>, p: nat, total: nat, t: Token, dists: seq<int>)
    requires t.Back? && 257 <= t.sym <= 285 && t.dsym <= 29 && t.dsym < |dists| && dists[t.dsym] >= 0
    requires DistFrom(t.dsym) + t.dextra <= total
    requires var q := p + LengthBits(t.sym) + dists[t.dsym];
             && q + DistBits(t.dsym) <= |s| && Num(s, p, LengthBits(t.sym)) == t.extra
             && SymbolAt(dists, s, p + LengthBits(t.sym)) == Symbol(t.dsym, q)
                  && Num(s, q, DistBits(t.dsym)) == t.dextra
    ensures Match(s, p, total, t.sym, dists)
              == Go(Ref(p + LengthBits(t.sym) + dists[t.dsym] + DistBits(t.dsym), LengthFrom(t.sym) + t.extra,
                      DistFrom(t.dsym) + t.dextra))
  {
    hide SymbolAt, Num, LengthBits, DistBits, LengthFrom, DistFrom;
  }

  /** One step of a block over one token. */
  lemma TokenInverts(t: Token, out: seq<Byte>, out': seq<Byte>, lits: seq<int>, dists: seq<int>, before: seq<Bit>,
                     after: seq<Bit>)
    requires Fits(t, lits, dists, |out|) && Extends(out, t, out')
    requires Accepts(lits, false) && InRange(lits) && Accepts(dists, false) && InRange(dists)
    ensures var coded := Coded(t, lits, dists, |out|);
            Block(before + coded + after, |before|, out, -1, lits, dists)
              == Block(before + coded + after, |before| + |coded|, out', -1, lits, dists)
  {
    hide SymbolAt, Match, Copy, Word, Digits, LengthBits, DistBits, LengthFrom, DistFrom, Accepts, InRange;
    var coded := Coded(t, lits, dists, |out|);
    var s := before + coded + after;
    match t
    case Literal(c) => DecodeInvertsCode(lits, false, c, before, after);
    case Back(sym, extra, dsym, dextra) =>
      var w := Word(lits, sym);
      var rest := Digits(extra, LengthBits(sym)) + Word(dists, dsym) + Digits(dextra, DistBits(dsym));
      assert coded == w + rest;
      assert s == before + w + (rest + after);
      DecodeInvertsCode(lits, false, sym, before, rest + after);
      assert s == (before + w) + rest + after;
      MatchInverts(t, lits, dists, |out|, before + w, after);
      CopyIs(out, DistFrom(dsym) + dextra, LengthFrom(sym) + extra, out');
  }

  /** Symbols that name no length are refused. */
  lemma SymbolIsRefused(sym: nat, out: seq<Byte>, limit: int, lits: seq<int>, dists: seq<int>, before: seq<Bit>,
                        after: seq<Bit>)
    requires Accepts(lits, false) && InRange(lits) && 285 < sym < |lits| && lits[sym] > 0
    ensures Block(before + Word(lits, sym) + after, |before|, out, limit, lits, dists)
              == Stop(Data("invalid literal/length code"))
  {
    hide SymbolAt, Word, Accepts, InRange;
    DecodeInvertsCode(lits, false, sym, before, after);
  }

  /** Distance codes that name no distance, and matches that reach back before the output, are refused, each with its
      own fault. */
  lemma MatchIsRefused(sym: nat, extra: nat, dsym: nat, dextra: nat, out: seq<Byte>, limit: int, lits: seq<int>,
                       dists: seq<int>, before: seq<Bit>, after: seq<Bit>)
    requires Accepts(lits, false) && InRange(lits) && Accepts(dists, false) && InRange(dists)
    requires 257 <= sym <= 285 && sym < |lits| && lits[sym] > 0 && extra < Pow2(LengthBits(sym))
    requires dsym < |dists| && dists[dsym] > 0
    requires dsym <= 29 ==> dextra < Pow2(DistBits(dsym)) && DistFrom(dsym) + dextra > |out|
    ensures var rest := Digits(extra, LengthBits(sym)) + Word(dists, dsym)
                        + if dsym <= 29 then Digits(dextra, DistBits(dsym)) else [];
            Block(before + (Word(lits, sym) + rest) + after, |before|, out, limit, lits, dists)
              == Stop(Data(if dsym > 29 then "invalid distance code" else "invalid distance too far back"))
  {
    hide SymbolAt, Match, Copy, Word, Digits, LengthBits, DistBits, LengthFrom, DistFrom, Accepts, InRange;
    var w := Word(lits, sym);
    var rest := Digits(extra, LengthBits(sym)) + Word(dists, dsym)
                + if dsym <= 29 then Digits(dextra, DistBits(dsym)) else [];
    var s := before + (w + rest) + after;
    assert s == before + w + (rest + after) && s == (before + w) + rest + after;
    DecodeInvertsCode(lits, false, sym, before, rest + after);
    DistanceIsRefused(sym, extra, dsym, dextra, |out|, dists, before + w, after);
  }

  lemma DistanceIsRefused(sym: nat, extra: nat, dsym: nat, dextra: nat, total: nat, dists: seq<int>, before: seq<Bit>,
                          after: seq<Bit>)
    requires Accepts(dists, false) && InRange(dists) && 257 <= sym <= 285 && extra < Pow2(LengthBits(sym))
    requires dsym < |dists| && dists[dsym] > 0
    requires dsym <= 29 ==> dextra < Pow2(DistBits(dsym)) && DistFrom(dsym) + dextra > total
    ensures var rest := Digits(extra, LengthBits(sym)) + Word(dists, dsym)
                        + if dsym <= 29 then Digits(dextra, DistBits(dsym)) else [];
            Match(before + rest + after, |before|, total, sym, dists)
              == Stop(Data(if dsym > 29 then "invalid distance code" else "invalid distance too far back"))
  {
    hide SymbolAt, Match, Word, Digits, LengthBits, DistBits, LengthFrom, DistFrom, Accepts, InRange, Num;
    var x, v := Digits(extra, LengthBits(sym)), Word(dists, dsym);
    var y := if dsym <= 29 then Digits(dextra, DistBits(dsym)) else [];
    var s := before + (x + v + y) + after;
    MatchParts(before, x, v, y, after);
    DecodeInvertsCode(dists, false, dsym, before + x, y + after);
    if dsym <= 29 {
      NumOfDigits(before + x + v, dextra, DistBits(dsym), after);
    }
    RefusedFrom(s, |before|, total, sym, dists, dsym, dextra);
  }

  /** A match whose distance is known. */
  lemma RefusedFrom(s: seq<Bit>, p: nat, total: nat, sym: nat, dists: seq<int>, dsym: nat, dextra: nat)
    requires 257 <= sym <= 285 && dsym < |dists| && dists[dsym] > 0
    requires var q := p + LengthBits(sym) + dists[dsym];
             && q <= |s| && SymbolAt(dists, s, p + LengthBits(sym)) == Symbol(dsym, q)
             && (dsym <= 29 ==> q + DistBits(dsym) <= |s| && Num(s, q, DistBits(dsym)) == dextra
                                && DistFrom(dsym) + dextra > total)
    ensures Match(s, p, total, sym, dists)
              == Stop(Data(if dsym > 29 then "invalid distance code" else "invalid distance too far back"))
  {
    hide SymbolAt, Num, LengthBits, DistBits, LengthFrom, DistFrom;
  }

  /** A block of any tokens, written with any codes that are accepted, is read back to the output it stands for, and
      the stream goes on right after it. */
  lemma {:induction false} BlockInverts(tokens: seq<Token>, outs: seq<seq<Byte>>, lits: seq<int>, dists: seq<int>,
                                        before: seq<Bit>, after: seq<Bit>)
    requires Expands(tokens, outs, lits, dists) && 256 < |lits| && lits[256] > 0
    requires Accepts(lits, false) && InRange(lits) && Accepts(dists, false) && InRange(dists)
    ensures var coded := CodedBlock(tokens, outs, lits, dists);
            Block(before + coded + after, |before|, outs[0], -1, lits, dists)
              == Go(Point(|before| + |coded|, outs[|tokens|]))
    decreases |tokens|
  {
    hide SymbolAt, Match, Copy, Word, Coded, Accepts, InRange, Fits, Extends;
    var coded := CodedBlock(tokens, outs, lits, dists);
    if tokens == [] {
      DecodeInvertsCode(lits, false, 256, before, after);
    } else {
      var head := Coded(tokens[0], lits, dists, |outs[0]|);
      var rest := CodedBlock(tokens[1..], outs[1..], lits, dists);
      assert before + coded + after == before + head + (rest + after);
      TokenInverts(tokens[0], outs[0], outs[1], lits, dists, before, rest + after);
      BlockInverts(tokens[1..], outs[1..], lits, dists, before + head, after);
      assert before + coded + after == (before + head) + rest + after;
    }
  }

  lemma FixedHasEnd()
    ensures 256 < |FixedLits()| && FixedLits()[256] > 0
    ensures Accepts(FixedLits(), false) && InRange(FixedLits()) && Accepts(FixedDists(), false) && InRange(FixedDists())
  {
    Inflate.FixedAreComplete();
  }
}
