/** A truncated stream, or less room for the output, never changes a diagnosis: it can only lose it. */
module InflateMonotone {
  import opened Bytes
  import opened BitReader
  import opened Huffman
  import opened InflateSpec

  /** The shorter run stopped early, or says the same. */
  ghost predicate Keeps<T>(small: Res<T>, big: Res<T>)
  {
    small.RanOut? || small.Full? || small == big
  }

  /** At most as much room; a negative limit is no limit. */
  ghost predicate Tighter(limit': int, limit: int)
  {
    limit < 0 || 0 <= limit' <= limit
  }

  lemma NumPrefix(s: seq<Bit>, k: nat, p: nat, n: nat)
    requires p + n <= k <= |s|
    ensures Num(s[..k], p, n) == Num(s, p, n)
  {
    assert s[..k][p..p + n] == s[p..p + n];
  }

  lemma SpellsPrefix(lens: seq<int>, s: seq<Bit>, k: nat, p: nat, sym: nat)
    requires k <= |s|
    ensures Spells(lens, s[..k], p, sym) <==> Spells(lens, s, p, sym) && p + lens[sym] <= k
  {
    if sym < |lens| && 0 < lens[sym] && p + lens[sym] <= k {
      assert s[..k][p..p + lens[sym]] == s[p..p + lens[sym]];
    }
  }

  /** A shorter stream holds the same symbol, or does not hold enough of it. */
  lemma SymbolPrefix(lens: seq<int>, s: seq<Bit>, k: nat, p: nat)
    requires k <= |s| && InRange(lens)
    ensures SymbolAt(lens, s[..k], p) == Short || SymbolAt(lens, s[..k], p) == SymbolAt(lens, s, p)
  {
    forall sym: nat
      ensures Spells(lens, s[..k], p, sym) <==> Spells(lens, s, p, sym) && p + lens[sym] <= k
    {
      SpellsPrefix(lens, s, k, p, sym);
    }
    if sym: nat :| Spells(lens, s[..k], p, sym) {
      SymbolIs(lens, s[..k], p, sym);
      SymbolIs(lens, s, p, sym);
    }
  }

  lemma {:induction false} CopyKeeps(out: seq<Byte>, dist: nat, length: nat, limit': int, limit: int)
    requires 1 <= dist <= |out| && Tighter(limit', limit)
    ensures Keeps(Copy(out, dist, length, limit'), Copy(out, dist, length, limit))
    decreases length
  {
    if length > 0 {
      CopyKeeps(out + [out[|out| - dist]], dist, length - 1, limit', limit);
    }
  }

  lemma MatchKeeps(s: seq<Bit>, k: nat, p: nat, total: nat, sym: nat, dists: seq<int>)
    requires k <= |s| && 257 <= sym <= 285 && InRange(dists)
    ensures Keeps(Match(s[..k], p, total, sym, dists), Match(s, p, total, sym, dists))
  {
    hide SymbolAt, Num, LengthBits, DistBits, DistFrom, LengthFrom;
    var e := LengthBits(sym);
    if p + e <= k {
      NumPrefix(s, k, p, e);
      SymbolPrefix(dists, s, k, p + e);
      var d := SymbolAt(dists, s[..k], p + e);
      if d.Symbol? && d.sym <= 29 && d.next + DistBits(d.sym) <= k {
        NumPrefix(s, k, d.next, DistBits(d.sym));
      }
    }
  }

  lemma {:induction false} BlockKeeps(s: seq<Bit>, k: nat, p: nat, out: seq<Byte>, limit': int, limit: int,
                                      lits: seq<int>, dists: seq<int>)
    requires k <= |s| && Tighter(limit', limit) && InRange(lits) && InRange(dists)
    ensures Keeps(Block(s[..k], p, out, limit', lits, dists), Block(s, p, out, limit, lits, dists))
    decreases k - p
  {
    hide SymbolAt, Match, Copy;
    SymbolPrefix(lits, s, k, p);
    var d := SymbolAt(lits, s[..k], p);
    if d.Symbol? {
      if d.sym < 256 {
        if Room(limit', |out|) {
          BlockKeeps(s, k, d.next, out + [d.sym], limit', limit, lits, dists);
        }
      } else if 256 < d.sym <= 285 {
        MatchKeeps(s, k, d.next, |out|, d.sym, dists);
        var m := Match(s[..k], d.next, |out|, d.sym, dists);
        if m.Go? {
          CopyKeeps(out, m.value.dist, m.value.length, limit', limit);
          var c := Copy(out, m.value.dist, m.value.length, limit');
          if c.Go? {
            BlockKeeps(s, k, m.value.at, c.value, limit', limit, lits, dists);
          }
        }
      }
    }
  }

  lemma {:induction false} StoredBytesKeeps(s: seq<Bit>, k: nat, p: nat, n: nat, out: seq<Byte>, limit': int,
                                            limit: int)
    requires p <= k <= |s| && Tighter(limit', limit)
    ensures Keeps(StoredBytes(s[..k], p, n, out, limit'), StoredBytes(s, p, n, out, limit))
    decreases n
  {
    if n > 0 && p + 8 <= k {
      NumPrefix(s, k, p, 8);
      StoredBytesKeeps(s, k, p + 8, n - 1, out + [ByteAt(s, p)], limit', limit);
    }
  }

  lemma StoredKeeps(s: seq<Bit>, k: nat, p: nat, out: seq<Byte>, limit': int, limit: int)
    requires k <= |s| && Tighter(limit', limit)
    ensures Keeps(Stored(s[..k], p, out, limit'), Stored(s, p, out, limit))
  {
    var a := Aligned(p);
    if a + 32 <= k {
      NumPrefix(s, k, a, 16);
      NumPrefix(s, k, a + 16, 16);
      StoredBytesKeeps(s, k, a + 32, Num(s, a, 16), out, limit', limit);
    }
  }

  lemma {:induction false} CodeLensKeeps(s: seq<Bit>, k: nat, p: nat, n: nat)
    requires n <= 19 && p + 3 * n <= k <= |s|
    ensures CodeLens(s[..k], p, n) == CodeLens(s, p, n)
    decreases n
  {
    if n > 0 {
      CodeLensKeeps(s, k, p, n - 1);
      NumPrefix(s, k, p + 3 * (n - 1), 3);
    }
  }

  lemma {:induction false} ReadLengthsKeeps(s: seq<Bit>, k: nat, p: nat, codes: seq<int>, acc: seq<int>, total: nat)
    requires p <= k <= |s| && |acc| <= total && InRange(codes)
    ensures Keeps(ReadLengths(s[..k], p, codes, acc, total), ReadLengths(s, p, codes, acc, total))
    decreases k - p
  {
    hide SymbolAt;
    SymbolPrefix(codes, s, k, p);
    var d := SymbolAt(codes, s[..k], p);
    if |acc| < total && d.Symbol? {
      var n := RepeatBits(d.sym);
      if d.sym < 16 {
        ReadLengthsKeeps(s, k, d.next, codes, acc + [d.sym], total);
      } else if d.next + n <= k && (d.sym != 16 || |acc| > 0) {
        NumPrefix(s, k, d.next, n);
        var value := if d.sym == 16 then acc[|acc| - 1] else 0;
        var repeat := (if d.sym <= 17 then 3 else 11) + Num(s, d.next, n);
        if |acc| + repeat <= total {
          ReadLengthsKeeps(s, k, d.next + n, codes, acc + Repeated(value, repeat), total);
        }
      }
    }
  }

  lemma AcceptedInRange(lens: seq<int>, codeLengths: bool)
    requires Accepts(lens, codeLengths)
    ensures InRange(lens)
  {
  }

  lemma TableLengthsKeeps(s: seq<Bit>, k: nat, p: nat, codes: seq<int>, total: nat)
    requires p <= k <= |s|
    ensures Keeps(TableLengths(s[..k], p, codes, total), TableLengths(s, p, codes, total))
  {
    if Accepts(codes, true) {
      AcceptedInRange(codes, true);
      ReadLengthsKeeps(s, k, p, codes, [], total);
    }
  }

  lemma DynamicKeeps(s: seq<Bit>, k: nat, p: nat, out: seq<Byte>, limit': int, limit: int)
    requires k <= |s| && Tighter(limit', limit)
    ensures Keeps(Dynamic(s[..k], p, out, limit'), Dynamic(s, p, out, limit))
  {
    hide TableLengths, Accepts, Block, CodeLens;
    if p + 14 <= k {
      NumPrefix(s, k, p, 5);
      NumPrefix(s, k, p + 5, 5);
      NumPrefix(s, k, p + 10, 4);
      var nlen, ndist, ncode := Num(s, p, 5) + 257, Num(s, p + 5, 5) + 1, Num(s, p + 10, 4) + 4;
      if p + 14 + 3 * ncode <= k {
        FourBits(s[p + 10..p + 14]);
        CodeLensKeeps(s, k, p + 14, ncode);
        var codes := CodeLens(s, p + 14, ncode);
        TableLengthsKeeps(s, k, p + 14 + 3 * ncode, codes, nlen + ndist);
        var t := TableLengths(s[..k], p + 14 + 3 * ncode, codes, nlen + ndist);
        if t.Go? && Accepts(t.value.lens[..nlen], false) && Accepts(t.value.lens[nlen..], false) {
          AcceptedInRange(t.value.lens[..nlen], false);
          AcceptedInRange(t.value.lens[nlen..], false);
          BlockKeeps(s, k, t.value.at, out, limit', limit, t.value.lens[..nlen], t.value.lens[nlen..]);
        }
      }
    }
  }

  lemma ChecksumKeeps(s: seq<Bit>, k: nat, p: nat, out: seq<Byte>)
    requires k <= |s|
    ensures Keeps(Checksum(s[..k], p, out), Checksum(s, p, out))
  {
    var a := Aligned(p);
    if a + 32 <= k {
      NumPrefix(s, k, a, 8);
      NumPrefix(s, k, a + 8, 8);
      NumPrefix(s, k, a + 16, 8);
      NumPrefix(s, k, a + 24, 8);
    }
  }

  lemma BlockOfKeeps(s: seq<Bit>, k: nat, kind: nat, p: nat, out: seq<Byte>, limit': int, limit: int)
    requires k <= |s| && Tighter(limit', limit)
    ensures Keeps(BlockOf(s[..k], kind, p, out, limit'), BlockOf(s, kind, p, out, limit))
  {
    hide Stored, Dynamic, Block;
    StoredKeeps(s, k, p, out, limit', limit);
    BlockKeeps(s, k, p, out, limit', limit, FixedLits(), FixedDists());
    DynamicKeeps(s, k, p, out, limit', limit);
  }

  lemma {:induction false} BlocksKeeps(s: seq<Bit>, k: nat, p: nat, out: seq<Byte>, limit': int, limit: int)
    requires k <= |s| && Tighter(limit', limit)
    ensures Keeps(Blocks(s[..k], p, out, limit'), Blocks(s, p, out, limit))
    decreases k - p
  {
    hide BlockOf, Checksum;
    if p + 3 <= k {
      NumPrefix(s, k, p, 1);
      NumPrefix(s, k, p + 1, 2);
      var kind := Num(s, p + 1, 2);
      BlockOfKeeps(s, k, kind, p + 3, out, limit', limit);
      var b := BlockOf(s[..k], kind, p + 3, out, limit');
      if b.Go? {
        if Num(s, p, 1) == 1 {
          ChecksumKeeps(s, k, b.value.at, b.value.out);
        } else {
          BlocksKeeps(s, k, b.value.at, b.value.out, limit', limit);
        }
      }
    }
  }

  /** A run over any beginning of a stream, with at most as much room, stops early or ends the same way. */
  lemma InflatedKeeps(s: seq<Bit>, k: nat, limit': int, limit: int)
    requires k <= |s| && Tighter(limit', limit)
    ensures Keeps(Inflated(s[..k], limit'), Inflated(s, limit))
  {
    hide Blocks;
    if 16 <= k {
      NumPrefix(s, k, 0, 8);
      NumPrefix(s, k, 8, 8);
      BlocksKeeps(s, k, 16, [], limit', limit);
    }
  }

  // ---------- how much room is enough ----------

  lemma {:induction false} CopyRoom(out: seq<Byte>, dist: nat, length: nat, limit: nat)
    requires 1 <= dist <= |out| <= limit
    ensures var r := Copy(out, dist, length, -1);
            && r.Go? && |r.value| == |out| + length
            && Copy(out, dist, length, limit) == if |r.value| <= limit then r else Full
    decreases length
  {
    if length > 0 {
      var next := out + [out[|out| - dist]];
      if |next| <= limit {
        CopyRoom(next, dist, length - 1, limit);
      } else {
        CopyLength(next, dist, length - 1);
      }
    }
  }

  lemma {:induction false} CopyLength(out: seq<Byte>, dist: nat, length: nat)
    requires 1 <= dist <= |out|
    ensures var r := Copy(out, dist, length, -1); r.Go? && |r.value| == |out| + length
    decreases length
  {
    if length > 0 {
      CopyLength(out + [out[|out| - dist]], dist, length - 1);
    }
  }

  lemma {:induction false} StoredRoom(s: seq<Bit>, p: nat, n: nat, out: seq<Byte>, limit: nat)
    requires p <= |s| && |out| <= limit && StoredBytes(s, p, n, out, -1).Go?
    ensures var r := StoredBytes(s, p, n, out, -1);
            && |out| <= |r.value.out|
            && StoredBytes(s, p, n, out, limit) == if |r.value.out| <= limit then r else Full
    decreases n
  {
    if n > 0 {
      var next := out + [ByteAt(s, p)];
      if |next| <= limit {
        StoredRoom(s, p + 8, n - 1, next, limit);
      } else {
        StoredLength(s, p + 8, n - 1, next);
      }
    }
  }

  lemma {:induction false} StoredLength(s: seq<Bit>, p: nat, n: nat, out: seq<Byte>)
    requires p <= |s| && StoredBytes(s, p, n, out, -1).Go?
    ensures |out| <= |StoredBytes(s, p, n, out, -1).value.out|
    decreases n
  {
    if n > 0 {
      StoredLength(s, p + 8, n - 1, out + [ByteAt(s, p)]);
    }
  }

  lemma {:induction false} BlockRoom(s: seq<Bit>, p: nat, out: seq<Byte>, limit: nat, lits: seq<int>, dists: seq<int>)
    requires Block(s, p, out, -1, lits, dists).Go?
    ensures var r := Block(s, p, out, -1, lits, dists);
            && |out| <= |r.value.out|
            && (|out| <= limit ==> Block(s, p, out, limit, lits, dists) == if |r.value.out| <= limit then r else Full)
    decreases |s| - p
  {
    hide SymbolAt, Match, Copy;
    var d := SymbolAt(lits, s, p);
    if d.sym < 256 {
      BlockRoom(s, d.next, out + [d.sym], limit, lits, dists);
    } else if d.sym > 256 {
      var m := Match(s, d.next, |out|, d.sym, dists).value;
      CopyLength(out, m.dist, m.length);
      if |out| <= limit {
        CopyRoom(out, m.dist, m.length, limit);
      }
      BlockRoom(s, m.at, Copy(out, m.dist, m.length, -1).value, limit, lits, dists);
    }
  }

  lemma BlockOfRoom(s: seq<Bit>, kind: nat, p: nat, out: seq<Byte>, limit: nat)
    requires BlockOf(s, kind, p, out, -1).Go? && |out| <= limit
    ensures var r := BlockOf(s, kind, p, out, -1);
            && |out| <= |r.value.out|
            && BlockOf(s, kind, p, out, limit) == if |r.value.out| <= limit then r else Full
  {
    hide Block, StoredBytes, TableLengths, CodeLens, Accepts, FixedLits, FixedDists, Num;
    if kind == 0 {
      StoredRoom(s, Aligned(p) + 32, Num(s, Aligned(p), 16), out, limit);
    } else if kind == 1 {
      BlockRoom(s, p, out, limit, FixedLits(), FixedDists());
    } else {
      DynamicRoom(s, p, out, limit);
    }
  }

  lemma DynamicRoom(s: seq<Bit>, p: nat, out: seq<Byte>, limit: nat)
    requires Dynamic(s, p, out, -1).Go? && |out| <= limit
    ensures var r := Dynamic(s, p, out, -1);
            |out| <= |r.value.out| && Dynamic(s, p, out, limit) == if |r.value.out| <= limit then r else Full
  {
    hide Block, TableLengths, CodeLens, Accepts, Num;
    var nlen, ndist, ncode := Num(s, p, 5) + 257, Num(s, p + 5, 5) + 1, Num(s, p + 10, 4) + 4;
    FourBits(s[p + 10..p + 14]);
    assert Num(s, p + 10, 4) < 16 by { NumIs(s, p + 10, 4); }
    var t := TableLengths(s, p + 14 + 3 * ncode, CodeLens(s, p + 14, ncode), nlen + ndist).value;
    BlockRoom(s, t.at, out, limit, t.lens[..nlen], t.lens[nlen..]);
  }

  lemma NumIs(s: seq<Bit>, p: nat, n: nat)
    requires p + n <= |s|
    ensures Num(s, p, n) == Value(s[p..p + n])
  {
  }

  lemma {:induction false} BlocksRoom(s: seq<Bit>, p: nat, out: seq<Byte>, limit: nat)
    requires Blocks(s, p, out, -1).Go?
    ensures var r := Blocks(s, p, out, -1);
            && |out| <= |r.value.out|
            && (|out| <= limit ==> Blocks(s, p, out, limit) == if |r.value.out| <= limit then r else Full)
    decreases |s| - p
  {
    hide BlockOf, Checksum, Num;
    var kind := Num(s, p + 1, 2);
    var b := BlockOf(s, kind, p + 3, out, -1);
    BlockOfRoom(s, kind, p + 3, out, |out|);
    if |out| <= limit {
      BlockOfRoom(s, kind, p + 3, out, limit);
    }
    if Num(s, p, 1) == 1 {
      ChecksumKeepsOut(s, b.value.at, b.value.out);
    } else {
      BlocksRoom(s, b.value.at, b.value.out, limit);
    }
  }

  lemma ChecksumKeepsOut(s: seq<Bit>, p: nat, out: seq<Byte>)
    ensures Checksum(s, p, out).Go? ==> Checksum(s, p, out).value.out == out
  {
  }

  /** A stream that ends well needs room for exactly its output: with that much it ends as before, with less it stops
      when the room is used up. */
  lemma RoomIsExact(s: seq<Bit>, limit: nat)
    requires Inflated(s, -1).Go?
    ensures Inflated(s, limit) == if |Inflated(s, -1).value.out| <= limit then Inflated(s, -1) else Full
  {
    hide Blocks, Header;
    BlocksRoom(s, Header(s).value, [], limit);
  }

  /** What zlib would say of the stream, read with the room that is given. */
  ghost function Diagnosis(data: seq<Byte>, limit: int): string
  {
    Message(Inflated(StreamOf(data), limit))
  }

  /** Of any beginning of a stream, and with any smaller room, the diagnosis is the full one or nothing. */
  lemma DiagnosisIsMonotone(data: seq<Byte>, k: nat, limit': int, limit: int)
    requires k <= |data| && Tighter(limit', limit)
    ensures Diagnosis(data[..k], limit') == "" || Diagnosis(data[..k], limit') == Diagnosis(data, limit)
  {
    hide Inflated;
    StreamPrefix(data, k);
    InflatedKeeps(StreamOf(data), 8 * k, limit', limit);
  }

  /** Once there is a diagnosis, nothing that follows in the file and no further room can change it. */
  lemma DiagnosisIsFinal(data: seq<Byte>, more: seq<Byte>, limit': int, limit: int)
    requires Tighter(limit', limit) && Diagnosis(data, limit') != ""
    ensures Diagnosis(data + more, limit) == Diagnosis(data, limit')
  {
    assert (data + more)[..|data|] == data;
    DiagnosisIsMonotone(data + more, |data|, limit', limit);
  }
}
