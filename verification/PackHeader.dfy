/** Pack entry headers: the reader of internal/odb/pack.go and the writers of internal/gittest/pack.go. */
module PackHeader {
  import opened Bytes
  import opened Powers

  datatype ObjType = Bad | Commit | Tree | Blob | Tag | OfsDelta | RefDelta
  {
    predicate IsDelta() { this == OfsDelta || this == RefDelta }
  }

  datatype ObjHeader = ObjHeader(typ: ObjType, size: nat, dataOff: int, baseOff: int, baseOID: seq<Byte>)

  const Limit57 := 0x200_0000_0000_0000
  const Limit60 := 0x1000_0000_0000_0000
  const Int64Half := 0x8000_0000_0000_0000

  /** Two's-complement wrap-around to 64 bits. */
  function Wrap64(x: int): (r: int)
    ensures -Int64Half <= r < Int64Half
    ensures -Int64Half <= x < Int64Half ==> r == x
    ensures Int64Half <= x < 3 * Int64Half ==> r == x - 2 * Int64Half
  {
    (x + Int64Half) % (2 * Int64Half) - Int64Half
  }

  function TypeOfCode(code: nat): ObjType
  {
    match code
    case 1 => Commit
    case 2 => Tree
    case 3 => Blob
    case 4 => Tag
    case 6 => OfsDelta
    case 7 => RefDelta
    case _ => Bad
  }

  function CodeOfType(t: ObjType): (code: nat)
    ensures code < 8 && (t != Bad ==> TypeOfCode(code) == t)
  {
    match t
    case Bad => 0
    case Commit => 1
    case Tree => 2
    case Blob => 3
    case Tag => 4
    case OfsDelta => 6
    case RefDelta => 7
  }

  // ---------- reading ----------

  /** The size bytes after the first: where they end and what they add up to. */
  function SizeTail(data: seq<Byte>, pos: nat, shift: nat, size: nat, more: bool): (r: Option<(nat, nat)>)
    ensures r.Some? ==> pos <= r.value.0 && (more ==> pos < r.value.0 <= |data|)
    decreases |data| - pos, more
  {
    if !more then Some((pos, size))
    else if pos >= |data| || shift + 7 > 63 then None
    else SizeTail(data, pos + 1, shift + 7, size + (data[pos] % 128) * Pow2(shift), data[pos] >= 128)
  }

  /** The offset bytes after the first, accumulated in 64 bits. */
  function OfsTail(data: seq<Byte>, pos: nat, delta: int, more: bool): (r: Option<(nat, int)>)
    ensures r.Some? ==> pos <= r.value.0 && (more ==> pos < r.value.0 <= |data|)
    decreases |data| - pos, more
  {
    if !more then Some((pos, delta))
    else if Wrap64(delta + 1) <= 0 || Wrap64(delta + 1) >= Limit57 || pos >= |data| then None
    else OfsTail(data, pos + 1, Wrap64(Wrap64(delta + 1) * 128 + data[pos] % 128), data[pos] >= 128)
  }

  /** What follows the size, for each type. */
  function BasePart(data: seq<Byte>, rawsz: nat, off: int, typ: ObjType, size: nat, pos: nat): (r: Option<ObjHeader>)
  {
    match typ
    case Bad => None
    case OfsDelta =>
      if pos >= |data| then None else
      var t := OfsTail(data, pos + 1, data[pos] % 128, data[pos] >= 128);
      if t.None? then None else
      var base := Wrap64(off - t.value.1);
      if base <= 0 || base >= off then None
      else Some(ObjHeader(typ, size, t.value.0, base, []))
    case RefDelta =>
      if pos + rawsz > |data| - rawsz then None
      else Some(ObjHeader(typ, size, pos + rawsz, 0, data[pos..pos + rawsz]))
    case _ => Some(ObjHeader(typ, size, pos, 0, []))
  }

  /** ReadHeader as a function of the bytes of a packfile. */
  function HeaderAt(data: seq<Byte>, rawsz: nat, off: int): (r: Option<ObjHeader>)
    ensures r.Some? ==> 12 <= off < r.value.dataOff && r.value.typ != Bad
    ensures r.Some? && r.value.typ == OfsDelta ==> 0 < r.value.baseOff < off
  {
    if off < 12 || off >= |data| - rawsz then None else
    var c := data[off];
    var t := SizeTail(data, off + 1, 4, c % 16, c >= 128);
    if t.None? then None else BasePart(data, rawsz, off, TypeOfCode(c / 16 % 8), t.value.1, t.value.0)
  }

  method ReadHeader(data: seq<Byte>, rawsz: nat, off: int) returns (r: Option<ObjHeader>)
    ensures r == HeaderAt(data, rawsz, off)
  {
    hide Wrap64, OfsTail, SizeTail;
    if off < 12 || off >= |data| - rawsz {
      return None;
    }
    var c := data[off];
    var t := ReadSize(data, off + 1, c);
    if t.None? {
      return None;
    }
    var (pos, size) := t.value;
    match TypeOfCode(c / 16 % 8)
    case Bad => r := None;
    case OfsDelta =>
      if pos >= |data| {
        return None;
      }
      var o := ReadOffset(data, pos);
      if o.None? {
        return None;
      }
      var base := Wrap64(off - o.value.1);
      if base <= 0 || base >= off {
        return None;
      }
      r := Some(ObjHeader(OfsDelta, size, o.value.0, base, []));
    case RefDelta =>
      if pos + rawsz > |data| - rawsz {
        return None;
      }
      r := Some(ObjHeader(RefDelta, size, pos + rawsz, 0, data[pos..pos + rawsz]));
    case typ => r := Some(ObjHeader(typ, size, pos, 0, []));
  }

  /** The loop over size bytes, from the one after `first`. */
  method ReadSize(data: seq<Byte>, start: nat, first: Byte) returns (r: Option<(nat, nat)>)
    ensures r == SizeTail(data, start, 4, first % 16, first >= 128)
  {
    var c := first;
    var pos, shift: nat, size: nat := start, 4, c % 16;
    while c >= 128
      invariant SizeTail(data, start, 4, first % 16, first >= 128) == SizeTail(data, pos, shift, size, c >= 128)
      decreases |data| - pos, c >= 128
    {
      if pos >= |data| {
        return None;
      }
      c := data[pos];
      pos := pos + 1;
      size := size + (c % 128) * Pow2(shift);
      shift := shift + 7;
      if shift > 63 {
        return None;
      }
    }
    return Some((pos, size));
  }

  /** The loop over offset bytes. */
  method ReadOffset(data: seq<Byte>, start: nat) returns (r: Option<(nat, int)>)
    requires start < |data|
    ensures r == OfsTail(data, start + 1, data[start] % 128, data[start] >= 128)
  {
    var c := data[start];
    var pos := start + 1;
    var delta: int := c % 128;
    while c >= 128
      invariant OfsTail(data, start + 1, data[start] % 128, data[start] >= 128) == OfsTail(data, pos, delta, c >= 128)
      decreases |data| - pos, c >= 128
    {
      delta := Wrap64(delta + 1);
      if delta <= 0 || delta >= Limit57 || pos >= |data| {
        return None;
      }
      c := data[pos];
      pos := pos + 1;
      delta := Wrap64(delta * 128 + c % 128);
    }
    return Some((pos, delta));
  }

  // ---------- what a header can hold ----------

  /** A header that reads is short enough for the single byte a layout keeps of its length. */
  lemma HeaderIsShort(data: seq<Byte>, rawsz: nat, off: int)
    requires rawsz <= 32
    ensures var r := HeaderAt(data, rawsz, off);
            r.Some? ==> r.value.dataOff - off <= 1 + 9 + 32 && r.value.size < Limit60
  {
    hide Wrap64, SizeTail, OfsTail;
    var r := HeaderAt(data, rawsz, off);
    if r.Some? {
      var c := data[off];
      Pow2Constants();
      SizeTailIsShort(data, off + 1, 4, c % 16, c >= 128);
      var t := SizeTail(data, off + 1, 4, c % 16, c >= 128).value;
      if r.value.typ == OfsDelta {
        OfsTailIsShort(data, t.0 + 1, data[t.0] % 128, data[t.0] >= 128, 0);
      }
    }
  }

  /** A header starts before the trailer, and a base's name, which ends it, lies before the trailer as a whole. */
  lemma HeaderInBounds(data: seq<Byte>, rawsz: nat, off: int)
    ensures var r := HeaderAt(data, rawsz, off);
            r.Some? ==>
              && off < |data| - rawsz
              && (r.value.typ == RefDelta ==>
                    off + rawsz < r.value.dataOff <= |data| - rawsz
                    && r.value.baseOID == data[r.value.dataOff - rawsz..r.value.dataOff])
  {
    hide SizeTail, OfsTail, Wrap64;
  }

  lemma DigitFits(low: nat, d: nat, q: nat)
    requires low < q && d < 128
    ensures low + d * q < 128 * q
  {
    assert d * q <= 127 * q;
  }

  lemma {:induction false} SizeTailIsShort(data: seq<Byte>, pos: nat, shift: nat, size: nat, more: bool)
    requires shift <= 60 && shift % 7 == 4 && size < Pow2(shift)
    ensures var r := SizeTail(data, pos, shift, size, more);
            r.Some? ==> 7 * (r.value.0 - pos) <= 60 - shift && r.value.1 < Pow2(60)
    decreases |data| - pos, more
  {
    hide Pow2;
    if more && pos < |data| && shift + 7 <= 63 {
      Pow2Seven(shift);
      DigitFits(size, data[pos] % 128, Pow2(shift));
      SizeTailIsShort(data, pos + 1, shift + 7, size + (data[pos] % 128) * Pow2(shift), data[pos] >= 128);
    } else {
      Pow2Monotone(shift, 60);
    }
  }

  /** After k continuation bytes the offset is at least 128^k, so the 2^57 test stops it after nine of them. */
  lemma {:induction false} OfsTailIsShort(data: seq<Byte>, pos: nat, delta: int, more: bool, k: nat)
    requires k <= 8 && 0 <= delta < Int64Half && delta + 1 >= Pow2(7 * k)
    ensures var r := OfsTail(data, pos, delta, more);
            r.Some? ==> r.value.0 - pos <= 9 - k
    decreases |data| - pos, more
  {
    hide Wrap64, Pow2;
    Pow2Constants();
    if more && OfsTail(data, pos, delta, more).Some? {
      Pow2Seven(7 * k);
      var d1, digit := Wrap64(delta + 1), data[pos] % 128;
      assert d1 == delta + 1;
      var next := Wrap64(d1 * 128 + digit);
      if k < 8 && next >= 0 {
        OfsTailIsShort(data, pos + 1, next, data[pos] >= 128, k + 1);
      }
    }
  }

  // ---------- writing ----------

  function SizeBytes(c: Byte, size: nat): (s: seq<Byte>)
    requires c < 128
    ensures s != [] && s[0] == if size == 0 then c else c + 128
    decreases size
  {
    if size == 0 then [c] else [c + 128] + SizeBytes(size % 128, size / 128)
  }

  /** writeObjHeader's bytes. */
  function HeaderBytes(typ: ObjType, size: nat): seq<Byte>
  {
    SizeBytes(CodeOfType(typ) * 16 + size % 16, size / 16)
  }

  /** The type stands in bits four to six of the first byte. */
  lemma FirstBytes()
    ensures HeaderBytes(Commit, 15) == [0x1f] && HeaderBytes(Tree, 15) == [0x2f] && HeaderBytes(Blob, 15) == [0x3f]
    ensures HeaderBytes(Tag, 15) == [0x4f] && HeaderBytes(OfsDelta, 15) == [0x6f] && HeaderBytes(RefDelta, 15) == [0x7f]
    ensures HeaderBytes(Blob, 16) == [0xb0, 1]
  {
  }

  method WriteObjHeader(typ: ObjType, size: nat) returns (buf: seq<Byte>)
    ensures buf == HeaderBytes(typ, size)
  {
    buf := [];
    var c: Byte := CodeOfType(typ) * 16 + size % 16;
    var left: nat := size / 16;
    ghost var all := SizeBytes(c, left);
    while left > 0
      invariant c < 128 && buf + SizeBytes(c, left) == all
    {
      assert buf + SizeBytes(c, left) == (buf + [c + 128]) + SizeBytes(left % 128, left / 128);
      buf := buf + [c + 128];
      c := left % 128;
      left := left / 128;
    }
    buf := buf + [c];
  }

  function OfsHigh(n: nat): seq<Byte>
  {
    if n == 0 then [] else OfsHigh((n - 1) / 128) + [128 + (n - 1) % 128]
  }

  /** writeOfsDelta's bytes. */
  function OfsBytes(back: nat): (s: seq<Byte>)
    ensures s != []
  {
    OfsHigh(back / 128) + [back % 128]
  }

  /** writeOfsDelta fills a 16-byte buffer from its end; a 63-bit distance never runs off its front. */
  method WriteOfsDelta(back: nat) returns (buf: seq<Byte>)
    requires back < Int64Half
    ensures buf == OfsBytes(back)
  {
    var tmp := new Byte[16];
    var i := 15;
    tmp[i] := back % 128;
    var n: nat := back / 128;
    hide Pow2, OfsHigh;
    Pow2Constants();
    Pow2Seven(56);
    HighNothing();
    OfsParts(back);
    while n > 0
      invariant 7 <= i <= 15 && (i == 7 ==> n == 0) && n < Pow2(7 * (i - 7))
      invariant OfsHigh(n) + tmp[i..] == OfsBytes(back)
    {
      OfsShrinks(n, i - 7);
      ghost var was, rest := n, tmp[i..];
      HighEnds(n);
      n := n - 1;
      i := i - 1;
      tmp[i] := 128 + n % 128;
      assert tmp[i..] == [128 + (was - 1) % 128] + rest;
      n := n / 128;
      Moved(OfsHigh(n), [128 + (was - 1) % 128], rest);
    }
    return tmp[i..];
  }

  lemma Moved(a: seq<Byte>, b: seq<Byte>, c: seq<Byte>)
    ensures (a + b) + c == a + (b + c)
  {
  }

  lemma OfsParts(back: nat)
    ensures OfsBytes(back) == OfsHigh(back / 128) + [back % 128]
  {
  }

  lemma OfsShrinks(n: nat, k: nat)
    requires 0 < n < Pow2(7 * k) && k > 0
    ensures (n - 1) / 128 < Pow2(7 * (k - 1)) && (k == 1 ==> (n - 1) / 128 == 0)
  {
    Pow2Seven(7 * (k - 1));
    assert k == 1 ==> Pow2(7 * (k - 1)) == 1;
  }

  // ---------- round trips ----------

  /** `part` stands at `pos`. */
  predicate At(data: seq<Byte>, pos: nat, part: seq<Byte>)
  {
    pos + |part| <= |data| && data[pos..pos + |part|] == part
  }

  lemma AtHead(data: seq<Byte>, pos: nat, c: Byte, rest: seq<Byte>)
    requires At(data, pos, [c] + rest)
    ensures pos < |data| && data[pos] == c && At(data, pos + 1, rest)
  {
    assert data[pos..pos + 1 + |rest|][0] == c;
    assert data[pos..pos + 1 + |rest|][1..] == rest;
  }

  lemma AtSplit(data: seq<Byte>, pos: nat, a: seq<Byte>, b: seq<Byte>)
    requires At(data, pos, a + b)
    ensures pos + |a| + |b| <= |data|
    ensures At(data, pos, a) && At(data, pos + |a|, b)
  {
    assert data[pos..pos + |a + b|][..|a|] == a;
    assert data[pos..pos + |a + b|][|a|..] == b;
  }

  lemma {:induction false} SizeTailReads(data: seq<Byte>, pos: nat, c: Byte, size: nat, shift: nat, low: nat)
    requires c < 128 && At(data, pos, SizeBytes(c, size))
    requires size > 0 ==> shift <= 60 && shift % 7 == 4 && size < Pow2(60 - shift)
    ensures SizeTail(data, pos + 1, shift, low, data[pos] >= 128)
            == Some((pos + |SizeBytes(c, size)|, low + size * Pow2(shift)))
    decreases size
  {
    hide Pow2, At, SizeTail;
    AtFirst(data, pos, SizeBytes(c, size));
    SizeTailEnds(data, pos + 1, shift, low);
    if size > 0 {
      var d, high, q := size % 128, size / 128, Pow2(shift);
      assert size == d + high * 128;
      AtHead(data, pos, c + 128, SizeBytes(d, high));
      SizeHeadroom(size, shift);
      SizeTailTakes(data, pos + 1, shift, low, d, high);
      SizeTailReads(data, pos + 1, d, high, shift + 7, low + d * q);
      Pow2Seven(shift);
      SizeAdds(size, d, high, q, Pow2(shift + 7));
    }
  }

  lemma SizeTailEnds(data: seq<Byte>, pos: nat, shift: nat, low: nat)
    ensures SizeTail(data, pos, shift, low, false) == Some((pos, low))
  {
  }

  lemma SizeTailTakes(data: seq<Byte>, pos: nat, shift: nat, low: nat, d: Byte, high: nat)
    requires d < 128 && At(data, pos, SizeBytes(d, high)) && shift + 7 <= 60
    ensures pos < |data|
    ensures SizeTail(data, pos, shift, low, true)
              == SizeTail(data, pos + 1, shift + 7, low + d * Pow2(shift), data[pos] >= 128)
  {
    hide At, SizeBytes;
    AtFirst(data, pos, SizeBytes(d, high));
    assert data[pos] % 128 == d;
  }

  lemma AtFirst(data: seq<Byte>, pos: nat, part: seq<Byte>)
    requires At(data, pos, part) && part != []
    ensures pos < |data| && data[pos] == part[0]
  {
    assert data[pos..pos + |part|][0] == part[0];
  }

  lemma SizeHeadroom(size: nat, shift: nat)
    requires 0 < size && shift <= 60 && shift % 7 == 4 && size < Pow2(60 - shift)
    ensures shift + 7 <= 60 && size / 128 < Pow2(60 - shift - 7)
  {
    assert Pow2(0) == 1;
    if shift <= 53 {
      Pow2Seven(60 - shift - 7);
    }
  }

  lemma SizeAdds(size: nat, d: nat, high: nat, q: nat, q': nat)
    requires size == d + high * 128 && q' == 128 * q
    ensures d * q + high * q' == size * q
  {
    assert (d + high * 128) * q == d * q + high * (128 * q);
  }

  /** Reading the high bytes of a distance leaves one less than what they stand for. */
  lemma {:induction false} OfsTailReads(data: seq<Byte>, pos: nat, n: nat)
    requires 0 < n < Limit57 && At(data, pos, OfsHigh(n))
    ensures pos < |data| && data[pos] >= 128
    ensures OfsTail(data, pos + 1, data[pos] % 128, true) == OfsTail(data, pos + |OfsHigh(n)|, n - 1, true)
    decreases n
  {
    hide Wrap64, At, OfsTail, OfsHigh;
    var m, low := (n - 1) / 128, (n - 1) % 128;
    var last := pos + |OfsHigh(m)|;
    HighEnds(n);
    assert OfsHigh(n) == OfsHigh(m) + [128 + low];
    AtSplit(data, pos, OfsHigh(m), [128 + low]);
    AtHead(data, last, 128 + low, []);
    if m > 0 {
      OfsTailReads(data, pos, m);
      OfsTailStep(data, last, m - 1, low);
    } else {
      HighNothing();
    }
  }

  lemma HighNothing()
    ensures OfsHigh(0) == []
  {
  }

  lemma HighEnds(n: nat)
    requires n > 0
    ensures OfsHigh(n) == OfsHigh((n - 1) / 128) + [128 + (n - 1) % 128]
  {
  }

  /** One byte of a distance that goes on. */
  lemma OfsTailStep(data: seq<Byte>, pos: nat, delta: nat, low: nat)
    requires pos < |data| && data[pos] == 128 + low && low < 128 && (delta + 1) * 128 + low + 1 < Limit57
    ensures OfsTail(data, pos, delta, true) == OfsTail(data, pos + 1, (delta + 1) * 128 + low, true)
  {
  }

  /** What follows the size in an entry written by WritePack. */
  function BaseBytes(typ: ObjType, back: nat, name: seq<Byte>): seq<Byte>
  {
    if typ == OfsDelta then OfsBytes(back) else if typ == RefDelta then name else []
  }

  /** ReadHeader gives back what writeObjHeader and writeOfsDelta wrote, for sizes under 2^60. */
  lemma HeaderRoundTrip(data: seq<Byte>, rawsz: nat, off: nat, typ: ObjType, size: nat, back: nat, name: seq<Byte>)
    requires typ != Bad && size < Limit60 && 12 <= off < Int64Half
    requires typ == OfsDelta ==> 0 < back < off
    requires typ == RefDelta ==> |name| == rawsz
    requires At(data, off, HeaderBytes(typ, size) + BaseBytes(typ, back, name))
    requires off + |HeaderBytes(typ, size) + BaseBytes(typ, back, name)| <= |data| - rawsz
    ensures HeaderAt(data, rawsz, off)
            == Some(ObjHeader(typ, size, off + |HeaderBytes(typ, size) + BaseBytes(typ, back, name)|,
                              if typ == OfsDelta then off - back else 0, if typ == RefDelta then name else []))
  {
    hide OfsTail, SizeTail, Wrap64;
    AtSplit(data, off, HeaderBytes(typ, size), BaseBytes(typ, back, name));
    var pos := off + |HeaderBytes(typ, size)|;
    SizePart(data, off, typ, size);
    if typ == OfsDelta {
      OfsPart(data, pos, back);
    }
  }

  lemma SizePart(data: seq<Byte>, off: nat, typ: ObjType, size: nat)
    requires size < Limit60 && At(data, off, HeaderBytes(typ, size))
    ensures data[off] / 16 % 8 == CodeOfType(typ)
    ensures SizeTail(data, off + 1, 4, data[off] % 16, data[off] >= 128) == Some((off + |HeaderBytes(typ, size)|, size))
  {
    hide SizeTail, SizeBytes, Pow2, At;
    SixtyBits(size);
    SizeNibbles(data, off, CodeOfType(typ), size % 16, size / 16);
  }

  lemma Pow2Four()
    ensures Pow2(4) == 16
  {
    assert Pow2(4) == 2 * Pow2(3) == 4 * Pow2(2) == 8 * Pow2(1);
  }

  lemma SizeNibbles(data: seq<Byte>, off: nat, code: nat, low: nat, high: nat)
    requires code < 8 && low < 16 && high < Pow2(56) && At(data, off, SizeBytes(code * 16 + low, high))
    ensures off < |data| && data[off] / 16 % 8 == code
    ensures SizeTail(data, off + 1, 4, data[off] % 16, data[off] >= 128)
            == Some((off + |SizeBytes(code * 16 + low, high)|, low + high * 16))
  {
    hide SizeTail, SizeBytes, Pow2;
    AtFirst(data, off, SizeBytes(code * 16 + low, high));
    Nibbles(code, low, data[off]);
    Pow2Four();
    SizeTailReads(data, off, code * 16 + low, high, 4, low);
  }

  lemma Nibbles(code: nat, low: nat, b: Byte)
    requires code < 8 && low < 16 && (b == code * 16 + low || b == code * 16 + low + 128)
    ensures b / 16 % 8 == code && b % 16 == low
  {
  }

  lemma SixtyBits(size: nat)
    requires size < Limit60
    ensures Pow2(4) == 16 && size / 16 < Pow2(56)
  {
    Pow2Constants();
    assert Pow2(60) == 2 * Pow2(59) == 4 * Pow2(58) == 8 * Pow2(57) == 16 * Pow2(56);
  }

  lemma OfsPart(data: seq<Byte>, pos: nat, back: nat)
    requires back < Int64Half && At(data, pos, OfsBytes(back))
    ensures pos < |data|
    ensures OfsTail(data, pos + 1, data[pos] % 128, data[pos] >= 128) == Some((pos + |OfsBytes(back)|, back))
  {
    hide Wrap64, At, OfsTail;
    var n, low := back / 128, back % 128;
    AtSplit(data, pos, OfsHigh(n), [low]);
    AtHead(data, pos + |OfsHigh(n)|, low, []);
    OfsLast(data, pos + |OfsHigh(n)|, n, low);
    if n > 0 {
      OfsTailReads(data, pos, n);
    }
  }

  lemma OfsLast(data: seq<Byte>, q: nat, n: nat, low: Byte)
    requires q < |data| && data[q] == low < 128 && n * 128 + low < Int64Half
    ensures n > 0 ==> OfsTail(data, q, n - 1, true) == Some((q + 1, n * 128 + low))
    ensures OfsTail(data, q + 1, low, false) == Some((q + 1, low as int))
  {
    hide Wrap64;
  }
}
