/** Delta streams: applyDelta of internal/odb/delta.go and deltaBetween of internal/gittest/pack.go. */
module Delta {
  import opened Bytes
  import opened Powers

  type Data = seq<Byte>

  const Uint64Size := 0x1_0000_0000_0000_0000
  const CopyMax := 0xffffff
  const OffsetLimit := 0x1_0000_0000

  // ---------- the size fields ----------

  /** The low 64 bits. */
  function Low64(x: nat): (r: nat)
    ensures x < Uint64Size ==> r == x
  {
    x % Uint64Size
  }

  /** deltaVarint from a given shift: the value and what follows it. A byte past bit 63 keeps only what fits. */
  function Varint(d: Data, shift: nat, v: nat): (r: Option<(nat, Data)>)
    ensures r.Some? ==> |r.value.1| < |d|
  {
    if d == [] then None
    else
      var v' := v + Low64(d[0] % 128 * Pow2(shift));
      if d[0] < 128 then Some((v', d[1..]))
      else if shift + 7 > 63 then None
      else Varint(d[1..], shift + 7, v')
  }

  method DeltaVarint(d: Data) returns (r: Option<(nat, Data)>)
    ensures r == Varint(d, 0, 0)
  {
    var v: nat, shift: nat := 0, 0;
    for i := 0 to |d|
      invariant Varint(d, 0, 0) == Varint(d[i..], shift, v)
    {
      var c := d[i];
      assert d[i..][1..] == d[i + 1..];
      v := v + Low64(c % 128 * Pow2(shift));
      shift := shift + 7;
      if c < 128 {
        return Some((v, d[i + 1..]));
      }
      if shift > 63 {
        return None;
      }
    }
    return None;
  }

  function VarintBytes(v: nat): Data
  {
    if v >= 128 then [v % 128 + 128] + VarintBytes(v / 128) else [v]
  }

  method AppendDeltaVarint(out: Data, n: nat) returns (r: Data)
    ensures r == out + VarintBytes(n)
  {
    r := out;
    var v := n;
    while v >= 128
      invariant r + VarintBytes(v) == out + VarintBytes(n)
    {
      assert r + VarintBytes(v) == (r + [v % 128 + 128]) + VarintBytes(v / 128);
      r := r + [v % 128 + 128];
      v := v / 128;
    }
    r := r + [v];
  }

  /** A 64-bit size comes back, whatever follows it. */
  lemma VarintRoundTrip(n: nat, rest: Data)
    requires n < Uint64Size
    ensures Varint(VarintBytes(n) + rest, 0, 0) == Some((n, rest))
  {
    assert Pow2(0) == 1;
    SixtyFour();
    VarintReads(n, 0, 0, rest);
  }

  lemma SixtyFour()
    ensures Pow2(64) == Uint64Size
  {
    Pow2Constants();
    Pow2Next(63);
  }

  /** A size takes at most ten bytes, and it fits into 64 bits. */
  lemma {:induction false} VarintIsShort(d: Data, shift: nat, v: nat, k: nat)
    requires shift == 7 * k && k <= 9 && v < Pow2(shift)
    ensures var r := Varint(d, shift, v);
            r.Some? ==> r.value.0 < Uint64Size && |d| - (10 - k) <= |r.value.1| && d[|d| - |r.value.1|..] == r.value.1
    decreases 10 - k
  {
    hide Pow2, Low64;
    SixtyFour();
    Pow2Constants();
    if d != [] {
      var low := Low64(d[0] % 128 * Pow2(shift));
      if k == 9 {
        TopByte(d[0] % 128);
      } else {
        Pow2Seven(shift);
        Pow2Monotone(shift + 7, 63);
        LowBits(d[0] % 128, Pow2(shift));
        if d[0] >= 128 {
          VarintIsShort(d[1..], shift + 7, v + low, k + 1);
        }
      }
    }
  }

  lemma LowBits(d: nat, q: nat)
    requires d < 128 && 128 * q <= Uint64Size
    ensures d * q <= 127 * q && (q > 0 ==> Low64(d * q) == d * q)
  {
  }

  /** Of the tenth byte one bit fits. */
  lemma TopByte(d: nat)
    requires d < 128
    ensures Low64(d * Pow2(63)) <= Pow2(63)
  {
    hide Pow2;
    Pow2Constants();
    DivIs(d * Pow2(63), Uint64Size, d / 2, d % 2 * Pow2(63));
  }

  lemma {:induction false} VarintReads(n: nat, shift: nat, v: nat, rest: Data)
    requires shift <= 63 && shift % 7 == 0 && n < Pow2(64 - shift)
    ensures Varint(VarintBytes(n) + rest, shift, v) == Some((v + n * Pow2(shift), rest))
    decreases n
  {
    hide Pow2, Low64, Varint;
    var d, high, q := n % 128, n / 128, Pow2(shift);
    assert n == d + high * 128;
    Fits(d, shift, 64 - shift);
    var s := VarintBytes(n) + rest;
    VarintStep(s, shift, v, d);
    if n >= 128 {
      assert s[1..] == VarintBytes(high) + rest;
      Headroom(n, shift);
      VarintReads(high, shift + 7, v + d * q, rest);
      Pow2Seven(shift);
      Regroup(n, d, high, q, Pow2(shift + 7));
    } else {
      assert s[1..] == rest;
    }
  }

  lemma Regroup(n: nat, d: nat, high: nat, q: nat, q': nat)
    requires n == d + high * 128 && q' == 128 * q
    ensures d * q + high * q' == n * q
  {
    assert (d + high * 128) * q == d * q + high * (128 * q);
  }

  lemma VarintStep(s: Data, shift: nat, v: nat, d: nat)
    requires s != [] && s[0] % 128 == d && d * Pow2(shift) < Uint64Size
    ensures s[0] < 128 ==> Varint(s, shift, v) == Some((v + d * Pow2(shift), s[1..]))
    ensures s[0] >= 128 && shift + 7 <= 63 ==> Varint(s, shift, v) == Varint(s[1..], shift + 7, v + d * Pow2(shift))
  {
    hide Low64, Pow2;
  }

  lemma Fits(d: nat, shift: nat, room: nat)
    requires shift + room == 64 && d < Pow2(room)
    ensures d * Pow2(shift) < Uint64Size
  {
    hide Pow2;
    Pow2Add(room, shift);
    SixtyFour();
    Scales(d, Pow2(room), Pow2(shift));
  }

  lemma Scales(d: nat, p: nat, q: nat)
    requires d < p
    ensures d * q <= p * q
  {
  }

  lemma Headroom(n: nat, shift: nat)
    requires shift <= 63 && shift % 7 == 0 && 128 <= n < Pow2(64 - shift)
    ensures shift + 7 <= 63 && n / 128 < Pow2(64 - shift - 7)
  {
    assert Pow2(1) == 2 * Pow2(0) == 2;
    if shift <= 56 {
      Pow2Seven(64 - shift - 7);
    }
  }

  // ---------- the commands ----------

  /** The optional argument bytes of a copy: bit k of `flags` says whether byte k is there. */
  function Args(flags: nat, count: nat, weight: nat, delta: Data): (r: Option<(nat, Data)>)
    ensures r.Some? ==> |r.value.1| <= |delta|
    decreases count
  {
    if count == 0 then Some((0, delta))
    else if flags % 2 == 0 then Args(flags / 2, count - 1, weight * 256, delta)
    else if delta == [] then None
    else
      var r := Args(flags / 2, count - 1, weight * 256, delta[1..]);
      if r.None? then None else Some((delta[0] * weight + r.value.0, r.value.1))
  }

  datatype Cut = Cut(piece: Data, rest: Data)

  /** One command: the bytes it produces and the stream after it. */
  function Command(base: Data, delta: Data): (r: Option<Cut>)
    requires delta != []
    ensures r.Some? ==> |r.value.rest| < |delta|
  {
    var cmd, delta' := delta[0], delta[1..];
    if cmd >= 128 then
      var o := Args(cmd, 4, 1, delta');
      if o.None? then None else
      var z := Args(cmd / 16, 3, 1, o.value.1);
      if z.None? then None else
      var size := if z.value.0 == 0 then 0x10000 else z.value.0;
      if o.value.0 + size > |base| then None
      else Some(Cut(base[o.value.0..o.value.0 + size], z.value.1))
    else if cmd != 0 then
      if cmd > |delta'| then None else Some(Cut(delta'[..cmd], delta'[cmd..]))
    else None
  }

  function Commands(base: Data, delta: Data): (r: Option<Data>)
    decreases |delta|
  {
    if delta == [] then Some([])
    else
      var c := Command(base, delta);
      if c.None? then None else
      Prepend(c.value.piece, Commands(base, c.value.rest))
  }

  /** applyDelta as a function of the base and the stream. */
  function Applied(base: Data, delta: Data): (r: Option<Data>)
  {
    var src := Varint(delta, 0, 0);
    if src.None? || src.value.0 != |base| then None else
    var dst := Varint(src.value.1, 0, 0);
    if dst.None? then None else
    var out := Commands(base, dst.value.1);
    if out.None? || |out.value| != dst.value.0 then None else out
  }

  method ApplyDelta(base: Data, stream: Data) returns (r: Option<Data>)
    ensures r == Applied(base, stream)
  {
    var src := DeltaVarint(stream);
    if src.None? || src.value.0 != |base| {
      return None;
    }
    var dst := DeltaVarint(src.value.1);
    if dst.None? {
      return None;
    }
    r := RunCommands(base, dst.value.1);
    if r.None? || |r.value| != dst.value.0 {
      return None;
    }
  }

  function Prepend(out: Data, r: Option<Data>): (p: Option<Data>)
    ensures out == [] ==> p == r
    ensures r == Some([]) ==> p == Some(out)
  {
    assert r.Some? && out == [] ==> out + r.value == r.value;
    assert out + [] == out;
    if r.None? then None else Some(out + r.value)
  }

  /** The command loop, which appends each piece to the output. */
  method RunCommands(base: Data, stream: Data) returns (r: Option<Data>)
    ensures r == Commands(base, stream)
  {
    var delta, out: Data := stream, [];
    while delta != []
      invariant Commands(base, stream) == Prepend(out, Commands(base, delta))
      decreases |delta|
    {
      var c := ApplyCommand(base, delta);
      if c.None? {
        return None;
      }
      PrependTwice(out, c.value.piece, Commands(base, c.value.rest));
      out, delta := out + c.value.piece, c.value.rest;
    }
    return Some(out);
  }

  lemma PrependTwice(a: Data, b: Data, r: Option<Data>)
    ensures Prepend(a, Prepend(b, r)) == Prepend(a + b, r)
  {
    assert r.Some? ==> a + (b + r.value) == a + b + r.value;
  }

  method ApplyCommand(base: Data, stream: Data) returns (r: Option<Cut>)
    requires stream != []
    ensures r == Command(base, stream)
  {
    var cmd, delta := stream[0], stream[1..];
    if cmd >= 128 {
      var o := ReadArgs(cmd, 4, delta);
      if o.None? {
        return None;
      }
      var z := ReadArgs(cmd / 16, 3, o.value.1);
      if z.None? {
        return None;
      }
      var size := if z.value.0 == 0 then 0x10000 else z.value.0;
      var off := o.value.0;
      if off + size > |base| {
        return None;
      }
      return Some(Cut(base[off..off + size], z.value.1));
    } else if cmd != 0 {
      if cmd > |delta| {
        return None;
      }
      return Some(Cut(delta[..cmd], delta[cmd..]));
    }
    return None;
  }

  /** The loop over argument bytes. Each byte lands in bits nothing else uses, so "or" is addition. */
  method ReadArgs(cmd: nat, count: nat, stream: Data) returns (r: Option<(nat, Data)>)
    ensures r == Args(cmd, count, 1, stream)
  {
    var v: nat, weight: nat, flags, delta := 0, 1, cmd, stream;
    for i := 0 to count
      invariant Args(cmd, count, 1, stream)
                == var a := Args(flags, count - i, weight, delta);
                   if a.None? then None else Some((v + a.value.0, a.value.1))
    {
      if flags % 2 == 1 {
        if delta == [] {
          return None;
        }
        v := v + delta[0] * weight;
        delta := delta[1..];
      }
      flags, weight := flags / 2, weight * 256;
    }
    return Some((v, delta));
  }

  // ---------- the encoder ----------

  /** The `count` low bytes, least significant first. */
  function LittleBytes(v: nat, count: nat): (s: Data)
    ensures |s| == count
  {
    if count == 0 then [] else [v % 256] + LittleBytes(v / 256, count - 1)
  }

  /** What a delta is made of. A copy carries its command byte, whose low seven bits say which bytes of the offset and
      the size are written; an insert carries its bytes. */
  datatype Op = Copy(cmd: Byte, off: nat, n: nat) | Insert(bytes: Data)

  /** Of four or three bytes, those whose bit is set, the lowest bit for the first. */
  function Picked(flags: nat, bytes: Data): Data
  {
    if bytes == [] then []
    else (if flags % 2 == 1 then [bytes[0]] else []) + Picked(flags / 2, bytes[1..])
  }

  /** Only zeros are left out. */
  predicate Spares(flags: nat, bytes: Data)
  {
    bytes == [] || ((flags % 2 == 1 || bytes[0] == 0) && Spares(flags / 2, bytes[1..]))
  }

  predicate IsOp(op: Op)
  {
    match op
    case Copy(cmd, off, n) =>
      && cmd >= 128 && off < OffsetLimit && n <= CopyMax
      && Spares(cmd, LittleBytes(off, 4)) && Spares(cmd / 16, LittleBytes(n, 3))
    case Insert(bytes) => 0 < |bytes| < 128
  }

  function OpBytes(op: Op): (s: Data)
    requires IsOp(op)
    ensures s != []
  {
    match op
    case Copy(cmd, off, n) => [cmd] + Picked(cmd, LittleBytes(off, 4)) + Picked(cmd / 16, LittleBytes(n, 3))
    case Insert(bytes) => [|bytes|] + bytes
  }

  /** The bytes an operation stands for; a copy of size zero is one of 65536 bytes. */
  function Piece(base: Data, op: Op): Option<Data>
  {
    match op
    case Copy(cmd, off, n) =>
      var size := if n == 0 then 65536 else n;
      if off + size <= |base| then Some(base[off..off + size]) else None
    case Insert(bytes) => Some(bytes)
  }

  /** A copy with every argument byte present. */
  function CopyOp(off: nat, n: nat): Data
  {
    [0xff] + LittleBytes(off, 4) + LittleBytes(n, 3)
  }

  function Min(a: nat, b: nat): nat { if a < b then a else b }

  function Copies(done: nat, shared: nat): Data
    decreases shared - done
  {
    if done >= shared then []
    else
      var n := Min(shared - done, CopyMax);
      CopyOp(done, n) + Copies(done + n, shared)
  }

  function Inserts(rest: Data): Data
  {
    if rest == [] then []
    else
      var n := Min(|rest|, 127);
      [n] + rest[..n] + Inserts(rest[n..])
  }

  /** deltaBetween: copy the common front, insert the rest. */
  function Between(base: Data, want: Data): Data
  {
    var shared := CommonPrefix(base, want);
    VarintBytes(|base|) + VarintBytes(|want|) + Copies(0, shared) + Inserts(want[shared..])
  }

  method DeltaBetween(base: Data, want: Data) returns (out: Data)
    ensures out == Between(base, want)
  {
    hide VarintBytes, Copies, Inserts, CommonPrefix;
    out := AppendDeltaVarint([], |base|);
    assert out == VarintBytes(|base|);
    out := AppendDeltaVarint(out, |want|);
    var shared := 0;
    while shared < |base| && shared < |want| && base[shared] == want[shared]
      invariant shared <= |base| && shared <= |want| && base[..shared] == want[..shared]
    {
      shared := shared + 1;
    }
    CommonPrefixIs(base, want, shared);
    out := AppendCopies(out, shared);
    out := AppendInserts(out, want[shared..]);
  }

  method AppendCopies(sizes: Data, shared: nat) returns (out: Data)
    ensures out == sizes + Copies(0, shared)
  {
    out := sizes;
    var done := 0;
    while done < shared
      invariant done <= shared
      invariant out + Copies(done, shared) == sizes + Copies(0, shared)
    {
      var n := Min(shared - done, CopyMax);
      assert out + Copies(done, shared) == (out + CopyOp(done, n)) + Copies(done + n, shared);
      out := out + CopyOp(done, n);
      done := done + n;
    }
  }

  method AppendInserts(copied: Data, tail: Data) returns (out: Data)
    ensures out == copied + Inserts(tail)
  {
    out := copied;
    var rest := tail;
    while rest != []
      invariant out + Inserts(rest) == copied + Inserts(tail)
      decreases |rest|
    {
      var n := Min(|rest|, 127);
      assert out + Inserts(rest) == (out + ([n] + rest[..n])) + Inserts(rest[n..]);
      out := out + ([n] + rest[..n]);
      rest := rest[n..];
    }
  }

  // ---------- the round trip ----------

  /** Applying the delta between two objects to the first gives the second. */
  lemma DeltaRoundTrip(base: Data, want: Data)
    requires |base| < OffsetLimit && |want| < Uint64Size
    ensures Applied(base, Between(base, want)) == Some(want)
  {
    hide Varint, VarintBytes, Commands, Copies, Inserts, CommonPrefix;
    var shared := CommonPrefix(base, want);
    var ins := Inserts(want[shared..]);
    var cmds := Copies(0, shared) + ins;
    Nest(VarintBytes(|base|), VarintBytes(|want|), Copies(0, shared), ins);
    VarintRoundTrip(|base|, VarintBytes(|want|) + cmds);
    VarintRoundTrip(|want|, cmds);
    CopiesRun(base, 0, shared, ins);
    InsertsRun(base, want[shared..]);
    assert want == base[0..shared] + want[shared..];
  }

  lemma Nest(a: Data, b: Data, c: Data, d: Data)
    ensures a + b + c + d == a + (b + (c + d))
  {
  }

  lemma {:induction false} CopiesRun(base: Data, done: nat, shared: nat, tail: Data)
    requires done <= shared <= |base| < OffsetLimit
    ensures Commands(base, Copies(done, shared) + tail) == Prepend(base[done..shared], Commands(base, tail))
    decreases shared - done
  {
    hide Command, CopyOp;
    if done < shared {
      var n := Min(shared - done, CopyMax);
      var later := Copies(done + n, shared) + tail;
      var s := CopyOp(done, n) + later;
      assert Copies(done, shared) + tail == s;
      CopyRuns(base, done, n, later);
      CopiesRun(base, done + n, shared, tail);
      PrependTwice(base[done..done + n], base[done + n..shared], Commands(base, tail));
      assert base[done..shared] == base[done..done + n] + base[done + n..shared];
    } else {
      assert Copies(done, shared) + tail == tail;
    }
  }

  lemma CopyRuns(base: Data, off: nat, n: nat, later: Data)
    requires 0 < n <= CopyMax && off + n <= |base| < OffsetLimit
    ensures Command(base, CopyOp(off, n) + later) == Some(Cut(base[off..off + n], later))
  {
    hide Command, OpBytes;
    AllPicked(255, LittleBytes(off, 4));
    AllPicked(15, LittleBytes(n, 3));
    var op := Copy(0xff, off, n);
    OpRuns(base, op, later);
    assert OpBytes(op) == CopyOp(off, n) by { WholeCopy(op); }
  }

  lemma WholeCopy(op: Op)
    requires IsOp(op) && op.Copy?
    ensures OpBytes(op) == [op.cmd] + Picked(op.cmd, LittleBytes(op.off, 4)) + Picked(op.cmd / 16, LittleBytes(op.n, 3))
  {
  }

  lemma {:induction false} AllPicked(flags: nat, bytes: Data)
    requires (|bytes| == 4 && flags == 255) || (|bytes| == 3 && flags == 15)
    ensures Spares(flags, bytes) && Picked(flags, bytes) == bytes
  {
    var a, b, c := bytes[1..], bytes[2..], bytes[3..];
    assert a[1..] == b && b[1..] == c && (|c| == 1 ==> c[1..] == []);
    assert bytes == [bytes[0]] + ([bytes[1]] + ([bytes[2]] + c));
    assert |c| == 1 ==> c == [c[0]];
    assert Spares(flags / 8, c) && Picked(flags / 8, c) == c;
    assert Spares(flags / 4, b) && Picked(flags / 4, b) == b;
    assert Spares(flags / 2, a) && Picked(flags / 2, a) == a;
  }

  function Little(d: Data): nat
  {
    if d == [] then 0 else d[0] + 256 * Little(d[1..])
  }

  // ---------- what a stream says ----------

  /** Every operation is carried out whatever bytes it leaves out, or refused if its copy is not inside the base. */
  lemma OpRuns(base: Data, op: Op, later: Data)
    requires IsOp(op)
    ensures var piece := Piece(base, op);
            Command(base, OpBytes(op) + later) == if piece.Some? then Some(Cut(piece.value, later)) else None
  {
    hide Args;
    match op
    case Copy(cmd, off, n) => CopyReads(cmd, off, n, later);
    case Insert(bytes) =>
      var s := OpBytes(op) + later;
      assert s[1..] == bytes + later && (bytes + later)[..|bytes|] == bytes && (bytes + later)[|bytes|..] == later;
  }

  lemma CopyReads(cmd: Byte, off: nat, n: nat, later: Data)
    requires IsOp(Copy(cmd, off, n))
    ensures var s := OpBytes(Copy(cmd, off, n)) + later;
            var o := Args(cmd, 4, 1, s[1..]);
            s[0] == cmd && o.Some? && o.value.0 == off && Args(cmd / 16, 3, 1, o.value.1) == Some((n, later))
  {
    hide Args, Little, Picked, Spares, LittleBytes;
    var s := OpBytes(Copy(cmd, off, n)) + later;
    var o, z := LittleBytes(off, 4), LittleBytes(n, 3);
    assert s[1..] == Picked(cmd, o) + (Picked(cmd / 16, z) + later);
    ArgsRead(cmd, 1, o, Picked(cmd / 16, z) + later);
    ArgsRead(cmd / 16, 1, z, later);
    ArgRange();
    LittleRoundTrip(off, 4);
    LittleRoundTrip(n, 3);
  }

  /** Argument bytes are read back as the little-endian number they were picked from. */
  lemma {:induction false} ArgsRead(flags: nat, weight: nat, bytes: Data, later: Data)
    requires Spares(flags, bytes)
    ensures Args(flags, |bytes|, weight, Picked(flags, bytes) + later) == Some((weight * Little(bytes), later))
    decreases |bytes|
  {
    hide Args;
    var s := Picked(flags, bytes) + later;
    if bytes == [] {
      assert s == later;
      NoArgs(flags, weight, later);
    } else {
      var rest := Picked(flags / 2, bytes[1..]) + later;
      ArgsRead(flags / 2, weight * 256, bytes[1..], later);
      Weigh(weight, bytes[0], Little(bytes[1..]));
      if flags % 2 == 1 {
        assert s == [bytes[0]] + rest && s[1..] == rest;
        ArgPresent(flags, |bytes| - 1, weight, s, weight * 256 * Little(bytes[1..]), later);
      } else {
        assert s == rest;
        ArgAbsent(flags, |bytes| - 1, weight, s);
      }
    }
  }

  lemma ArgPresent(flags: nat, count: nat, weight: nat, d: Data, later: nat, rest: Data)
    requires flags % 2 == 1 && d != [] && Args(flags / 2, count, weight * 256, d[1..]) == Some((later, rest))
    ensures Args(flags, count + 1, weight, d) == Some((d[0] * weight + later, rest))
  {
  }

  lemma ArgAbsent(flags: nat, count: nat, weight: nat, d: Data)
    requires flags % 2 == 0
    ensures Args(flags, count + 1, weight, d) == Args(flags / 2, count, weight * 256, d)
  {
  }

  /** Whatever arguments can be read were picked from some bytes. */
  lemma {:induction false} ArgsAre(flags: nat, count: nat, weight: nat, d: Data) returns (bytes: Data)
    requires Args(flags, count, weight, d).Some?
    ensures |bytes| == count && Spares(flags, bytes)
    ensures d == Picked(flags, bytes) + Args(flags, count, weight, d).value.1
    decreases count
  {
    if count == 0 {
      bytes := [];
    } else if flags % 2 == 0 {
      var more := ArgsAre(flags / 2, count - 1, weight * 256, d);
      bytes := [0] + more;
      assert bytes[1..] == more;
    } else {
      var more := ArgsAre(flags / 2, count - 1, weight * 256, d[1..]);
      bytes := [d[0]] + more;
      assert bytes[1..] == more && d == [d[0]] + d[1..];
    }
  }

  /** Whatever command is carried out is the writing of some operation. */
  lemma CommandIsOp(base: Data, d: Data) returns (op: Op)
    requires d != [] && Command(base, d).Some?
    ensures IsOp(op) && d == OpBytes(op) + Command(base, d).value.rest
  {
    hide Args, Picked, Spares, LittleBytes, Little;
    var c := Command(base, d).value;
    assert d == [d[0]] + d[1..];
    if d[0] >= 128 {
      var o := Args(d[0], 4, 1, d[1..]).value;
      var off := ArgsAre(d[0], 4, 1, d[1..]);
      var n := ArgsAre(d[0] / 16, 3, 1, o.1);
      ArgRange();
      LittleIs(off);
      LittleIs(n);
      op := Copy(d[0], Little(off), Little(n));
      assert d == [d[0]] + Picked(d[0], off) + Picked(d[0] / 16, n) + c.rest;
    } else {
      op := Insert(d[1..][..d[0]]);
      assert d[1..] == d[1..][..d[0]] + d[1..][d[0]..];
    }
  }

  lemma {:induction false} LittleIs(d: Data)
    ensures Little(d) < Pow2(8 * |d|) && LittleBytes(Little(d), |d|) == d
    decreases |d|
  {
    if d != [] {
      LittleIs(d[1..]);
      Pow2Add(8 * (|d| - 1), 8);
      Pow2Constants();
      assert d == [d[0]] + d[1..];
    } else {
      assert Pow2(0) == 1;
    }
  }

  predicate AllOps(ops: seq<Op>)
  {
    forall i | 0 <= i < |ops| :: IsOp(ops[i])
  }

  /** The operations one after another, as written. */
  function AllBytes(ops: seq<Op>): Data
    requires AllOps(ops)
  {
    if ops == [] then [] else OpBytes(ops[0]) + AllBytes(ops[1..])
  }

  /** What they stand for together, if each of them stands for something. */
  function AllPieces(base: Data, ops: seq<Op>): Option<Data>
  {
    if ops == [] then Some([])
    else if Piece(base, ops[0]).None? then None
    else Prepend(Piece(base, ops[0]).value, AllPieces(base, ops[1..]))
  }

  lemma {:induction false} OpsRun(base: Data, ops: seq<Op>)
    requires AllOps(ops)
    ensures Commands(base, AllBytes(ops)) == AllPieces(base, ops)
    decreases |ops|
  {
    hide Command, IsOp, OpBytes, Piece;
    if ops != [] {
      OpRuns(base, ops[0], AllBytes(ops[1..]));
      OpsRun(base, ops[1..]);
    }
  }

  lemma {:induction false} CommandsAreOps(base: Data, d: Data) returns (ops: seq<Op>)
    requires Commands(base, d).Some?
    ensures AllOps(ops) && d == AllBytes(ops)
    decreases |d|
  {
    hide Command, IsOp, OpBytes, Piece;
    if d == [] {
      ops := [];
    } else {
      var op := CommandIsOp(base, d);
      var more := CommandsAreOps(base, Command(base, d).value.rest);
      ops := [op] + more;
      assert ops[1..] == more;
    }
  }

  /** A delta stream gives `out` exactly when it says the size of the base, the size of `out`, and then operations that
      stand for `out`. */
  lemma AppliedIsExact(base: Data, delta: Data, out: Data)
    ensures Applied(base, delta) == Some(out) <==>
      exists tail: Data, ops: seq<Op> ::
        && Varint(delta, 0, 0) == Some((|base|, tail)) && AllOps(ops)
        && Varint(tail, 0, 0) == Some((|out|, AllBytes(ops))) && AllPieces(base, ops) == Some(out)
  {
    hide Varint, Commands, AllBytes, AllPieces, IsOp;
    if Applied(base, delta) == Some(out) {
      var tail := Varint(delta, 0, 0).value.1;
      var ops := CommandsAreOps(base, Varint(tail, 0, 0).value.1);
      OpsRun(base, ops);
    }
    forall tail: Data, ops: seq<Op> |
        && Varint(delta, 0, 0) == Some((|base|, tail)) && AllOps(ops)
        && Varint(tail, 0, 0) == Some((|out|, AllBytes(ops))) && AllPieces(base, ops) == Some(out)
      ensures Applied(base, delta) == Some(out)
    {
      OpsRun(base, ops);
    }
  }

  lemma NoArgs(flags: nat, weight: nat, d: Data)
    ensures Args(flags, 0, weight, d) == Some((0, d))
  {
  }

  lemma Weigh(weight: nat, low: nat, high: nat)
    ensures low * weight + weight * 256 * high == weight * (low + 256 * high)
  {
  }

  lemma ArgRange()
    ensures Pow2(24) == 0x1000000 && Pow2(32) == 0x1_0000_0000
  {
    Pow2Constants();
    Pow2Add(16, 8);
    Pow2Add(16, 16);
  }

  lemma {:induction false} LittleRoundTrip(v: nat, count: nat)
    requires v < Pow2(8 * count)
    ensures Little(LittleBytes(v, count)) == v
    decreases count
  {
    if count > 0 {
      Pow2Add(8 * (count - 1), 8);
      Pow2Constants();
      LittleRoundTrip(v / 256, count - 1);
      assert LittleBytes(v, count)[1..] == LittleBytes(v / 256, count - 1);
    } else {
      assert Pow2(8 * count) == 1;
    }
  }

  lemma {:induction false} InsertsRun(base: Data, rest: Data)
    ensures Commands(base, Inserts(rest)) == Some(rest)
    decreases |rest|
  {
    assert Commands(base, []) == Some([]);
    if rest != [] {
      var n := Min(|rest|, 127);
      assert rest == rest[..n] + rest[n..];
      var s := Inserts(rest);
      assert s[1..] == rest[..n] + Inserts(rest[n..]);
      assert s[1..][..n] == rest[..n] && s[1..][n..] == Inserts(rest[n..]);
      InsertsRun(base, rest[n..]);
    }
  }
}
