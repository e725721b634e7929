/** Version 2 of the index file: its writer, its reader and its salvager (internal/gitrepo/index.go, indexwrite.go). */
module IndexCodec {
  import opened Bytes

  datatype Entry = Entry(mode: nat, oid: Name, name: Name, stage: nat, stat: Name)
  {
    /** What the types of the fields promise, and a name that a path can have. */
    ghost predicate Valid(rawsz: nat)
    {
      mode < 0x1_0000_0000 && |oid| <= rawsz && stage <= 3 && |stat| == 40 && NulFree(name)
    }
  }

  ghost predicate NulFree(name: Name)
  {
    forall i | 0 <= i < |name| :: name[i] != 0
  }

  // ---------- numbers ----------

  function Be32(v: nat): (r: Name)
    requires v < 0x1_0000_0000
    ensures |r| == 4
  {
    [v / 0x100_0000, v / 0x1_0000 % 256, v / 256 % 256, v % 256]
  }

  function Be16(v: nat): (r: Name)
    requires v < 0x1_0000
    ensures |r| == 2
  {
    [v / 256, v % 256]
  }

  function Read32(b: Name): nat
    requires |b| == 4
  {
    var a: nat, c: nat, d: nat, e: nat := b[0], b[1], b[2], b[3];
    a * 0x100_0000 + c * 0x1_0000 + d * 256 + e
  }

  function Read16(b: Name): nat
    requires |b| == 2
  {
    var a: nat, c: nat := b[0], b[1];
    a * 256 + c
  }

  lemma Read32Inverts(v: nat)
    requires v < 0x1_0000_0000
    ensures Read32(Be32(v)) == v
  {
    assert v == 256 * (v / 256) + v % 256;
    assert v / 256 == 256 * (v / 0x1_0000) + v / 256 % 256;
    assert v / 0x1_0000 == 256 * (v / 0x100_0000) + v / 0x1_0000 % 256;
  }

  lemma Read16Inverts(v: nat)
    requires v < 0x1_0000
    ensures Read16(Be16(v)) == v
  {
  }

  /** The most significant byte comes first: encodings compare as the numbers do. */
  lemma Be32Order(a: nat, b: nat)
    requires a < 0x1_0000_0000 && b < 0x1_0000_0000
    ensures Less(Be32(a), Be32(b)) <==> a < b
  {
    hide Less, Be32, Read32;
    Read32Inverts(a);
    Read32Inverts(b);
    Read32Order(Be32(a), Be32(b));
  }

  lemma Read32Order(x: Name, y: Name)
    requires |x| == |y| == 4
    ensures Less(x, y) <==> Read32(x) < Read32(y)
  {
    var p := CommonPrefix(x, y);
    assert forall i | 0 <= i < p :: x[i] == x[..p][i] == y[..p][i] == y[i];
  }

  lemma Be16Order(a: nat, b: nat)
    requires a < 0x1_0000 && b < 0x1_0000
    ensures Less(Be16(a), Be16(b)) <==> a < b
  {
    hide Less;
    Read16Inverts(a);
    Read16Inverts(b);
    Read16Order(Be16(a), Be16(b));
  }

  lemma Read16Order(x: Name, y: Name)
    requires |x| == |y| == 2
    ensures Less(x, y) <==> Read16(x) < Read16(y)
  {
    var p := CommonPrefix(x, y);
    assert forall i | 0 <= i < p :: x[i] == x[..p][i] == y[..p][i] == y[i];
  }

  // ---------- one entry on disk ----------

  function Zeros(n: nat): (r: Name)
    ensures |r| == n && forall i | 0 <= i < n :: r[i] == 0
  {
    seq(n, _ => 0)
  }

  function Fixed(rawsz: nat): nat { 42 + rawsz }

  /** An entry as it stands on disk: the mode inside the stat block, and a name of full length. */
  function OnDisk(e: Entry, rawsz: nat): (r: Entry)
    requires e.mode < 0x1_0000_0000 && |e.oid| <= rawsz && |e.stat| == 40
    ensures |r.stat| == 40 && |r.oid| == rawsz && r.mode == e.mode && r.name == e.name && r.stage == e.stage
  {
    e.(stat := e.stat[..24] + Be32(e.mode) + e.stat[28..], oid := e.oid + Zeros(rawsz - |e.oid|))
  }

  function Flags(e: Entry): (v: nat)
    requires e.stage <= 3
    ensures v < 0x4000
  {
    e.stage * 4096 + if |e.name| > 0xfff then 0xfff else |e.name|
  }

  /** The terminator and the padding up to a multiple of eight. */
  function Padding(n: nat): (k: nat)
    ensures 1 <= k <= 8 && (n + k) % 8 == 0
  {
    8 - n % 8
  }

  ghost function Head(e: Entry, rawsz: nat, marks: nat): (r: Name)
    requires e.Valid(rawsz) && marks < 4
    ensures |r| == Fixed(rawsz)
  {
    OnDisk(e, rawsz).stat + OnDisk(e, rawsz).oid + Be16(marks * 0x4000 + Flags(e))
  }

  /** An entry with the two marks that the writer leaves clear: above, that it is assumed unchanged; below, that more
      flags follow. */
  ghost function Marked(e: Entry, rawsz: nat, marks: nat): (r: Name)
    requires e.Valid(rawsz) && marks < 4
    ensures |r| == (Fixed(rawsz) + |e.name| + 8) / 8 * 8
  {
    Head(e, rawsz, marks) + e.name + Zeros(Padding(Fixed(rawsz) + |e.name|))
  }

  ghost function Encoded(e: Entry, rawsz: nat): (r: Name)
    requires e.Valid(rawsz)
    ensures |r| == (Fixed(rawsz) + |e.name| + 8) / 8 * 8
  {
    Marked(e, rawsz, 0)
  }

  // ---------- reading one entry ----------

  datatype Parsed = Parsed(entry: Entry, next: nat)

  /** The first NUL at or after `at`. */
  function FindNul(data: Name, at: nat): (r: Option<nat>)
    requires at <= |data|
    ensures r.Some? ==> at <= r.value < |data| && data[r.value] == 0 && NulFree(data[at..r.value])
    ensures r.None? ==> NulFree(data[at..])
    decreases |data| - at
  {
    if at == |data| then None
    else if data[at] == 0 then Some(at)
    else FindNul(data, at + 1)
  }

  function ReadEntry(data: Name, pos: nat, rawsz: nat): Option<Parsed>
  {
    var off := pos + Fixed(rawsz);
    if off > |data| then None
    else
      var flags := Read16(data[off - 2..off]);
      var short := flags % 4096;
      if flags / 0x4000 % 2 != 0 then None
      else
        var end := if short < 0xfff then (if off + short > |data| then None else Some(off + short))
              else FindNul(data, off);
        if end.None? then None
        else
          var name := data[off..end.value];
          Some(Parsed(Entry(Read32(data[pos + 24..pos + 28]), data[pos + 40..pos + 40 + rawsz], name, flags / 4096 % 4,
                            data[pos..pos + 40]),
                      pos + (Fixed(rawsz) + |name| + 8) / 8 * 8))
  }

  /** How much of an entry a reader must see: a long name is known only by its terminator. */
  function Legible(e: Entry, rawsz: nat): nat
  {
    Fixed(rawsz) + |e.name| + if |e.name| >= 0xfff then 1 else 0
  }

  /** Cut a file anywhere: an entry is read back whole if its name is all there, and refused otherwise. */
  lemma EntryReads(before: Name, e: Entry, after: Name, rawsz: nat, k: nat)
    requires e.Valid(rawsz) && |before| <= k <= |before + Encoded(e, rawsz) + after|
    ensures ReadEntry((before + Encoded(e, rawsz) + after)[..k], |before|, rawsz)
              == if |before| + Legible(e, rawsz) <= k
                 then Some(Parsed(OnDisk(e, rawsz), |before| + |Encoded(e, rawsz)|)) else None
  {
    hide Marked;
    MarkedReads(before, e, after, rawsz, 0, k);
  }

  /** An entry that says that more flags follow is refused, as version 2 has none; the other mark changes nothing. */
  lemma MarkedReads(before: Name, e: Entry, after: Name, rawsz: nat, marks: nat, k: nat)
    requires e.Valid(rawsz) && marks < 4 && |before| <= k <= |before + Marked(e, rawsz, marks) + after|
    ensures ReadEntry((before + Marked(e, rawsz, marks) + after)[..k], |before|, rawsz)
              == if marks % 2 == 0 && |before| + Legible(e, rawsz) <= k
                 then Some(Parsed(OnDisk(e, rawsz), |before| + |Marked(e, rawsz, marks)|)) else None
  {
    hide Marked, Head, OnDisk, Read16, Read32, FindNul, Zeros, Be16, Be32;
    if |before| + Fixed(rawsz) <= k {
      FlagsRead(e, marks);
      HeadReads(before, e, after, rawsz, marks, k);
      NameReads(before, e, after, rawsz, marks, k);
    }
  }

  lemma Middle(before: Name, part: Name, rest: Name, k: nat)
    requires |before| + |part| <= k <= |before + part + rest|
    ensures (before + part + rest)[..k][|before|..|before| + |part|] == part
  {
  }

  lemma Within(data: Name, pos: nat, off: nat, a: nat, b: nat)
    requires pos <= off <= |data| && a <= b && pos + b <= off
    ensures data[pos..off][a..b] == data[pos + a..pos + b]
  {
    assert forall i | 0 <= i < b - a :: data[pos..off][a..b][i] == data[pos..off][a + i] == data[pos + (a + i)];
  }

  lemma HeadParts(e: Entry, rawsz: nat, marks: nat)
    requires e.Valid(rawsz) && marks < 4
    ensures var h, d := Head(e, rawsz, marks), OnDisk(e, rawsz);
            && h[40 + rawsz..42 + rawsz] == Be16(marks * 0x4000 + Flags(e))
            && h[0..40] == d.stat && h[40..40 + rawsz] == d.oid
            && h[24..28] == Be32(e.mode)
  {
    hide Be16, Be32, Flags;
  }

  lemma HeadReads(before: Name, e: Entry, after: Name, rawsz: nat, marks: nat, k: nat)
    requires e.Valid(rawsz) && marks < 4 && |before| + Fixed(rawsz) <= k <= |before + Marked(e, rawsz, marks) + after|
    ensures var data, pos, off := (before + Marked(e, rawsz, marks) + after)[..k], |before|, |before| + Fixed(rawsz);
            && Read16(data[off - 2..off]) == marks * 0x4000 + Flags(e) && Read32(data[pos + 24..pos + 28]) == e.mode
            && data[pos..pos + 40] == OnDisk(e, rawsz).stat && data[pos + 40..pos + 40 + rawsz] == OnDisk(e, rawsz).oid
  {
    hide Head, OnDisk, Zeros, Be16, Be32, Read16, Read32, Flags;
    var data, pos, off := (before + Marked(e, rawsz, marks) + after)[..k], |before|, |before| + Fixed(rawsz);
    var rest := e.name + Zeros(Padding(Fixed(rawsz) + |e.name|)) + after;
    assert before + Marked(e, rawsz, marks) + after == before + Head(e, rawsz, marks) + rest;
    Middle(before, Head(e, rawsz, marks), rest, k);
    HeadParts(e, rawsz, marks);
    Within(data, pos, off, 40 + rawsz, 42 + rawsz);
    Within(data, pos, off, 0, 40);
    Within(data, pos, off, 40, 40 + rawsz);
    Within(data, pos, off, 24, 28);
    Read32Inverts(e.mode);
    Read16Inverts(marks * 0x4000 + Flags(e));
  }

  lemma FlagsRead(e: Entry, marks: nat)
    requires e.stage <= 3 && marks < 4
    ensures var v := marks * 0x4000 + Flags(e);
            && v / 0x4000 % 2 == marks % 2 && v / 4096 % 4 == e.stage
            && v % 4096 == if |e.name| > 0xfff then 0xfff else |e.name|
  {
  }

  lemma {:induction false} FindNulIs(data: Name, at: nat, end: nat)
    requires at <= end <= |data| && (forall j | at <= j < end :: data[j] != 0) && (end < |data| ==> data[end] == 0)
    ensures FindNul(data, at) == if end < |data| then Some(end) else None
    decreases end - at
  {
    if at < end {
      FindNulIs(data, at + 1, end);
    }
  }

  /** The bytes after a part of a file that was cut. */
  lemma After(a: Name, name: Name, pad: Name, after: Name, k: nat)
    requires |a| <= k <= |a + (name + pad + after)| && |pad| > 0
    ensures var data := (a + (name + pad + after))[..k];
            && (forall i | 0 <= i < |name| && |a| + i < k :: data[|a| + i] == name[i])
            && (|a| + |name| < k ==> data[|a| + |name|] == pad[0])
  {
  }

  lemma NameIsFree(e: Entry, rawsz: nat)
    requires e.Valid(rawsz)
    ensures forall i | 0 <= i < |e.name| :: e.name[i] != 0
  {
  }

  lemma NameReads(before: Name, e: Entry, after: Name, rawsz: nat, marks: nat, k: nat)
    requires e.Valid(rawsz) && marks < 4 && |before| + Fixed(rawsz) <= k <= |before + Marked(e, rawsz, marks) + after|
    ensures var data, off := (before + Marked(e, rawsz, marks) + after)[..k], |before| + Fixed(rawsz);
            && (off + |e.name| <= k ==> data[off..off + |e.name|] == e.name)
            && FindNul(data, off) == if off + |e.name| < k then Some(off + |e.name|) else None
  {
    hide Head, Zeros, FindNul, OnDisk, Padding, Fixed, NulFree;
    NameIsFree(e, rawsz);
    var pad := Zeros(Padding(Fixed(rawsz) + |e.name|));
    assert before + Marked(e, rawsz, marks) + after == (before + Head(e, rawsz, marks)) + (e.name + pad + after);
    NameAt(before + Head(e, rawsz, marks), e.name, pad, after, k);
  }

  /** A name behind what comes before it, up to the NUL after it, in a file that was cut. */
  lemma NameAt(front: Name, name: Name, pad: Name, after: Name, k: nat)
    requires |front| <= k <= |front + (name + pad + after)| && |pad| > 0 && pad[0] == 0
    requires forall i | 0 <= i < |name| :: name[i] != 0
    ensures var data, off := (front + (name + pad + after))[..k], |front|;
            && (off + |name| <= k ==> data[off..off + |name|] == name)
            && FindNul(data, off) == if off + |name| < k then Some(off + |name|) else None
  {
    hide FindNul;
    var data, off := (front + (name + pad + after))[..k], |front|;
    After(front, name, pad, after, k);
    var end := if off + |name| < k then off + |name| else k;
    forall j | off <= j < end
      ensures data[j] != 0
    {
      assert data[off + (j - off)] == name[j - off];
    }
    FindNulIs(data, off, end);
  }
}
