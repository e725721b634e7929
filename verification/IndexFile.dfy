/** Whole index files: writing one, reading it back, and salvaging what is left of one. */
module IndexFile {
  import opened Bytes
  import opened IndexCodec

  ghost predicate AllValid(entries: seq<Entry>, rawsz: nat)
  {
    forall i | 0 <= i < |entries| :: entries[i].Valid(rawsz)
  }

  ghost function Body(entries: seq<Entry>, rawsz: nat): Name
    requires AllValid(entries, rawsz)
  {
    if entries == [] then [] else Encoded(entries[0], rawsz) + Body(entries[1..], rawsz)
  }

  ghost function AllOnDisk(entries: seq<Entry>, rawsz: nat): (r: seq<Entry>)
    requires AllValid(entries, rawsz)
    ensures |r| == |entries|
  {
    seq(|entries|, i requires 0 <= i < |entries| => OnDisk(entries[i], rawsz))
  }

  const Signature: Name := [68, 73, 82, 67]

  function Header(count: nat): (h: Name)
    requires count < 0x1_0000_0000
    ensures |h| == 12
  {
    Signature + Be32(2) + Be32(count)
  }

  ghost function Unsigned(entries: seq<Entry>, rawsz: nat): Name
    requires AllValid(entries, rawsz) && |entries| < 0x1_0000_0000
  {
    Header(|entries|) + Body(entries, rawsz)
  }

  // ---------- the entry loops ----------

  /** The entry loop of ReadIndex. */
  function ReadEntries(data: Name, pos: nat, count: nat, rawsz: nat): (r: Option<(seq<Entry>, nat)>)
    ensures r.Some? ==> |r.value.0| == count && pos <= r.value.1
    decreases count
  {
    if count == 0 then Some(([], pos))
    else match ReadEntry(data, pos, rawsz)
      case None => None
      case Some(p) =>
        match ReadEntries(data, p.next, count - 1, rawsz)
        case None => None
        case Some(rest) => Some(([p.entry] + rest.0, rest.1))
  }

  /** The entry loop of SalvageIndex: as far as it goes. */
  function Salvaged(data: Name, pos: nat, count: nat, rawsz: nat): seq<Entry>
    decreases count
  {
    if count == 0 || pos >= |data| then []
    else match ReadEntry(data, pos, rawsz)
      case None => []
      case Some(p) => [p.entry] + Salvaged(data, p.next, count - 1, rawsz)
  }

  /** How many entries are legible in the first k bytes, from a first one that starts at pos. */
  ghost function LegibleCount(entries: seq<Entry>, pos: nat, rawsz: nat, k: nat): (n: nat)
    requires AllValid(entries, rawsz)
    ensures n <= |entries|
    decreases |entries|
  {
    if entries == [] || pos + Legible(entries[0], rawsz) > k then 0
    else 1 + LegibleCount(entries[1..], pos + |Encoded(entries[0], rawsz)|, rawsz, k)
  }

  /** Reading a whole body gives back every entry as it stands on disk, and stops at its end. */
  lemma {:induction false} BodyReads(before: Name, entries: seq<Entry>, after: Name, rawsz: nat)
    requires AllValid(entries, rawsz)
    ensures ReadEntries(before + Body(entries, rawsz) + after, |before|, |entries|, rawsz)
              == Some((AllOnDisk(entries, rawsz), |before| + |Body(entries, rawsz)|))
    decreases |entries|
  {
    hide Encoded, OnDisk, ReadEntry;
    var full := before + Body(entries, rawsz) + after;
    if entries != [] {
      var e, tail := Encoded(entries[0], rawsz), Body(entries[1..], rawsz);
      assert full == before + e + (tail + after) && full == (before + e) + tail + after && full[..|full|] == full;
      LegibleWithin(entries[0], rawsz);
      EntryReads(before, entries[0], tail + after, rawsz, |full|);
      BodyReads(before + e, entries[1..], after, rawsz);
      assert AllOnDisk(entries, rawsz) == [OnDisk(entries[0], rawsz)] + AllOnDisk(entries[1..], rawsz);
    }
  }

  lemma LegibleWithin(e: Entry, rawsz: nat)
    requires e.Valid(rawsz)
    ensures Legible(e, rawsz) <= |Encoded(e, rawsz)|
  {
  }

  /** Salvaging a file that was cut anywhere gives back, in order, exactly the entries whose names are all there. */
  lemma {:induction false} BodySalvages(before: Name, entries: seq<Entry>, after: Name, rawsz: nat, k: nat)
    requires AllValid(entries, rawsz) && k <= |before + Body(entries, rawsz) + after|
    ensures Salvaged((before + Body(entries, rawsz) + after)[..k], |before|, |entries|, rawsz)
              == AllOnDisk(entries, rawsz)[..LegibleCount(entries, |before|, rawsz, k)]
    decreases |entries|
  {
    hide Encoded, OnDisk, ReadEntry, Legible, Body;
    var full := before + Body(entries, rawsz) + after;
    if entries != [] {
      LegibleSome(entries[0], rawsz);
      BodyHead(entries, rawsz);
      if |before| < k {
        var e, tail := Encoded(entries[0], rawsz), Body(entries[1..], rawsz);
        assert full == before + e + (tail + after) && full == (before + e) + tail + after;
        EntryReads(before, entries[0], tail + after, rawsz, k);
        BodySalvages(before + e, entries[1..], after, rawsz, k);
        assert AllOnDisk(entries, rawsz) == [OnDisk(entries[0], rawsz)] + AllOnDisk(entries[1..], rawsz);
      }
    }
  }

  lemma BodyHead(entries: seq<Entry>, rawsz: nat)
    requires entries != [] && AllValid(entries, rawsz)
    ensures Body(entries, rawsz) == Encoded(entries[0], rawsz) + Body(entries[1..], rawsz)
  {
    hide Encoded;
  }

  lemma LegibleSome(e: Entry, rawsz: nat)
    ensures Legible(e, rawsz) > 0
  {
  }

  // ---------- the order ----------

  ghost predicate Before(a: Entry, b: Entry)
  {
    if a.name != b.name then Less(a.name, b.name) else a.stage < b.stage
  }

  ghost predicate Ordered(s: seq<Entry>)
  {
    forall i, j | 0 <= i < j < |s| :: !Before(s[j], s[i])
  }

  lemma NotBeforeTransitive(a: Entry, b: Entry, c: Entry)
    requires !Before(b, a) && !Before(c, b)
    ensures !Before(c, a)
  {
    if a.name != b.name { LessTotal(a.name, b.name); }
    if b.name != c.name { LessTotal(b.name, c.name); }
    if a.name != c.name { LessTotal(a.name, c.name); }
    if a.name != b.name && b.name != c.name { LessTransitive(a.name, b.name, c.name); }
    LessIrreflexive(a.name);
  }

  lemma {:induction false} NeighboursEnough(s: seq<Entry>, i: nat, j: nat)
    requires i < j < |s| && forall k | 0 < k < |s| :: !Before(s[k], s[k - 1])
    ensures !Before(s[j], s[i])
    decreases j
  {
    if i < j - 1 {
      NeighboursEnough(s, i, j - 1);
      NotBeforeTransitive(s[i], s[j - 1], s[j]);
    }
  }

  /** The entries with the name and stage of x, in order. */
  ghost function Group(s: seq<Entry>, x: Entry): seq<Entry>
  {
    if s == [] then []
    else
      var n := |s| - 1;
      Group(s[..n], x) + if s[n].name == x.name && s[n].stage == x.stage then [s[n]] else []
  }

  lemma {:induction false} GroupAppend(a: seq<Entry>, b: seq<Entry>, x: Entry)
    ensures Group(a + b, x) == Group(a, x) + Group(b, x)
    decreases |b|
  {
    if b == [] {
      assert a + b == a;
    } else {
      var n := |b| - 1;
      GroupAppend(a, b[..n], x);
      assert (a + b)[..|a| + n] == a + b[..n];
    }
  }

  lemma {:induction false} GroupNone(s: seq<Entry>, x: Entry)
    requires forall i | 0 <= i < |s| :: s[i].name != x.name || s[i].stage != x.stage
    ensures Group(s, x) == []
    decreases |s|
  {
    if s != [] {
      GroupNone(s[..|s| - 1], x);
    }
  }

  /** What a stable sort by name and stage makes: an ordered permutation that keeps the order of equal ones. */
  ghost predicate SortedFrom(out: seq<Entry>, entries: seq<Entry>)
  {
    Ordered(out) && multiset(out) == multiset(entries) && forall x :: Group(out, x) == Group(entries, x)
  }

  method StableSort(entries: seq<Entry>) returns (out: seq<Entry>)
    ensures SortedFrom(out, entries)
  {
    hide Group, Before;
    out := [];
    EmptyGroups();
    for k := 0 to |entries|
      invariant SortedFrom(out, entries[..k])
    {
      var e := entries[k];
      var j := |out|;
      while j > 0 && IsBefore(e, out[j - 1])
        invariant 0 <= j <= |out| && forall i | j <= i < |out| :: Before(e, out[i])
      {
        j := j - 1;
      }
      Inserted(out, entries[..k], e, j);
      assert entries[..k + 1] == entries[..k] + [e];
      out := out[..j] + [e] + out[j..];
    }
    assert entries[..|entries|] == entries;
  }

  predicate IsBefore(a: Entry, b: Entry)
    ensures IsBefore(a, b) <==> Before(a, b)
  {
    if a.name != b.name then Less(a.name, b.name) else a.stage < b.stage
  }

  lemma EmptyGroups()
    ensures forall x :: Group([], x) == []
  {
  }

  lemma {:induction false} Inserted(out: seq<Entry>, entries: seq<Entry>, e: Entry, j: nat)
    requires SortedFrom(out, entries) && j <= |out| && forall i | j <= i < |out| :: Before(e, out[i])
    requires j > 0 ==> !Before(e, out[j - 1])
    ensures SortedFrom(out[..j] + [e] + out[j..], entries + [e])
  {
    hide Group, Before, Ordered;
    InsertedOrder(out, e, j);
    InsertedMembers(out, e, j);
    forall x
      ensures Group(out[..j] + [e] + out[j..], x) == Group(entries + [e], x)
    {
      InsertedGroup(out, e, j, x);
      GroupAppend(entries, [e], x);
    }
  }

  lemma InsertedMembers(out: seq<Entry>, e: Entry, j: nat)
    requires j <= |out|
    ensures multiset(out[..j] + [e] + out[j..]) == multiset(out) + multiset{e}
  {
    assert out == out[..j] + out[j..];
    assert multiset(out) == multiset(out[..j]) + multiset(out[j..]);
  }

  lemma InsertedOrder(out: seq<Entry>, e: Entry, j: nat)
    requires Ordered(out) && j <= |out| && forall i | j <= i < |out| :: Before(e, out[i])
    requires j > 0 ==> !Before(e, out[j - 1])
    ensures Ordered(out[..j] + [e] + out[j..])
  {
    hide Before;
    forall i | 0 <= i < j
      ensures !Before(e, out[i])
    {
      if i < j - 1 {
        NotBeforeTransitive(out[i], out[j - 1], e);
      }
    }
    forall i | j <= i < |out|
      ensures !Before(out[i], e)
    {
      BeforeIsAsymmetric(e, out[i]);
    }
  }

  lemma InsertedGroup(out: seq<Entry>, e: Entry, j: nat, x: Entry)
    requires j <= |out| && forall i | j <= i < |out| :: Before(e, out[i])
    ensures Group(out[..j] + [e] + out[j..], x) == Group(out, x) + Group([e], x)
  {
    hide Group, Before;
    GroupAppend(out[..j] + [e], out[j..], x);
    GroupAppend(out[..j], [e], x);
    GroupAppend(out[..j], out[j..], x);
    assert out == out[..j] + out[j..];
    OneOrOther(out[j..], e, x);
  }

  lemma BeforeIsAsymmetric(a: Entry, b: Entry)
    requires Before(a, b)
    ensures !Before(b, a)
  {
    if a.name != b.name {
      LessTotal(a.name, b.name);
    }
  }

  lemma OneOrOther(tail: seq<Entry>, e: Entry, x: Entry)
    requires forall i | 0 <= i < |tail| :: Before(e, tail[i])
    ensures Group(tail, x) == [] || Group([e], x) == []
  {
    if e.name == x.name && e.stage == x.stage {
      LessIrreflexive(e.name);
      GroupNone(tail, x);
    }
  }

  /** checkEntryOrder. */
  datatype OrderError = UnorderedEntries | MultipleEntries(name: Name) | UnorderedStages(name: Name)

  method CheckEntryOrder(entries: seq<Entry>) returns (r: Option<OrderError>)
    ensures r == None <==> Ordered(entries) && Resolved(entries)
  {
    var i := 1;
    while i < |entries|
      invariant 1 <= i && forall k | 0 < k < i && k < |entries| :: Follows(entries[k - 1], entries[k])
    {
      var prev, next := entries[i - 1], entries[i];
      FollowsIs(prev, next);
      if Less(next.name, prev.name) {
        NotFollowing(entries, i);
        return Some(UnorderedEntries);
      } else if prev.name == next.name {
        if prev.stage == 0 {
          NotFollowing(entries, i);
          return Some(MultipleEntries(prev.name));
        }
        if prev.stage > next.stage {
          NotFollowing(entries, i);
          return Some(UnorderedStages(prev.name));
        }
      }
      i := i + 1;
    }
    AllFollow(entries);
    return None;
  }

  /** No path has a merged entry and another one. */
  ghost predicate Resolved(entries: seq<Entry>)
  {
    forall i, j | 0 <= i < j < |entries| && entries[i].name == entries[j].name :: entries[i].stage != 0
  }

  ghost predicate Follows(prev: Entry, next: Entry)
  {
    !Before(next, prev) && (prev.name == next.name ==> prev.stage != 0)
  }

  lemma FollowsIs(prev: Entry, next: Entry)
    ensures Follows(prev, next) <==>
      !Less(next.name, prev.name) && (prev.name == next.name ==> prev.stage != 0 && prev.stage <= next.stage)
  {
    LessIrreflexive(prev.name);
  }

  lemma NotFollowing(entries: seq<Entry>, i: nat)
    requires 0 < i < |entries| && !Follows(entries[i - 1], entries[i])
    ensures !(Ordered(entries) && Resolved(entries))
  {
  }

  lemma AllFollow(entries: seq<Entry>)
    requires forall k | 0 < k < |entries| :: Follows(entries[k - 1], entries[k])
    ensures Ordered(entries) && Resolved(entries)
  {
    forall i, j | 0 <= i < j < |entries|
      ensures !Before(entries[j], entries[i]) && (entries[i].name == entries[j].name ==> entries[i].stage != 0)
    {
      NeighboursEnough(entries, i, j);
      assert Follows(entries[i], entries[i + 1]);
      if entries[i].name == entries[j].name && i + 1 < j {
        NeighboursEnough(entries, i + 1, j);
        if entries[i].name != entries[i + 1].name {
          LessTotal(entries[i].name, entries[i + 1].name);
        }
      }
    }
  }

  // ---------- whole files ----------

  /** What the checksum of a file is made with: any function to names of the algorithm's length. */
  datatype Algo = Algo(rawsz: nat, sum: Name -> Name)
  {
    ghost predicate Valid()
    {
      forall b: Name :: |sum(b)| == rawsz
    }
  }

  ghost function FileOf(entries: seq<Entry>, algo: Algo): Name
    requires AllValid(entries, algo.rawsz) && |entries| < 0x1_0000_0000
  {
    Unsigned(entries, algo.rawsz) + algo.sum(Unsigned(entries, algo.rawsz))
  }

  /** WriteIndex: the bytes it puts into the file, for the entries in sorted order. */
  method WriteIndex(entries: seq<Entry>, algo: Algo) returns (buf: Name, sorted: seq<Entry>)
    requires algo.Valid() && AllValid(entries, algo.rawsz) && |entries| < 0x1_0000_0000
    ensures SortedFrom(sorted, entries) && AllValid(sorted, algo.rawsz) && |sorted| == |entries|
    ensures buf == FileOf(sorted, algo)
  {
    hide Group, Before, Ordered, Entry.Valid, OnDisk, Encoded, Header, Body;
    NoBody(algo.rawsz);
    sorted := StableSort(entries);
    SameMembers(sorted, entries, algo.rawsz);
    buf := Header(|sorted|);
    for k := 0 to |sorted|
      invariant buf == Header(|sorted|) + Body(sorted[..k], algo.rawsz)
    {
      buf := WriteEntry(buf, sorted[k], algo.rawsz);
      BodyStep(sorted, k, algo.rawsz);
    }
    assert sorted[..|sorted|] == sorted;
    buf := buf + algo.sum(buf);
  }

  lemma NoBody(rawsz: nat)
    ensures Body([], rawsz) == []
  {
  }

  /** One entry at the end of a buffer, with the padding loop. */
  method WriteEntry(buf: Name, e: Entry, rawsz: nat) returns (r: Name)
    requires e.Valid(rawsz)
    ensures r == buf + Encoded(e, rawsz)
  {
    hide Be32, Be16;
    var start := |buf|;
    var stat := e.stat[..24] + Be32(e.mode) + e.stat[28..];
    var nameLen := if |e.name| > 0xfff then 0xfff else |e.name|;
    r := buf + stat + (e.oid + Zeros(rawsz - |e.oid|)) + Be16(e.stage * 4096 + nameLen) + e.name + [0];
    var n := 1;
    ghost var fixed := Head(e, rawsz, 0) + e.name;
    assert r == buf + fixed + Zeros(1);
    while (|r| - start) % 8 != 0
      invariant 1 <= n <= Padding(|fixed|) && r == buf + fixed + Zeros(n)
      decreases Padding(|fixed|) - n
    {
      NotPadded(|fixed|, n);
      r := r + [0];
      n := n + 1;
    }
    NotPadded(|fixed|, n);
  }

  /** The padding is the first length that fits. */
  lemma NotPadded(len: nat, n: nat)
    requires 1 <= n <= Padding(len)
    ensures (len + n) % 8 == 0 <==> n == Padding(len)
  {
  }

  lemma SameMembers(a: seq<Entry>, b: seq<Entry>, rawsz: nat)
    requires multiset(a) == multiset(b) && AllValid(b, rawsz)
    ensures AllValid(a, rawsz) && |a| == |b|
  {
    hide Entry.Valid;
    assert |multiset(a)| == |multiset(b)|;
    forall i | 0 <= i < |a|
      ensures a[i].Valid(rawsz)
    {
      assert a[i] in multiset(b);
    }
  }

  lemma BodyStep(list: seq<Entry>, k: nat, rawsz: nat)
    requires AllValid(list, rawsz) && k < |list|
    ensures Body(list[..k + 1], rawsz) == Body(list[..k], rawsz) + Encoded(list[k], rawsz)
  {
    assert list[..k + 1] == list[..k] + [list[k]];
    BodyAppend(list[..k], list[k], rawsz);
  }

  lemma {:induction false} BodyAppend(list: seq<Entry>, e: Entry, rawsz: nat)
    requires AllValid(list, rawsz) && e.Valid(rawsz)
    ensures AllValid(list + [e], rawsz) && Body(list + [e], rawsz) == Body(list, rawsz) + Encoded(e, rawsz)
    decreases |list|
  {
    hide Encoded;
    if list == [] {
      assert list + [e] == [e] && Body([], rawsz) == [];
      assert Body([e], rawsz) == Encoded(e, rawsz) + Body([e][1..], rawsz);
    } else {
      BodyAppend(list[1..], e, rawsz);
      assert (list + [e])[1..] == list[1..] + [e];
    }
  }

  datatype ReadError = TooSmall | BadSignature | BadVersion | BadChecksum | Corrupt | BadOrder(error: OrderError)

  datatype ReadResult = Read(entries: seq<Entry>, extensions: Name) | Failed(error: ReadError)

  predicate IsZero(b: Name) { forall i | 0 <= i < |b| :: b[i] == 0 }

  /** The entry loop: the first entry that will not parse refuses the whole file. */
  method ReadAll(data: Name, count: nat, rawsz: nat) returns (r: Option<(seq<Entry>, nat)>)
    ensures r == ReadEntries(data, 12, count, rawsz)
  {
    hide ReadEntry;
    var entries: seq<Entry>, pos: nat := [], 12;
    ghost var whole := ReadEntries(data, 12, count, rawsz);
    assert whole.Some? ==> [] + whole.value.0 == whole.value.0;
    for i := 0 to count
      invariant whole == match ReadEntries(data, pos, count - i, rawsz)
                         case None => None
                         case Some(p) => Some((entries + p.0, p.1))
    {
      var p := ReadEntry(data, pos, rawsz);
      if p.None? {
        return None;
      }
      ghost var rest := ReadEntries(data, p.value.next, count - i - 1, rawsz);
      assert rest.Some? ==> entries + ([p.value.entry] + rest.value.0) == entries + [p.value.entry] + rest.value.0;
      entries := entries + [p.value.entry];
      pos := p.value.next;
    }
    assert entries + [] == entries;
    return Some((entries, pos));
  }

  /** ReadIndex over a file of version 2, up to the extensions. A file that is not sealed is refused for the first thing
      that is wrong with it. */
  method ReadIndex(data: Name, algo: Algo) returns (r: ReadResult)
    requires algo.Valid()
    ensures !Sealed(data, algo) ==>
              r == Failed(if |data| < 12 + algo.rawsz then TooSmall
                          else if data[0..4] != Signature then BadSignature
                          else if Read32(data[4..8]) != 2 then BadVersion
                          else BadChecksum)
    ensures r.Read? ==> |data| >= 12 + algo.rawsz && Ordered(r.entries) && Resolved(r.entries)
                        && ReadEntries(data, 12, Read32(data[8..12]), algo.rawsz).Some?
                        && r.entries == ReadEntries(data, 12, Read32(data[8..12]), algo.rawsz).value.0
    ensures Sealed(data, algo) ==>
              match ReadEntries(data, 12, Read32(data[8..12]), algo.rawsz)
              case None => r == Failed(Corrupt)
              case Some(p) =>
                if Ordered(p.0) && Resolved(p.0)
                then r == Read(p.0, if p.1 <= |data| - algo.rawsz then data[p.1..|data| - algo.rawsz] else [])
                else r.Failed? && r.error.BadOrder?
  {
    hide Ordered, Resolved, ReadEntries, Read32;
    var rawsz := algo.rawsz;
    if |data| < 12 + rawsz {
      return Failed(TooSmall);
    }
    if data[0..4] != Signature {
      return Failed(BadSignature);
    }
    var version := Read32(data[4..8]);
    if version != 2 {
      return Failed(BadVersion);
    }
    var end: nat := |data| - rawsz;
    var trailer := data[end..];
    if !IsZero(trailer) && algo.sum(data[..end]) != trailer {
      return Failed(BadChecksum);
    }
    var count := Read32(data[8..12]);
    var all := ReadAll(data, count, rawsz);
    if all.None? {
      return Failed(Corrupt);
    }
    var (entries, pos) := all.value;
    var bad := CheckEntryOrder(entries);
    if bad.Some? {
      return Failed(BadOrder(bad.value));
    }
    return Read(entries, if pos <= end then data[pos..end] else []);
  }

  /** A file of version 2 whose checksum holds, or was left out. */
  ghost predicate Sealed(data: Name, algo: Algo)
  {
    && |data| >= 12 + algo.rawsz && data[0..4] == Signature && Read32(data[4..8]) == 2
    && var end := |data| - algo.rawsz;
       IsZero(data[end..]) || algo.sum(data[..end]) == data[end..]
  }

  lemma HeaderReads(count: nat, rest: Name)
    requires count < 0x1_0000_0000
    ensures var data := Header(count) + rest;
            data[0..4] == Signature && Read32(data[4..8]) == 2 && Read32(data[8..12]) == count
  {
    hide Be32, Read32;
    var data := Header(count) + rest;
    assert data[0..4] == Signature && data[4..8] == Be32(2) && data[8..12] == Be32(count);
    Read32Inverts(2);
    Read32Inverts(count);
  }

  /** What was written is sealed and reads back: every entry as it stands on disk, up to the checksum. */
  lemma FileReads(entries: seq<Entry>, algo: Algo)
    requires algo.Valid() && AllValid(entries, algo.rawsz) && |entries| < 0x1_0000_0000
    ensures var data := FileOf(entries, algo);
            && data[0..8] == [68, 73, 82, 67, 0, 0, 0, 2]
            && Sealed(data, algo) && Read32(data[8..12]) == |entries|
            && ReadEntries(data, 12, |entries|, algo.rawsz)
                   == Some((AllOnDisk(entries, algo.rawsz), |data| - algo.rawsz))
  {
    hide Sealed, Unsigned, Read32, ReadEntries, AllOnDisk, Entry.Valid;
    TrailerReads(entries, algo, algo.sum(Unsigned(entries, algo.rawsz)));
    FileStarts(entries, algo);
  }

  lemma FileStarts(entries: seq<Entry>, algo: Algo)
    requires AllValid(entries, algo.rawsz) && |entries| < 0x1_0000_0000
    ensures FileOf(entries, algo)[0..8] == [68, 73, 82, 67, 0, 0, 0, 2]
  {
    hide Body, Entry.Valid;
    assert Be32(2) == [0, 0, 0, 2];
  }

  /** With another trailer it reads the same, and is sealed exactly when the trailer is the checksum or is all zeros. */
  lemma TrailerReads(entries: seq<Entry>, algo: Algo, trailer: Name)
    requires algo.Valid() && AllValid(entries, algo.rawsz) && |entries| < 0x1_0000_0000 && |trailer| == algo.rawsz
    ensures var u := Unsigned(entries, algo.rawsz);
            var data := u + trailer;
            && (Sealed(data, algo) <==> trailer == algo.sum(u) || forall i | 0 <= i < |trailer| :: trailer[i] == 0)
            && Read32(data[8..12]) == |entries|
            && ReadEntries(data, 12, |entries|, algo.rawsz) == Some((AllOnDisk(entries, algo.rawsz), |u|))
  {
    hide Header, Read32, ReadEntries, AllOnDisk, Entry.Valid;
    var u := Unsigned(entries, algo.rawsz);
    var h, b, data := Header(|entries|), Body(entries, algo.rawsz), u + trailer;
    assert data == h + (b + trailer) && data == h + b + trailer;
    HeaderReads(|entries|, b + trailer);
    assert data[..|data| - algo.rawsz] == u && data[|data| - algo.rawsz..] == trailer;
    BodyReads(h, entries, trailer, algo.rawsz);
  }

  /** The order that the reader wants is the one that the writer makes; the one thing left is that no path has both a
      merged entry and another. */
  lemma OrderOnDisk(entries: seq<Entry>, rawsz: nat)
    requires AllValid(entries, rawsz)
    ensures Ordered(AllOnDisk(entries, rawsz)) <==> Ordered(entries)
    ensures Resolved(AllOnDisk(entries, rawsz)) <==> Resolved(entries)
  {
    hide OnDisk;
    var d := AllOnDisk(entries, rawsz);
    assert forall i | 0 <= i < |entries| :: d[i] == OnDisk(entries[i], rawsz);
    assert forall i, j | 0 <= i < |entries| && 0 <= j < |entries| ::
             Before(d[i], d[j]) <==> Before(entries[i], entries[j]);
  }

  /** A merged entry is the only one for its path, and is there once. */
  ghost predicate MergedAlone(m: multiset<Entry>)
  {
    forall x, y | x in m && y in m && x.name == y.name && x.stage == 0 :: x == y && m[x] == 1
  }

  lemma TwoOf(s: seq<Entry>, i: nat, j: nat)
    requires i < j < |s| && s[i] == s[j]
    ensures multiset(s)[s[i]] >= 2
  {
    assert s == s[..j] + s[j..];
    assert multiset(s) == multiset(s[..j]) + multiset(s[j..]);
    assert s[i] in s[..j] && s[j..][0] == s[i];
  }

  lemma FindTwo(s: seq<Entry>, x: Entry) returns (i: nat, j: nat)
    requires multiset(s)[x] >= 2
    ensures i < j < |s| && s[i] == x && s[j] == x
  {
    var k: nat :| k < |s| && s[k] == x;
    assert s == s[..k] + [x] + s[k + 1..];
    assert multiset(s) == multiset(s[..k]) + multiset{x} + multiset(s[k + 1..]);
    if x in s[..k] {
      i, j := var i: nat :| i < k && s[i] == x; i, k;
    } else {
      var d: nat :| d < |s[k + 1..]| && s[k + 1..][d] == x;
      i, j := k, k + 1 + d;
    }
  }

  /** In an ordered list, what the reader wants is a matter of which entries there are. */
  lemma ResolvedIsMerged(s: seq<Entry>)
    requires Ordered(s)
    ensures Resolved(s) <==> MergedAlone(multiset(s))
  {
    hide Before, Ordered;
    StagesOrdered(s);
    if Resolved(s) {
      forall x, y | x in multiset(s) && y in multiset(s) && x.name == y.name && x.stage == 0
        ensures x == y && multiset(s)[x] == 1
      {
        var i :| 0 <= i < |s| && s[i] == x;
        var j :| 0 <= j < |s| && s[j] == y;
        OnlyOnce(s, x);
      }
    }
    if MergedAlone(multiset(s)) {
      forall i, j | 0 <= i < j < |s| && s[i].name == s[j].name
        ensures s[i].stage != 0
      {
        assert s[i] in multiset(s) && s[j] in multiset(s);
        if s[i] == s[j] {
          TwoOf(s, i, j);
        }
      }
    }
  }

  lemma StagesOrdered(s: seq<Entry>)
    requires Ordered(s)
    ensures forall i, j | 0 <= i < j < |s| && s[i].name == s[j].name :: s[i].stage <= s[j].stage
  {
    forall i, j | 0 <= i < j < |s| && s[i].name == s[j].name
      ensures s[i].stage <= s[j].stage
    {
      assert !Before(s[j], s[i]);
    }
  }

  lemma OnlyOnce(s: seq<Entry>, x: Entry)
    requires Resolved(s) && x in multiset(s) && x.stage == 0
    ensures multiset(s)[x] == 1
  {
    if multiset(s)[x] >= 2 {
      var a, b := FindTwo(s, x);
    }
  }

  /** Reading back what was written: it is accepted exactly when no path has both a merged entry and another, and then
      it gives the sorted entries as they stand on disk, with no extensions. */
  method RoundTrip(entries: seq<Entry>, algo: Algo) returns (r: ReadResult, sorted: seq<Entry>)
    requires algo.Valid() && AllValid(entries, algo.rawsz) && |entries| < 0x1_0000_0000
    ensures SortedFrom(sorted, entries) && AllValid(sorted, algo.rawsz)
    ensures r.Read? <==> MergedAlone(multiset(entries))
    ensures r.Read? ==> r == Read(AllOnDisk(sorted, algo.rawsz), [])
    ensures r.Failed? ==> r.error.BadOrder?
  {
    hide FileOf, ReadEntries, Entry.Valid, Sealed, Read32, Resolved, Ordered, Group, AllOnDisk, MergedAlone;
    var buf;
    buf, sorted := WriteIndex(entries, algo);
    FileReads(sorted, algo);
    OrderOnDisk(sorted, algo.rawsz);
    SortedIsOrdered(sorted, entries);
    ResolvedIsMerged(sorted);
    r := ReadIndex(buf, algo);
  }

  lemma SortedIsOrdered(out: seq<Entry>, entries: seq<Entry>)
    requires SortedFrom(out, entries)
    ensures Ordered(out)
  {
  }

  /** SalvageIndex: the entries that a damaged file still shows. */
  method SalvageIndex(data: Name, rawsz: nat) returns (entries: seq<Entry>)
    ensures |data| >= 12 && data[0..4] == Signature && Read32(data[4..8]) == 2 ==>
              entries == Salvaged(data[..SalvageEnd(|data|, rawsz)], 12, Read32(data[8..12]), rawsz)
    ensures |data| < 12 || data[0..4] != Signature || Read32(data[4..8]) != 2 ==> entries == []
  {
    hide ReadEntry, Read32;
    entries := [];
    if |data| < 12 || data[0..4] != Signature || Read32(data[4..8]) != 2 {
      return;
    }
    var count := Read32(data[8..12]);
    var end: nat := if |data| > 12 + rawsz then |data| - rawsz else |data|;
    var pos: nat := 12;
    ghost var whole := Salvaged(data[..end], 12, count, rawsz);
    for i := 0 to count
      invariant whole == entries + Salvaged(data[..end], pos, count - i, rawsz)
    {
      if pos >= end {
        break;
      }
      var p := ReadEntry(data[..end], pos, rawsz);
      if p.None? {
        break;
      }
      ghost var rest := Salvaged(data[..end], p.value.next, count - i - 1, rawsz);
      assert entries + ([p.value.entry] + rest) == entries + [p.value.entry] + rest;
      entries := entries + [p.value.entry];
      pos := p.value.next;
    }
    assert entries + [] == entries;
  }

  /** The entries end before the checksum, when the file is long enough to hold one. */
  function SalvageEnd(len: nat, rawsz: nat): (k: nat)
    ensures k <= len
  {
    if len > 12 + rawsz then len - rawsz else len
  }

  /** Of a written file that was cut anywhere, the salvager gives back the first entries, as they stood on disk: those
      that are legible in what is left, and no others. */
  method SalvageTruncated(entries: seq<Entry>, algo: Algo, k: nat, data: Name) returns (out: seq<Entry>)
    requires algo.Valid() && AllValid(entries, algo.rawsz) && |entries| < 0x1_0000_0000
    requires k <= |FileOf(entries, algo)| && data == FileOf(entries, algo)[..k]
    ensures out <= AllOnDisk(entries, algo.rawsz)
    ensures forall i | 0 <= i < |entries| ::
              i < |out| <==>
                var start, name := 12 + |Body(entries[..i], algo.rawsz)|, |entries[i].name|;
                k >= 12 && start + 42 + algo.rawsz + name + (if name < 4095 then 0 else 1)
                             <= if k > 12 + algo.rawsz then k - algo.rawsz else k
    ensures k == |FileOf(entries, algo)| ==> out == AllOnDisk(entries, algo.rawsz)
  {
    hide ReadEntry, Read32, Header, Encoded, OnDisk, Legible, Salvaged;
    out := SalvageIndex(data, algo.rawsz);
    if k >= 12 {
      TruncatedSalvages(entries, algo, k);
      LegibleOnes(entries, algo.rawsz, SalvageEnd(k, algo.rawsz));
      if k == |FileOf(entries, algo)| {
        WholeIsLegible(entries, 12, algo.rawsz, SalvageEnd(k, algo.rawsz));
      }
    }
  }

  /** Which entries are legible, by where each starts. */
  lemma LegibleOnes(entries: seq<Entry>, rawsz: nat, k: nat)
    requires AllValid(entries, rawsz)
    ensures forall i | 0 <= i < |entries| ::
              i < LegibleCount(entries, 12, rawsz, k) <==>
                12 + |Body(entries[..i], rawsz)| + 42 + rawsz + |entries[i].name|
                  + (if |entries[i].name| < 4095 then 0 else 1) <= k
  {
    hide LegibleCount, Body;
    forall i | 0 <= i < |entries|
      ensures i < LegibleCount(entries, 12, rawsz, k) <==>
                12 + |Body(entries[..i], rawsz)| + Legible(entries[i], rawsz) <= k
    {
      LegibleOne(entries, 12, rawsz, k, i);
    }
  }

  lemma {:induction false} LegibleOne(entries: seq<Entry>, pos: nat, rawsz: nat, k: nat, i: nat)
    requires AllValid(entries, rawsz) && i < |entries|
    ensures i < LegibleCount(entries, pos, rawsz, k) <==>
              pos + |Body(entries[..i], rawsz)| + Legible(entries[i], rawsz) <= k
    decreases |entries|
  {
    hide Encoded, Legible;
    LegibleWithin(entries[0], rawsz);
    if i > 0 {
      assert entries[..i][1..] == entries[1..][..i - 1];
      LegibleOne(entries[1..], pos + |Encoded(entries[0], rawsz)|, rawsz, k, i - 1);
    }
  }

  lemma TruncatedSalvages(entries: seq<Entry>, algo: Algo, k: nat)
    requires algo.Valid() && AllValid(entries, algo.rawsz) && |entries| < 0x1_0000_0000
    requires 12 <= k <= |FileOf(entries, algo)|
    ensures var data, rawsz := FileOf(entries, algo)[..k], algo.rawsz;
            && data[0..4] == Signature && Read32(data[4..8]) == 2
            && Salvaged(data[..SalvageEnd(k, rawsz)], 12, Read32(data[8..12]), rawsz)
                 == AllOnDisk(entries, rawsz)[..LegibleCount(entries, 12, rawsz, SalvageEnd(k, rawsz))]
  {
    hide ReadEntry, Read32, Header, Body, OnDisk, Legible, Salvaged, LegibleCount, AllOnDisk, Entry.Valid;
    var rawsz := algo.rawsz;
    var h, b, s := Header(|entries|), Body(entries, rawsz), algo.sum(Unsigned(entries, rawsz));
    var full := FileOf(entries, algo);
    var data, end := full[..k], SalvageEnd(k, rawsz);
    assert full == h + (b + s) && full == h + b + s;
    HeaderReads(|entries|, b + s);
    assert data[0..4] == full[0..4] && data[4..8] == full[4..8] && data[8..12] == full[8..12];
    assert data[..end] == full[..end];
    BodySalvages(h, entries, s, rawsz, end);
  }

  /** A file that was not cut shows every entry. */
  lemma {:induction false} WholeIsLegible(entries: seq<Entry>, pos: nat, rawsz: nat, k: nat)
    requires AllValid(entries, rawsz) && pos + |Body(entries, rawsz)| <= k
    ensures LegibleCount(entries, pos, rawsz, k) == |entries|
    decreases |entries|
  {
    hide Encoded, Legible;
    if entries != [] {
      LegibleWithin(entries[0], rawsz);
      WholeIsLegible(entries[1..], pos + |Encoded(entries[0], rawsz)|, rawsz, k);
    }
  }
}
