/** What a packfile and its index say about each object, read off the bytes by offset: no layout, no walk. */
module PackMeaning {
  import opened Bytes
  import opened PackHeader
  import opened PackLayout
  import opened Forest
  import opened DeltaSpec
  import Delta

  // ---------- by offset ----------

  /** Where the base of the delta at an offset lies, if there is a delta and the index knows its base. */
  ghost function BaseAt(p: Pack, off: int): (r: Option<int>)
    requires p.Valid()
    ensures r.Some? ==> r.value in p.offsets
    ensures r.Some? ==> HeaderAt(p.data, p.rawsz, off).Some? && HeaderAt(p.data, p.rawsz, off).value.typ.IsDelta()
  {
    var h := HeaderAt(p.data, p.rawsz, off);
    if h.Some? && h.value.typ == OfsDelta && h.value.baseOff in p.offsets then Some(h.value.baseOff)
    else if h.Some? && h.value.typ == RefDelta then
      RefBaseIsWhole(p, off);
      var b := FindName(p, h.value.baseOID);
      if b.Some? then Some(p.offsets[b.value]) else None
    else None
  }

  /** Following the bases from an offset comes to an end after n of them. */
  ghost predicate Grounded(p: Pack, off: int, n: nat)
    requires p.Valid()
    decreases n
  {
    match BaseAt(p, off)
    case None => n == 0
    case Some(base) => n > 0 && Grounded(p, base, n - 1)
  }

  ghost predicate Hangs(p: Pack, off: int)
    requires p.Valid()
  {
    exists n: nat :: Grounded(p, off, n)
  }

  /** The object at an offset whose bases end after n: a whole object inflated, or a delta applied to its base. */
  ghost function Whole(p: Pack, inflate: (int, nat) -> Option<Data>, off: int, n: nat): Option<(ObjType, Data)>
    requires p.Valid()
    decreases n
  {
    var h := HeaderAt(p.data, p.rawsz, off);
    if h.None? then None
    else
      var raw := inflate(h.value.dataOff, h.value.size);
      if raw.None? then None
      else if !h.value.typ.IsDelta() then Some((h.value.typ, raw.value))
      else if n == 0 || BaseAt(p, off).None? then None
      else match Whole(p, inflate, BaseAt(p, off).value, n - 1)
        case None => None
        case Some((typ, base)) =>
          match Delta.Applied(base, raw.value) case None => None case Some(out) => Some((typ, out))
  }

  ghost function ContentAt(p: Pack, inflate: (int, nat) -> Option<Data>, off: int): Option<(ObjType, Data)>
    requires p.Valid() && Hangs(p, off)
  {
    var n: nat :| Grounded(p, off, n);
    Whole(p, inflate, off, n)
  }

  lemma {:induction false} GroundedOnce(p: Pack, off: int, a: nat, b: nat)
    requires p.Valid() && Grounded(p, off, a) && Grounded(p, off, b)
    ensures a == b
    decreases a
  {
    if a > 0 {
      GroundedOnce(p, BaseAt(p, off).value, a - 1, b - 1);
    }
  }

  // ---------- by index place ----------

  /** The entry that stands for place k of the index. */
  ghost function EntryOf(w: World, k: nat): (i: nat)
    requires w.Valid() && k < |w.p.oids|
    ensures i < |w.l.ents| && w.l.ents[i].idx == k && w.l.ents[i].off == w.p.offsets[k]
  {
    PlaceHasEntry(w, k);
    var i :| 0 <= i < |w.l.ents| && Places(w.l.ents)[i] == (w.p.offsets[k], k);
    i
  }

  lemma PlaceHasEntry(w: World, k: nat)
    requires w.Valid() && k < |w.p.oids|
    ensures exists i :: 0 <= i < |w.l.ents| && Places(w.l.ents)[i] == (w.p.offsets[k], k)
  {
    assert IndexPlaces(w.p)[k] in multiset(Places(w.l.ents));
  }

  /** Every entry stands for exactly one place. */
  lemma EntryHasPlace(w: World, i: nat)
    requires w.Valid() && i < |w.l.ents|
    ensures var k := w.l.ents[i].idx; k < |w.p.oids| && w.l.ents[i].off == w.p.offsets[k] && EntryOf(w, k) == i
  {
    hide Linkage, HeaderAt, Kids, BadOnes;
    var s, t := Places(w.l.ents), IndexPlaces(w.p);
    assert s[i] in multiset(t);
    var k := w.l.ents[i].idx;
    var j := EntryOf(w, k);
    assert s[j] == s[i] == t[k];
    if i < j { CountTwo(s, i, j); } else if j < i { CountTwo(s, j, i); }
    CountOnce(t, k);
  }

  lemma CountTwo(s: seq<(int, nat)>, i: nat, j: nat)
    requires i < j < |s| && s[i] == s[j]
    ensures multiset(s)[s[i]] >= 2
  {
    assert s == s[..j] + s[j..] && s[i] in s[..j] && s[j..][0] == s[j];
    assert multiset(s)[s[i]] == multiset(s[..j])[s[i]] + multiset(s[j..])[s[i]];
  }

  lemma CountOnce(t: seq<(int, nat)>, k: nat)
    requires k < |t| && forall m | 0 <= m < |t| :: t[m].1 == m
    ensures multiset(t)[t[k]] == 1
  {
    assert t == t[..k] + [t[k]] + t[k + 1..];
    assert t[k] !in t[..k] && t[k] !in t[k + 1..];
  }

  /** What there is to say about place k: the name that the index has for it, against what the bytes hold. */
  ghost function Told(w: World, k: nat): Event
    requires w.Valid() && k < |w.p.oids| && Hangs(w.p, w.p.offsets[k])
  {
    var off, oid, i := w.p.offsets[k], w.p.oids[k], EntryOf(w, k);
    var h := HeaderAt(w.p.data, w.p.rawsz, off);
    if h.Some? && h.value.typ == Blob && 0 < w.bigFileThreshold <= h.value.size && Unused(w, i) then
      match w.streamHash(h.value.dataOff, h.value.size, Blob)
      case None => CannotUnpack(i)
      case Some(got) => if got == oid then Object(i, oid, Blob, None) else Corrupt(i, oid)
    else
      match ContentAt(w.p, w.inflate, off)
      case None => CannotUnpack(i)
      case Some((typ, data)) => if w.hash(typ, data) == oid then Object(i, oid, typ, Some(data)) else Corrupt(i, oid)
  }

  /** No delta stands on the entry. */
  ghost predicate Unused(w: World, i: nat)
    requires w.Valid()
  {
    forall j | 0 <= j < |w.l.ents| :: w.Up()[j] != i
  }

  /** The checksum that the index has for place k is not that of the bytes up to the next entry. */
  predicate SumWrong(p: Pack, ents: seq<PackEntry>, crcs: seq<nat>, crc: seq<Byte> -> nat, k: nat, i: nat)
    requires k < |p.offsets| && i < |ents|
  {
    var off, end := p.offsets[k], if i + 1 < |ents| then ents[i + 1].off else |p.data| - p.rawsz;
    && 0 <= off <= end <= |p.data| && k < |crcs| && crc(p.data[off..end]) != crcs[k]
  }

  /** The bytes of an entry end where the next one starts, or at the trailer. */
  lemma NextOffset(w: World, i: nat)
    requires w.Valid() && i < |w.l.ents|
    ensures w.l.End(i) in w.p.offsets || (w.l.End(i) == |w.p.data| - w.p.rawsz
                                          && forall x | x in w.p.offsets :: x <= w.l.ents[i].off)
    ensures forall x | x in w.p.offsets :: !(w.l.ents[i].off < x < w.l.End(i))
  {
    hide Linkage, HeaderAt, Kids, BadOnes;
    OffsetsAre(w);
    var offs := Offs(w.l.ents);
    assert i + 1 < |offs| ==> offs[i + 1] in offs;
    forall x | x in w.p.offsets
      ensures x <= offs[i] || (i + 1 < |offs| && x >= offs[i + 1])
    {
      var j :| 0 <= j < |offs| && offs[j] == x;
    }
  }

  // ---------- the layout says the same ----------

  lemma OffsetsAre(w: World)
    requires w.Valid()
    ensures forall x :: x in Offs(w.l.ents) <==> x in w.p.offsets
  {
    hide Linkage, HeaderAt, Kids, BadOnes;
    var s, t := Places(w.l.ents), IndexPlaces(w.p);
    forall x
      ensures x in Offs(w.l.ents) <==> x in w.p.offsets
    {
      if x in Offs(w.l.ents) {
        var i :| 0 <= i < |s| && s[i].0 == x;
        assert s[i] in multiset(t);
      }
      if x in w.p.offsets {
        var k :| 0 <= k < |w.p.offsets| && w.p.offsets[k] == x;
        assert t[k] in multiset(s);
      }
    }
  }

  /** An entry's parent is the entry at the offset of its base, and it has one exactly when there is such a base. */
  lemma ParentIsBase(w: World, i: nat)
    requires w.Valid() && i < |w.l.ents|
    ensures w.Up()[i] >= 0 <==> BaseAt(w.p, w.l.ents[i].off).Some?
    ensures w.Up()[i] >= 0 ==> Some(w.l.ents[w.Up()[i]].off) == BaseAt(w.p, w.l.ents[i].off)
  {
    hide HeaderAt, FindName, Built;
    var p, offs, off := w.p, Offs(w.l.ents), w.l.ents[i].off;
    OffsetsAre(w);
    HeaderIsShort(p.data, p.rawsz, off);
    RefBaseIsWhole(p, off);
  }

  lemma {:induction false} ReachesIsGrounded(w: World, i: nat, n: nat)
    requires w.Valid() && i < |w.l.ents|
    ensures Reaches(w.Up(), i, n) <==> Grounded(w.p, w.l.ents[i].off, n)
    decreases n
  {
    hide Built, Pack.Valid, World.Up, BaseAt;
    ParentIsBase(w, i);
    if n > 0 && w.Up()[i] >= 0 {
      ReachesIsGrounded(w, w.Up()[i], n - 1);
    }
  }

  lemma RootedIsHanging(w: World, i: nat)
    requires w.Valid() && i < |w.l.ents|
    ensures Rooted(w.Up(), i) <==> Hangs(w.p, w.l.ents[i].off)
  {
    hide Built, Pack.Valid, World.Up, Grounded, Reaches;
    forall n: nat
      ensures Reaches(w.Up(), i, n) <==> Grounded(w.p, w.l.ents[i].off, n)
    {
      ReachesIsGrounded(w, i, n);
    }
  }

  lemma PackIsValid(w: World)
    requires w.Valid()
    ensures w.p.Valid() && |w.p.oids| == |w.p.offsets|
  {
  }

  /** What an entry says of itself is its header's. */
  lemma EntrySays(w: World, i: nat)
    requires w.Valid() && i < |w.l.ents|
    ensures var e, h := w.l.ents[i], HeaderAt(w.p.data, w.p.rawsz, w.l.ents[i].off);
            && (e.typ == Bad <==> h.None? || (h.value.typ.IsDelta() && w.Up()[i] < 0))
            && (e.typ != Bad ==> e.typ == h.value.typ && e.size == h.value.size && e.DataOff() == h.value.dataOff)
            && (e.typ != Bad ==> (e.typ.IsDelta() <==> w.Up()[i] >= 0))
  {
    hide HeaderAt, FindName, BasePos, Kids, BadOnes, Sorted, Layout.Shaped;
    HeaderIsShort(w.p.data, w.p.rawsz, w.l.ents[i].off);
    LinkageShape(w.p, Offs(w.l.ents), i);
    assert EntryRead(w.p, Offs(w.l.ents), i, w.l.ents[i]);
  }

  /** The content of an entry that hangs from a root is what its bytes hold, and its type is its root's. */
  lemma {:induction false} DecodeIsWhole(w: World, i: nat)
    requires w.Valid() && Rooted(w.Up(), i)
    ensures var d := Decode(w, i);
            Whole(w.p, w.inflate, w.l.ents[i].off, Depth(w.Up(), i))
              == if d.None? then None else Some((w.l.ents[RootOf(w.Up(), i)].typ, d.value))
    decreases Depth(w.Up(), i)
  {
    hide Built, Pack.Valid, World.Up, HeaderAt, BaseAt;
    DepthStep(w.Up(), i);
    EntrySays(w, i);
    ParentIsBase(w, i);
    hide Decode, RootOf, Rooted, Delta.Applied;
    DecodeStep(w, i);
    if w.Up()[i] >= 0 {
      DecodeIsWhole(w, w.Up()[i]);
    }
  }

  lemma ContentIsDecoded(w: World, i: nat)
    requires w.Valid() && Rooted(w.Up(), i)
    ensures Hangs(w.p, w.l.ents[i].off)
    ensures var d := Decode(w, i);
            ContentAt(w.p, w.inflate, w.l.ents[i].off)
              == if d.None? then None else Some((w.l.ents[RootOf(w.Up(), i)].typ, d.value))
  {
    hide Built, Pack.Valid, World.Up, Grounded, Reaches, Whole, Decode, RootOf;
    var off, n := w.l.ents[i].off, Depth(w.Up(), i);
    ReachesIsGrounded(w, i, n);
    DecodeIsWhole(w, i);
    var m: nat :| Grounded(w.p, off, m) && ContentAt(w.p, w.inflate, off) == Whole(w.p, w.inflate, off, m);
    GroundedOnce(w.p, off, m, n);
  }

  lemma StreamedMeans(w: World, i: nat)
    requires w.Valid() && i < |w.l.ents|
    ensures w.Streamed(i) <==>
      var h := HeaderAt(w.p.data, w.p.rawsz, w.l.ents[i].off);
      h.Some? && h.value.typ == Blob && w.bigFileThreshold > 0 && h.value.size >= w.bigFileThreshold && Unused(w, i)
  {
    hide HeaderAt, BasePos, FindName, BadOnes, Sorted, Layout.Shaped, EntryRead, Linkage;
    EntrySays(w, i);
    KidsAreExact(w.Up(), i, |w.l.ents|);
    var kids := w.l.Children(i);
    assert kids == Kids(w.Up(), i, |w.l.ents|);
    assert kids != [] ==> kids[0] in kids;
  }

  /** The one thing the walk has to say about an entry is what there is to say about its place. */
  lemma VerdictIsTold(w: World, k: nat)
    requires w.Valid() && k < |w.p.oids|
    ensures Rooted(w.Up(), EntryOf(w, k)) <==> Hangs(w.p, w.p.offsets[k])
    ensures Hangs(w.p, w.p.offsets[k]) ==> Verdict(w, EntryOf(w, k)) == Told(w, k)
  {
    hide Built, Pack.Valid, World.Up, Hangs, ContentAt, Decode, RootOf, HeaderAt, World.Streamed, Unused;
    var i := EntryOf(w, k);
    RootedIsHanging(w, i);
    StreamedMeans(w, i);
    EntrySays(w, i);
    if Rooted(w.Up(), i) {
      ContentIsDecoded(w, i);
    }
  }

  // ---------- a pack that was written ----------

  /** An object to put into a pack: whole, or as a delta on an earlier one, which is named by offset or by name. */
  datatype PackObject = PackObject(typ: ObjType, data: Data, base: Option<nat>, byName: bool)

  predicate BasesEarlier(objs: seq<PackObject>)
  {
    forall i | 0 <= i < |objs| && objs[i].base.Some? :: objs[i].base.value < i
  }

  /** The type of the object at the bottom. */
  ghost function BottomType(objs: seq<PackObject>, i: nat): ObjType
    requires i < |objs| && BasesEarlier(objs)
  {
    if objs[i].base.None? then objs[i].typ else BottomType(objs, objs[i].base.value)
  }

  ghost function Depths(objs: seq<PackObject>, i: nat): nat
    requires i < |objs| && BasesEarlier(objs)
  {
    if objs[i].base.None? then 0 else 1 + Depths(objs, objs[i].base.value)
  }

  /** What is deflated into the pack for object i, and the bytes before it. */
  function Payload(objs: seq<PackObject>, i: nat): Data
    requires i < |objs| && BasesEarlier(objs)
  {
    if objs[i].base.None? then objs[i].data else Delta.Between(objs[objs[i].base.value].data, objs[i].data)
  }

  function StoredType(o: PackObject): ObjType
  {
    if o.base.None? then o.typ else if o.byName then RefDelta else OfsDelta
  }

  function Front(objs: seq<PackObject>, offs: seq<nat>, names: seq<OID>, i: nat): seq<Byte>
    requires i < |objs| == |offs| == |names| && BasesEarlier(objs)
    requires forall a, b | 0 <= a < b < |offs| :: offs[a] < offs[b]
  {
    var o := objs[i];
    HeaderBytes(StoredType(o), |Payload(objs, i)|)
    + if o.base.None? then []
      else BaseBytes(StoredType(o), offs[i] - offs[o.base.value], names[o.base.value])
  }

  /** The pack holds the objects at these offsets, its index is in order and has their names and offsets, and inflating
      what stands after a front gives the payload that was deflated there. */
  ghost predicate Written(p: Pack, inflate: (int, nat) -> Option<Data>, objs: seq<PackObject>, offs: seq<nat>,
                          names: seq<OID>)
  {
    && p.Valid() && Ordered(p) && |objs| == |offs| == |names| && BasesEarlier(objs)
    && (forall a, b | 0 <= a < b < |offs| :: offs[a] < offs[b])
    && (forall i | 0 <= i < |objs| :: Indexed(p, names[i], offs[i]) && WrittenAt(p, inflate, objs, offs, names, i))
  }

  ghost predicate Indexed(p: Pack, name: OID, off: int)
    requires p.Valid()
  {
    exists k :: 0 <= k < |p.oids| && p.oids[k] == name && p.offsets[k] == off
  }

  ghost predicate WrittenAt(p: Pack, inflate: (int, nat) -> Option<Data>, objs: seq<PackObject>, offs: seq<nat>,
                            names: seq<OID>, i: nat)
    requires i < |objs| == |offs| == |names| && BasesEarlier(objs)
    requires forall a, b | 0 <= a < b < |offs| :: offs[a] < offs[b]
  {
    var front, payload := Front(objs, offs, names, i), Payload(objs, i);
    && objs[i].typ != Bad && !objs[i].typ.IsDelta() && |objs[i].data| < Delta.OffsetLimit && |payload| < Limit60
    && 12 <= offs[i] < Int64Half && At(p.data, offs[i], front) && offs[i] + |front| <= |p.data| - p.rawsz
    && inflate(offs[i] + |front|, |payload|) == Some(payload)
  }

  lemma IndexFinds(p: Pack, name: OID, off: int)
    requires p.Valid() && Ordered(p) && Indexed(p, name, off)
    ensures |name| == p.rawsz && FindName(p, name).Some? && p.offsets[FindName(p, name).value] == off
    ensures off in p.offsets
  {
    var k :| 0 <= k < |p.oids| && p.oids[k] == name && p.offsets[k] == off;
    FindIsExact(p, name, k);
  }

  /** What stands at an offset where an object was written. */
  lemma FrontReads(p: Pack, inflate: (int, nat) -> Option<Data>, objs: seq<PackObject>, offs: seq<nat>,
                   names: seq<OID>, i: nat)
    requires Written(p, inflate, objs, offs, names) && i < |objs|
    ensures var h, payload := HeaderAt(p.data, p.rawsz, offs[i]), Payload(objs, i);
            && h.Some? && h.value.typ == StoredType(objs[i])
            && h.value.dataOff == offs[i] + |Front(objs, offs, names, i)| && h.value.size == |payload|
            && inflate(h.value.dataOff, h.value.size) == Some(payload)
    ensures BaseAt(p, offs[i]) == if objs[i].base.None? then None else Some(offs[objs[i].base.value] as int)
  {
    hide HeaderAt, At, HeaderBytes, FindName, Payload, Ordered, OfsBytes;
    var o := objs[i];
    assert WrittenAt(p, inflate, objs, offs, names, i);
    var typ, size := StoredType(o), |Payload(objs, i)|;
    if o.base.None? {
      assert BaseBytes(typ, 0, []) == [];
      HeaderRoundTrip(p.data, p.rawsz, offs[i], typ, size, 0, []);
    } else {
      var b := o.base.value;
      assert Indexed(p, names[b], offs[b]);
      IndexFinds(p, names[b], offs[b]);
      HeaderRoundTrip(p.data, p.rawsz, offs[i], typ, size, offs[i] - offs[b], names[b]);
    }
  }

  /** Every object of a pack that was written is read back: its own bytes, with the type of the object at the bottom of
      its deltas. */
  lemma {:induction false} WrittenReads(p: Pack, inflate: (int, nat) -> Option<Data>, objs: seq<PackObject>,
                                        offs: seq<nat>, names: seq<OID>, i: nat)
    requires Written(p, inflate, objs, offs, names) && i < |objs|
    ensures Grounded(p, offs[i], Depths(objs, i))
    ensures Whole(p, inflate, offs[i], Depths(objs, i)) == Some((BottomType(objs, i), objs[i].data))
    decreases i
  {
    hide HeaderAt, BaseAt, Delta.Applied, Delta.Between, Front, Ordered, Indexed, Pack.Valid;
    FrontReads(p, inflate, objs, offs, names, i);
    assert WrittenAt(p, inflate, objs, offs, names, i);
    if objs[i].base.Some? {
      var b := objs[i].base.value;
      assert WrittenAt(p, inflate, objs, offs, names, b);
      WrittenReads(p, inflate, objs, offs, names, b);
      Delta.DeltaRoundTrip(objs[b].data, objs[i].data);
    }
  }

  lemma WrittenContent(p: Pack, inflate: (int, nat) -> Option<Data>, objs: seq<PackObject>, offs: seq<nat>,
                       names: seq<OID>, i: nat)
    requires Written(p, inflate, objs, offs, names) && i < |objs|
    ensures Hangs(p, offs[i]) && ContentAt(p, inflate, offs[i]) == Some((BottomType(objs, i), objs[i].data))
  {
    hide HeaderAt, BaseAt, Whole, WrittenAt, Ordered, Indexed, Grounded;
    WrittenReads(p, inflate, objs, offs, names, i);
    var n := Depths(objs, i);
    var m: nat :| Grounded(p, offs[i], m) && ContentAt(p, inflate, offs[i]) == Whole(p, inflate, offs[i], m);
    GroundedOnce(p, offs[i], m, n);
  }

  /** Where the object check looks at a written object: it is sound exactly when the index has the name for it that its
      type and bytes hash to. */
  lemma WrittenIsTold(w: World, objs: seq<PackObject>, offs: seq<nat>, names: seq<OID>, i: nat, k: nat)
    requires w.Valid() && Written(w.p, w.inflate, objs, offs, names) && i < |objs|
    requires k < |w.p.oids| && w.p.offsets[k] == offs[i]
    requires objs[i].base.None? && objs[i].typ == Blob ==>
               w.streamHash(offs[i] + |Front(objs, offs, names, i)|, |objs[i].data|, Blob)
                 == Some(w.hash(Blob, objs[i].data))
    ensures Hangs(w.p, w.p.offsets[k])
    ensures Told(w, k).Object? <==> w.hash(BottomType(objs, i), objs[i].data) == w.p.oids[k]
  {
    hide *;
    PackIsValid(w);
    WrittenShape(w.p, w.inflate, objs, offs, names);
    WrittenContent(w.p, w.inflate, objs, offs, names, i);
    FrontReads(w.p, w.inflate, objs, offs, names, i);
    WrittenKind(w, objs, offs, names, i);
    ToldOf(w, k, BottomType(objs, i), objs[i].data);
  }

  lemma WrittenShape(p: Pack, inflate: (int, nat) -> Option<Data>, objs: seq<PackObject>, offs: seq<nat>,
                     names: seq<OID>)
    requires Written(p, inflate, objs, offs, names)
    ensures |objs| == |offs| == |names| && BasesEarlier(objs) && forall a, b | 0 <= a < b < |offs| :: offs[a] < offs[b]
  {
    hide WrittenAt, Indexed, Ordered, Pack.Valid;
  }

  lemma WrittenKind(w: World, objs: seq<PackObject>, offs: seq<nat>, names: seq<OID>, i: nat)
    requires Written(w.p, w.inflate, objs, offs, names) && i < |objs|
    ensures StoredType(objs[i]) == Blob ==>
              && objs[i].base.None? && objs[i].typ == Blob
              && BottomType(objs, i) == Blob && Payload(objs, i) == objs[i].data
  {
    hide Front, At, Ordered, Indexed, Pack.Valid;
    assert WrittenAt(w.p, w.inflate, objs, offs, names, i);
  }

  /** What is told of a place whose content is known, if streaming a blob hashes as holding it does. */
  lemma ToldOf(w: World, k: nat, typ: ObjType, data: Data)
    requires w.Valid() && k < |w.p.oids| && Hangs(w.p, w.p.offsets[k])
    requires ContentAt(w.p, w.inflate, w.p.offsets[k]) == Some((typ, data))
    requires var h := HeaderAt(w.p.data, w.p.rawsz, w.p.offsets[k]);
             h.Some? && h.value.typ == Blob ==>
               typ == Blob && w.streamHash(h.value.dataOff, h.value.size, Blob) == Some(w.hash(Blob, data))
    ensures Told(w, k).Object? <==> w.hash(typ, data) == w.p.oids[k]
  {
    hide HeaderAt, ContentAt, Hangs, Built, Pack.Valid, Unused;
  }
}
