/** Ref-delta loops: the entries of a pack that the object check never visits. */
module PackLoops {
  import opened Bytes
  import opened PackHeader
  import opened PackLayout
  import opened Forest
  import opened DeltaSpec
  import opened PackMeaning
  import opened PackVerify

  /** A set of entries that stand only on one another. */
  ghost predicate Loop(parent: Links, s: set<nat>)
  {
    s != {} && forall i | i in s :: i < |parent| && parent[i] >= 0 && parent[i] in s
  }

  lemma {:induction false} LoopsReachNothing(parent: Links, s: set<nat>, i: nat, d: nat)
    requires Loop(parent, s) && i in s
    ensures !Reaches(parent, i, d)
    decreases d
  {
    if d > 0 {
      LoopsReachNothing(parent, s, parent[i], d - 1);
    }
  }

  /** Every entry of a pack is reported exactly when no entries stand only on one another. */
  lemma {:induction false} AllReportedIfNoLoop(w: World)
    requires w.Valid()
    ensures (forall i: nat | i < |w.l.ents| :: Rooted(w.Up(), i)) <==> !exists s :: Loop(w.Up(), s)
  {
    hide World.Valid;
    var up := w.Up();
    var lost := set i: nat | i < |up| && !Rooted(up, i);
    forall i | i in lost
      ensures up[i] >= 0 && up[i] in lost
    {
      DepthStep(up, i);
    }
    if s :| Loop(up, s) {
      var i :| i in s;
      forall d: nat
        ensures !Reaches(up, i, d)
      {
        LoopsReachNothing(up, s, i, d);
      }
      assert !Rooted(up, i);
    } else {
      assert !Loop(up, lost);
      assert lost == {};
      forall i: nat | i < |up|
        ensures Rooted(up, i)
      {
        assert i !in lost;
      }
    }
  }

  /** Bases at earlier positions, which is all an offset-delta can have, make no loop. */
  lemma {:induction false} EarlierBasesAreRooted(parent: Links, i: nat)
    requires i < |parent| && forall j | 0 <= j < |parent| :: parent[j] < j
    ensures Rooted(parent, i)
    decreases i
  {
    if parent[i] >= 0 {
      EarlierBasesAreRooted(parent, parent[i]);
    }
    DepthStep(parent, i);
  }

  lemma {:induction false} OffsetDeltasAreRooted(w: World)
    requires w.Valid() && forall i | 0 <= i < |w.l.ents| :: w.l.ents[i].typ != RefDelta
    ensures forall i: nat | i < |w.l.ents| :: Rooted(w.Up(), i)
  {
    var offs := Offs(w.l.ents);
    forall j | 0 <= j < |w.l.ents|
      ensures w.Up()[j] < j
    {
      LinkageShape(w.p, offs, j);
      assert EntryRead(w.p, offs, j, w.l.ents[j]);
      if w.Up()[j] >= 0 {
        OfsParentIsEarlier(w.p, offs, j);
      }
    }
    forall i: nat | i < |w.l.ents|
      ensures Rooted(w.Up(), i)
    {
      EarlierBasesAreRooted(w.Up(), i);
    }
  }

  // ---------- a pack that passes unread ----------

  /** A version 2 header for two objects. */
  const TwoObjects: seq<Byte> := [80, 65, 67, 75, 0, 0, 0, 2, 0, 0, 0, 2]

  /** validatePackHeader, short of the comparison with the index's copy of the trailer. */
  predicate HeaderHolds(p: Pack)
  {
    && |p.data| >= 12 + p.rawsz && p.data[0..4] == [80, 65, 67, 75]
    && (p.data[4..8] == [0, 0, 0, 2] || p.data[4..8] == [0, 0, 0, 3])
    && Big32(p.data[8..12]) == |p.oids|
  }

  function Big32(b: seq<Byte>): nat
    requires |b| == 4
  {
    var x: nat, y: nat, z: nat, t: nat := b[0], b[1], b[2], b[3];
    ((x * 256 + y) * 256 + z) * 256 + t
  }

  /** Two ref-deltas, each naming the other as its base, and whatever trailer the hash calls for. */
  function LoopedPack(a: OID, b: OID, trailer: seq<Byte>): Pack
  {
    Pack(TwoObjects + ([0x70] + b) + ([0x70] + a) + trailer, 20, [a, b], [12, 33],
         seq(256, x => if x == 0 then 0 else if x == 1 then 1 else 2))
  }

  ghost predicate LoopedNames(a: OID, b: OID, trailer: seq<Byte>)
  {
    |a| == 20 && |b| == 20 && |trailer| == 20 && a[0] == 1 && b[0] == 2
  }

  lemma PartAt(before: seq<Byte>, part: seq<Byte>, after: seq<Byte>)
    ensures At(before + part + after, |before|, part)
  {
  }

  lemma {:induction false} LoopedHeaders(a: OID, b: OID, trailer: seq<Byte>)
    requires LoopedNames(a, b, trailer)
    ensures var p := LoopedPack(a, b, trailer);
            && p.Valid() && HeaderHolds(p)
            && HeaderAt(p.data, 20, 12) == Some(ObjHeader(RefDelta, 0, 33, 0, b))
            && HeaderAt(p.data, 20, 33) == Some(ObjHeader(RefDelta, 0, 54, 0, a))
  {
    hide HeaderAt, At, HeaderBytes;
    var p := LoopedPack(a, b, trailer);
    assert p.data == TwoObjects + ([0x70] + b) + (([0x70] + a) + trailer);
    RefDeltaAt(TwoObjects, b, ([0x70] + a) + trailer);
    RefDeltaAt(TwoObjects + ([0x70] + b), a, trailer);
  }

  /** A ref-delta of no bytes, after what comes before it. */
  lemma RefDeltaAt(before: seq<Byte>, name: OID, after: seq<Byte>)
    requires |name| == 20 && 12 <= |before| < 1000 && |after| >= 20
    ensures HeaderAt(before + ([0x70] + name) + after, 20, |before|)
              == Some(ObjHeader(RefDelta, 0, |before| + 21, 0, name))
  {
    hide HeaderAt, At;
    var data := before + ([0x70] + name) + after;
    assert HeaderBytes(RefDelta, 0) == [0x70];
    assert BaseBytes(RefDelta, 0, name) == name;
    PartAt(before, [0x70] + name, after);
    HeaderRoundTrip(data, 20, |before|, RefDelta, 0, 0, name);
  }

  lemma {:induction false} LoopedFind(a: OID, b: OID, trailer: seq<Byte>)
    requires LoopedNames(a, b, trailer) && LoopedPack(a, b, trailer).Valid()
    ensures FindName(LoopedPack(a, b, trailer), a) == Some(0) && FindName(LoopedPack(a, b, trailer), b) == Some(1)
  {
    var oids := LoopedPack(a, b, trailer).oids;
    LessIrreflexive(a);
    LessIrreflexive(b);
    assert SearchName(oids, a, 0, 1) == Some(0);
    assert SearchName(oids, b, 1, 2) == Some(1);
  }

  lemma {:induction false} LoopedOffsets(w: World, a: OID, b: OID, trailer: seq<Byte>)
    requires LoopedNames(a, b, trailer) && w.p == LoopedPack(a, b, trailer) && w.Valid()
    ensures Offs(w.l.ents) == [12, 33]
  {
    hide Linkage, HeaderAt, Kids, BadOnes, Pack.Valid, EntryRead;
    var places, index := Places(w.l.ents), IndexPlaces(w.p);
    assert index == [(12, 0), (33, 1)];
    TwoPlaces(places, (12, 0), (33, 1));
    var offs := Offs(w.l.ents);
    assert offs[0] == places[0].0 && offs[1] == places[1].0 && offs[0] <= offs[1];
  }

  lemma TwoPlaces(places: seq<(int, nat)>, x: (int, nat), y: (int, nat))
    requires x != y && multiset(places) == multiset([x, y])
    ensures places == [x, y] || places == [y, x]
  {
    assert |places| == |multiset(places)| == 2;
    assert places == [places[0], places[1]];
    assert multiset(places) == multiset{places[0], places[1]} == multiset{x, y};
    assert places[0] in multiset{x, y} && places[1] in multiset{x, y};
  }

  lemma {:induction false} LoopedLinks(w: World, a: OID, b: OID, trailer: seq<Byte>)
    requires LoopedNames(a, b, trailer) && w.p == LoopedPack(a, b, trailer) && w.Valid()
    ensures |w.l.ents| == 2 && w.Up() == [1, 0]
  {
    hide HeaderAt, FindName;
    LoopedHeaders(a, b, trailer);
    LoopedFind(a, b, trailer);
    LoopedOffsets(w, a, b, trailer);
    var offs := Offs(w.l.ents);
    assert PosAt(offs, 12) == 0 && PosAt(offs, 33) == 1;
    assert Linkage(w.p, offs, 0) == (RefDelta, 1) && Linkage(w.p, offs, 1) == (RefDelta, 0);
  }

  /** Nothing in it is ever decoded or reported: both entries are on a loop. */
  lemma {:induction false} LoopedPackIsUnread(w: World, a: OID, b: OID, trailer: seq<Byte>)
    requires LoopedNames(a, b, trailer) && w.p == LoopedPack(a, b, trailer) && w.Valid()
    ensures |w.l.ents| == 2 && RootedSet(w) == {} && AllSound(w) && HeaderHolds(w.p)
  {
    hide World.Valid, Sound, Reaches, LoopedPack, HeaderHolds;
    LoopedHeaders(a, b, trailer);
    LoopedLinks(w, a, b, trailer);
    TwoLoop();
  }

  /** Where its entries are and which checksums are theirs. */
  lemma {:induction false} LoopedEntries(w: World, a: OID, b: OID, trailer: seq<Byte>, k: Checksums)
    requires LoopedNames(a, b, trailer) && w.p == LoopedPack(a, b, trailer) && w.Valid() && LoopedSums(w.p, k)
    ensures forall i | 0 <= i < |w.l.ents| :: !Mismatch(w, k, i)
  {
    LoopedOffsets(w, a, b, trailer);
    var places := Places(w.l.ents);
    assert IndexPlaces(w.p) == [(12, 0), (33, 1)];
    TwoPlaces(places, (12, 0), (33, 1));
    assert places[0].0 == Offs(w.l.ents)[0];
    assert places == [(12, 0), (33, 1)];
    assert w.l.ents[0].idx == places[0].1 && w.l.ents[1].idx == places[1].1;
    assert w.l.End(0) == 33 && w.l.End(1) == 54;
  }

  /** The index's checksums of the two entries, if it has any, are those of their bytes. */
  predicate LoopedSums(p: Pack, k: Checksums)
  {
    |p.data| >= 54 && |k.crcs| == 2 && k.crcs[0] == k.crc(p.data[12..33]) && k.crcs[1] == k.crc(p.data[33..54])
  }

  /** The check of such a packfile says yes: its header holds, its checksums agree, and not one of its objects is read,
      whatever the names and whatever inflating and hashing do. */
  method VerifyLoopedPack(a: OID, b: OID, trailer: seq<Byte>, inflate: (int, nat) -> Option<Data>,
                          hash: (ObjType, Data) -> OID, streamHash: (int, nat, ObjType) -> Option<OID>, threshold: int,
                          k: Checksums, answers: nat -> bool)
    returns (good: bool)
    requires LoopedNames(a, b, trailer) && LoopedSums(LoopedPack(a, b, trailer), k)
    ensures HeaderHolds(LoopedPack(a, b, trailer)) && good
  {
    hide LoopedPack, HeaderHolds, LoopedSums, Mismatch, AllSound, Built, Pack.Valid, Told, Hangs, SumWrong, EntryOf;
    var p := LoopedPack(a, b, trailer);
    LoopedHeaders(a, b, trailer);
    var l;
    good, l := VerifyPack(p, inflate, hash, streamHash, threshold, k, answers);
    var w := World(p, l, inflate, hash, streamHash, threshold);
    LoopedPackIsUnread(w, a, b, trailer);
    LoopedEntries(w, a, b, trailer, k);
    SoundIsTold(w);
    SumsByPlace(w, k);
  }

  lemma {:induction false} TwoLoop()
    ensures !Rooted([1, 0], 0) && !Rooted([1, 0], 1)
  {
    hide Reaches;
    assert Loop([1, 0], {0, 1});
    forall i: nat, d: nat | i < 2
      ensures !Reaches([1, 0], i, d)
    {
      LoopsReachNothing([1, 0], {0, 1}, i, d);
    }
  }
}
