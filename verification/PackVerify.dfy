/** verifyObjects of internal/odb/verify.go with one worker, and what its reports mean. */
module PackVerify {
  import opened Bytes
  import opened PackHeader
  import opened PackLayout
  import opened Forest
  import opened DeltaSpec
  import opened PackMeaning
  import opened ChainBudget
  import opened DeltaWalk
  import opened DeltaWalker

  /** The index's checksums over raw entries; a version 1 index has none. */
  datatype Checksums = Checksums(version: nat, crcs: seq<nat>, crc: seq<Byte> -> nat)

  predicate Mismatch(w: World, k: Checksums, i: nat)
    requires i < |w.l.ents|
  {
    var e, end := w.l.ents[i], w.l.End(i);
    && 0 <= e.off <= end <= |w.p.data| && e.idx < |k.crcs|
    && k.crc(w.p.data[e.off..end]) != k.crcs[e.idx]
  }

  /** The checksum pass of one worker: a scan of all entries. */
  method CheckCRCs(w: World, k: Checksums) returns (good: bool)
    ensures good <==> forall i | 0 <= i < |w.l.ents| :: !Mismatch(w, k, i)
  {
    good := true;
    for i := 0 to |w.l.ents|
      invariant good <==> forall j | 0 <= j < i :: !Mismatch(w, k, j)
    {
      if Mismatch(w, k, i) {
        good := false;
      }
    }
  }

  ghost function RootedSet(w: World): (s: set<nat>)
    requires w.Valid()
    ensures forall i | i in s :: Rooted(w.Up(), i)
  {
    set i | 0 <= i < |w.l.ents| && Rooted(w.Up(), i)
  }

  /** The events of the bad entries below `k` and of the roots below `m`. */
  ghost function BadSum(w: World, k: nat): multiset<Event>
    requires w.Valid() && k <= |w.l.bad|
  {
    if k == 0 then multiset{} else BadSum(w, k - 1) + BadPart(w, k - 1)
  }

  ghost function BadPart(w: World, k: nat): multiset<Event>
    requires w.Valid() && k < |w.l.bad|
  {
    BadAreRoots(w, k);
    BadEvents(w, w.l.bad[k])
  }

  ghost function RootSum(w: World, m: nat): multiset<Event>
    requires w.Valid() && m <= |w.l.ents|
  {
    if m == 0 then multiset{}
    else RootSum(w, m - 1) + RootPart(w, m - 1)
  }

  ghost function RootPart(w: World, i: nat): multiset<Event>
    requires w.Valid() && i < |w.l.ents|
  {
    if w.Up()[i] < 0 then WalkEvents(w, i) else multiset{}
  }

  lemma {:induction false} BadAreRoots(w: World, k: nat)
    requires w.Valid() && k < |w.l.bad|
    ensures w.l.bad[k] < |w.l.ents| && w.l.ents[w.l.bad[k]].typ == Bad && w.Up()[w.l.bad[k]] < 0
  {
    BadOnesAreBad(w.l.ents, |w.l.ents|);
    var i := w.l.bad[k];
    LinkageShape(w.p, Offs(w.l.ents), i);
    assert EntryRead(w.p, Offs(w.l.ents), i, w.l.ents[i]);
  }

  lemma {:induction false} BadOnesAreBad(ents: seq<PackEntry>, k: nat)
    requires k <= |ents|
    ensures var r := BadOnes(ents, k);
            && (forall i :: i in r <==> 0 <= i < k && ents[i].typ == Bad)
            && (forall a, b | 0 <= a < b < |r| :: r[a] < r[b])
            && (forall a | 0 <= a < |r| :: r[a] < k && ents[r[a]].typ == Bad)
  {
    if k > 0 {
      BadOnesAreBad(ents, k - 1);
      var r := BadOnes(ents, k - 1);
      assert forall a | 0 <= a < |r| :: r[a] in r;
    }
  }

  predicate Fine(log: seq<Event>)
  {
    forall e | e in log :: e.Object?
  }

  /** The whole check of a pack's objects, with one worker. */
  method VerifyObjects(w: World, k: Checksums, answers: nat -> bool) returns (good: bool, log: seq<Event>)
    requires w.Valid()
    ensures multiset(log) == BadSum(w, |w.l.bad|) + RootSum(w, |w.l.ents|)
    ensures good <==> Fine(log) && (k.version > 1 ==> forall i | 0 <= i < |w.l.ents| :: !Mismatch(w, k, i))
  {
    hide World.Valid, BadSum, RootSum, Mismatch;
    var walker := new Walker(w, answers);
    ReportBad(walker);
    var crcGood := true;
    if k.version > 1 {
      crcGood := CheckCRCs(w, k);
    }
    NoOps();
    WalkRoots(walker);
    log := walker.log;
    good := crcGood && Quiet(log);
  }

  method ReportBad(walker: Walker)
    requires walker.w.Valid() && walker.log == [] && walker.ops == []
    modifies walker`log
    ensures multiset(walker.log) == BadSum(walker.w, |walker.w.l.bad|)
  {
    var w := walker.w;
    hide World.Valid, BadSum, Failed, ChildList, Rooted;
    NothingYet(w);
    for b := 0 to |w.l.bad|
      invariant multiset(walker.log) == BadSum(w, b)
    {
      BadStep(w, b);
      walker.Fail(w.l.bad[b]);
    }
  }

  /** The one worker draws every position in turn and walks the roots among them. */
  method WalkRoots(walker: Walker)
    requires walker.w.Valid() && Covered(walker.ops)
    modifies walker
    ensures Walked(walker.w, old(walker.log), walker.log, |walker.w.l.ents|)
    ensures Covered(walker.ops) && Net(walker.ops) == old(Net(walker.ops))
  {
    var w := walker.w;
    hide World.Valid, World.Up, Covered, Net, Walked, Grown, RootPart;
    ghost var before := walker.log;
    WalkedNone(w, before);
    for next := 0 to |w.l.ents|
      invariant Covered(walker.ops) && Net(walker.ops) == old(Net(walker.ops))
      invariant Walked(w, before, walker.log, next)
    {
      ghost var log := walker.log;
      WalkIfRoot(walker, next);
      WalkedOne(w, before, log, walker.log, next);
    }
  }

  /** The log is the old log and these events, in some order. */
  ghost predicate Grown(before: seq<Event>, log: seq<Event>, more: multiset<Event>)
  {
    multiset(log) == multiset(before) + more
  }

  /** The log has grown by the walks of the roots below `m`. */
  ghost predicate Walked(w: World, before: seq<Event>, log: seq<Event>, m: nat)
    requires w.Valid() && m <= |w.l.ents|
  {
    Grown(before, log, RootSum(w, m))
  }

  lemma {:induction false} WalkedNone(w: World, before: seq<Event>)
    requires w.Valid()
    ensures Walked(w, before, before, 0)
  {
  }

  lemma {:induction false} WalkedOne(w: World, before: seq<Event>, log: seq<Event>, log': seq<Event>, i: nat)
    requires w.Valid() && i < |w.l.ents| && Walked(w, before, log, i) && Grown(log, log', RootPart(w, i))
    ensures Walked(w, before, log', i + 1)
  {
    hide World.Valid, RootSum, RootPart;
    RootStep(w, i);
  }

  method WalkIfRoot(walker: Walker, i: nat)
    requires walker.w.Valid() && Covered(walker.ops) && i < |walker.w.l.ents|
    modifies walker
    ensures Grown(old(walker.log), walker.log, RootPart(walker.w, i))
    ensures Covered(walker.ops) && Net(walker.ops) == old(Net(walker.ops))
  {
    hide World.Valid, Covered, Net, RootSum, WalkEvents;
    RootStep(walker.w, i);
    if walker.w.l.ents[i].root {
      walker.WalkChain(i);
    }
  }

  /** Whether nothing was emitted. */
  predicate Quiet(log: seq<Event>)
    ensures Quiet(log) <==> Fine(log)
  {
    if log == [] then true
    else
      assert log == log[..|log| - 1] + [log[|log| - 1]];
      log[|log| - 1].Object? && Quiet(log[..|log| - 1])
  }

  lemma NoOps()
    ensures Covered([])
  {
  }

  lemma {:induction false} NothingYet(w: World)
    requires w.Valid()
    ensures BadSum(w, 0) == multiset{} && RootSum(w, 0) == multiset{} && OwnSum(w, 0) == multiset{}
  {
  }

  lemma {:induction false} BadStep(w: World, b: nat)
    requires w.Valid() && b < |w.l.bad|
    ensures w.l.bad[b] < |w.l.ents| && Rooted(w.Up(), w.l.bad[b]) && ChildList(w, w.l.bad[b], w.l.Children(w.l.bad[b]))
    ensures BadSum(w, b + 1)
            == BadSum(w, b) + multiset{CannotUnpack(w.l.bad[b])} + Failed(w, w.l.bad[b], w.l.Children(w.l.bad[b]))
  {
    hide World.Valid, Failed;
    BadAreRoots(w, b);
    DepthStep(w.Up(), w.l.bad[b]);
    ChildrenAreChildList(w, w.l.bad[b]);
  }

  lemma {:induction false} RootStep(w: World, i: nat)
    requires w.Valid() && i < |w.l.ents|
    ensures w.l.ents[i].root <==> w.Up()[i] < 0
    ensures RootSum(w, i + 1) == RootSum(w, i) + RootPart(w, i)
  {
    hide RootPart;
  }

  // ---------- the partition ----------

  /** Everything hanging from a root below `m`. */
  ghost function Hanging(w: World, m: nat): set<nat>
    requires w.Valid() && m <= |w.l.ents|
  {
    set i | 0 <= i < |w.l.ents| && Rooted(w.Up(), i) && RootOf(w.Up(), i) < m
  }

  /** The events owed for one root, by whoever reports it. */
  ghost function OwnPart(w: World, i: nat): multiset<Event>
    requires w.Valid() && i < |w.l.ents|
  {
    if w.Up()[i] >= 0 then multiset{} else if w.l.ents[i].typ == Bad then BadEvents(w, i) else WalkEvents(w, i)
  }

  ghost function OwnSum(w: World, m: nat): multiset<Event>
    requires w.Valid() && m <= |w.l.ents|
  {
    if m == 0 then multiset{} else OwnSum(w, m - 1) + OwnPart(w, m - 1)
  }

  lemma {:induction false} UnderItsRoot(w: World, j: nat, r: nat)
    requires w.Valid() && Rooted(w.Up(), j) && r < |w.l.ents| && w.Up()[r] < 0
    ensures Under(w.Up(), j, r) <==> RootOf(w.Up(), j) == r
    decreases Depth(w.Up(), j)
  {
    hide World.Valid;
    DepthStep(w.Up(), j);
    if w.Up()[j] >= 0 {
      UnderItsRoot(w, w.Up()[j], r);
    }
  }

  lemma {:induction false} HangingStep(w: World, m: nat)
    requires w.Valid() && m < |w.l.ents|
    ensures w.Up()[m] < 0 ==>
      Hanging(w, m + 1) == Hanging(w, m) + Subtree(w.Up(), m) && Hanging(w, m) !! Subtree(w.Up(), m)
    ensures w.Up()[m] >= 0 ==> Hanging(w, m + 1) == Hanging(w, m)
  {
    hide World.Valid;
    if w.Up()[m] < 0 {
      forall j | 0 <= j < |w.l.ents| && Rooted(w.Up(), j)
        ensures Under(w.Up(), j, m) <==> RootOf(w.Up(), j) == m
      {
        UnderItsRoot(w, j, m);
      }
    }
  }

  /** The walks of good roots and the reports on bad ones say what every hanging entry deserves, once each. */
  lemma {:induction false} OwnSumIsExact(w: World, m: nat)
    requires w.Valid() && m <= |w.l.ents|
    ensures OwnSum(w, m) == multiset(Verdicts(w, Hanging(w, m)))
  {
    hide World.Valid, Verdict, Verdicts, Hanging, OwnPart;
    if m == 0 {
      NothingHangs(w);
    } else {
      OwnSumIsExact(w, m - 1);
      OwnStep(w, m - 1);
    }
  }

  lemma {:induction false} NothingHangs(w: World)
    requires w.Valid()
    ensures Verdicts(w, Hanging(w, 0)) == {}
  {
    hide World.Valid, Verdict;
    assert Hanging(w, 0) == {};
  }

  lemma {:induction false} OwnStep(w: World, i: nat)
    requires w.Valid() && i < |w.l.ents|
    ensures multiset(Verdicts(w, Hanging(w, i + 1))) == multiset(Verdicts(w, Hanging(w, i))) + OwnPart(w, i)
  {
    hide World.Valid, Verdict, Verdicts, Subtree, Hanging, WalkEvents, BadEvents;
    HangingStep(w, i);
    HangingRooted(w, i);
    HangingRooted(w, i + 1);
    if w.Up()[i] < 0 {
      if w.l.ents[i].typ == Bad { BadIsExact(w, i); } else { WalkIsExact(w, i); }
      VerdictsUnion(w, Hanging(w, i), Subtree(w.Up(), i));
    }
  }

  lemma {:induction false} HangingRooted(w: World, m: nat)
    requires w.Valid() && m <= |w.l.ents|
    ensures forall j | j in Hanging(w, m) :: Rooted(w.Up(), j)
  {
  }

  /** What verifyObjects reports is the two sums together. */
  lemma {:induction false} SumsAddUp(w: World, m: nat)
    requires w.Valid() && m <= |w.l.ents|
    ensures |BadOnes(w.l.ents, m)| <= |w.l.bad|
    ensures BadSum(w, |BadOnes(w.l.ents, m)|) + RootSum(w, m) == OwnSum(w, m)
  {
    hide World.Valid, RootPart, BadPart, OwnPart, BadEvents, BadSum, RootSum, OwnSum;
    NothingYet(w);
    if m > 0 {
      var i, k := m - 1, |BadOnes(w.l.ents, m - 1)|;
      SumsAddUp(w, i);
      PartsAddUp(w, i);
      BadAt(w, i);
      RootStep(w, i);
      OwnSumStep(w, i);
      if w.l.ents[i].typ == Bad {
        Swap(BadSum(w, k), BadEvents(w, i), RootSum(w, i));
      } else {
        Swap(BadSum(w, k), RootSum(w, i), RootPart(w, i));
      }
    }
  }

  lemma {:induction false} OwnSumStep(w: World, i: nat)
    requires w.Valid() && i < |w.l.ents|
    ensures OwnSum(w, i + 1) == OwnSum(w, i) + OwnPart(w, i)
  {
    hide OwnPart;
  }

  lemma Swap(a: multiset<Event>, b: multiset<Event>, c: multiset<Event>)
    ensures (a + b) + c == (a + c) + b == a + (b + c)
    ensures c + multiset{} == c && b + multiset{} == b
  {
  }

  /** Where a bad entry stands in the list of bad entries. */
  lemma {:induction false} BadAt(w: World, i: nat)
    requires w.Valid() && i < |w.l.ents|
    ensures |BadOnes(w.l.ents, i)| <= |BadOnes(w.l.ents, i + 1)| <= |w.l.bad|
    ensures w.l.ents[i].typ != Bad ==> BadOnes(w.l.ents, i + 1) == BadOnes(w.l.ents, i)
    ensures w.l.ents[i].typ == Bad ==>
      var k := |BadOnes(w.l.ents, i)|;
      && |BadOnes(w.l.ents, i + 1)| == k + 1 && k < |w.l.bad|
      && w.Up()[i] < 0 && BadSum(w, k + 1) == BadSum(w, k) + BadEvents(w, i)
  {
    hide BadEvents, BadSum, Linkage, HeaderAt;
    BadPrefix(w.l.ents, i + 1, |w.l.ents|);
    BadHasNoParent(w, i);
    if w.l.ents[i].typ == Bad {
      BadSumStep(w, |BadOnes(w.l.ents, i)|);
    }
  }

  lemma BadHasNoParent(w: World, i: nat)
    requires w.Valid() && i < |w.l.ents|
    ensures w.l.ents[i].typ == Bad ==> w.Up()[i] < 0
  {
    hide Linkage, HeaderAt;
    LinkageShape(w.p, Offs(w.l.ents), i);
    assert EntryRead(w.p, Offs(w.l.ents), i, w.l.ents[i]);
  }

  lemma {:induction false} BadSumStep(w: World, k: nat)
    requires w.Valid() && k < |w.l.bad|
    ensures BadSum(w, k + 1) == BadSum(w, k) + BadPart(w, k)
  {
    hide BadPart, World.Valid;
  }

  lemma {:induction false} PartsAddUp(w: World, i: nat)
    requires w.Valid() && i < |w.l.ents|
    ensures w.l.ents[i].typ == Bad ==> OwnPart(w, i) == BadEvents(w, i) && RootPart(w, i) == multiset{} && w.Up()[i] < 0
    ensures w.l.ents[i].typ != Bad ==> OwnPart(w, i) == RootPart(w, i)
  {
    hide Failed, Below;
    LinkageShape(w.p, Offs(w.l.ents), i);
    assert EntryRead(w.p, Offs(w.l.ents), i, w.l.ents[i]);
  }

  lemma {:induction false} BadPrefix(ents: seq<PackEntry>, a: nat, b: nat)
    requires a <= b <= |ents|
    ensures BadOnes(ents, a) <= BadOnes(ents, b)
    decreases b
  {
    if a < b {
      BadPrefix(ents, a, b - 1);
    }
  }

  // ---------- what the answer means ----------

  /** Everything verifyObjects reports, entry by entry: each entry that hangs from a root exactly once. */
  lemma {:induction false} ReportIsExact(w: World, log: seq<Event>)
    requires w.Valid() && multiset(log) == BadSum(w, |w.l.bad|) + RootSum(w, |w.l.ents|)
    ensures multiset(log) == multiset(Verdicts(w, RootedSet(w)))
    ensures Fine(log) <==> forall i | i in RootedSet(w) :: Verdict(w, i).Object?
  {
    var n := |w.l.ents|;
    SumsAddUp(w, n);
    assert BadOnes(w.l.ents, n) == w.l.bad;
    OwnSumIsExact(w, n);
    assert Hanging(w, n) == RootedSet(w);
    LogHolds(w, log);
  }

  lemma {:induction false} LogHolds(w: World, log: seq<Event>)
    requires w.Valid() && multiset(log) == multiset(Verdicts(w, RootedSet(w)))
    ensures forall e :: e in log <==> e in Verdicts(w, RootedSet(w))
    ensures Fine(log) <==> forall i | i in RootedSet(w) :: Verdict(w, i).Object?
  {
    hide World.Valid, Verdict;
    var s := Verdicts(w, RootedSet(w));
    assert forall e :: e in log <==> e in multiset(log);
    assert forall e :: e in multiset(s) <==> e in s;
    if Fine(log) {
      forall i | i in RootedSet(w)
        ensures Verdict(w, i).Object?
      {
        assert Verdict(w, i) in s;
      }
    }
  }

  /** The check of a packfile, in terms of its bytes and its index: the answer is yes exactly when, place by place of
      the index, the checksum of the bytes is the one that stands there, and the bytes, if their bases come to an end,
      hold an object that hashes to the name that stands there. */
  method VerifyPack(p: Pack, inflate: (int, nat) -> Option<Data>, hash: (ObjType, Data) -> OID,
                    streamHash: (int, nat, ObjType) -> Option<OID>, threshold: int, k: Checksums, answers: nat -> bool)
    returns (good: bool, l: Layout)
    requires p.Valid()
    ensures var w := World(p, l, inflate, hash, streamHash, threshold);
            && w.Valid()
            && (good <==>
                  && (forall n | 0 <= n < |p.oids| && Hangs(p, p.offsets[n]) :: Told(w, n).Object?)
                  && (k.version > 1 ==>
                        forall n | 0 <= n < |p.oids| :: !SumWrong(p, l.ents, k.crcs, k.crc, n, EntryOf(w, n))))
  {
    hide Mismatch, BadSum, RootSum, Fine, AllSound, Built, Told, Hangs, SumWrong;
    l := BuildLayout(p);
    var w := World(p, l, inflate, hash, streamHash, threshold);
    var log;
    good, log := VerifyObjects(w, k, answers);
    FineIsSound(w, log);
    SoundIsTold(w);
    SumsByPlace(w, k);
  }

  /** All entries are sound exactly when, place by place of the index, there is nothing to complain of. */
  lemma {:induction false} SoundIsTold(w: World)
    requires w.Valid()
    ensures AllSound(w) <==> forall n | 0 <= n < |w.p.oids| && Hangs(w.p, w.p.offsets[n]) :: Told(w, n).Object?
  {
    hide World.Valid, Sound, Told, Hangs, Verdict, World.Up, EntryOf;
    PackIsValid(w);
    if AllSound(w) {
      forall n | 0 <= n < |w.p.oids| && Hangs(w.p, w.p.offsets[n])
        ensures Told(w, n).Object?
      {
        VerdictIsTold(w, n);
        SoundIsObject(w, EntryOf(w, n));
        assert EntryOf(w, n) in RootedSet(w);
      }
    }
    if forall n | 0 <= n < |w.p.oids| && Hangs(w.p, w.p.offsets[n]) :: Told(w, n).Object? {
      forall i | i in RootedSet(w)
        ensures Sound(w, i)
      {
        EntryHasPlace(w, i);
        VerdictIsTold(w, w.l.ents[i].idx);
        SoundIsObject(w, i);
      }
    }
  }

  /** No entry's checksum is wrong exactly when none of the index's is. */
  lemma {:induction false} SumsByPlace(w: World, k: Checksums)
    requires w.Valid()
    ensures |w.p.oids| == |w.p.offsets|
    ensures (forall i | 0 <= i < |w.l.ents| :: !Mismatch(w, k, i))
            <==> forall n | 0 <= n < |w.p.oids| :: !SumWrong(w.p, w.l.ents, k.crcs, k.crc, n, EntryOf(w, n))
  {
    hide World.Valid, SumWrong, Mismatch, EntryOf;
    PackIsValid(w);
    forall n | 0 <= n < |w.p.oids|
      ensures SumWrong(w.p, w.l.ents, k.crcs, k.crc, n, EntryOf(w, n)) ==>
                EntryOf(w, n) < |w.l.ents| && Mismatch(w, k, EntryOf(w, n))
    {
      SumAtPlace(w, k, n);
    }
    forall i | 0 <= i < |w.l.ents| && Mismatch(w, k, i)
      ensures exists n :: 0 <= n < |w.p.oids| && SumWrong(w.p, w.l.ents, k.crcs, k.crc, n, EntryOf(w, n))
    {
      EntryHasPlace(w, i);
      SumAtPlace(w, k, w.l.ents[i].idx);
    }
  }

  lemma SumAtPlace(w: World, k: Checksums, n: nat)
    requires w.Valid() && n < |w.p.oids| == |w.p.offsets|
    ensures Mismatch(w, k, EntryOf(w, n)) <==> SumWrong(w.p, w.l.ents, k.crcs, k.crc, n, EntryOf(w, n))
  {
    hide Linkage, HeaderAt, Kids, BadOnes, Sorted, EntryRead;
  }

  ghost predicate AllSound(w: World)
    requires w.Valid()
  {
    forall i | i in RootedSet(w) :: Sound(w, i)
  }

  lemma {:induction false} FineIsSound(w: World, log: seq<Event>)
    requires w.Valid() && multiset(log) == BadSum(w, |w.l.bad|) + RootSum(w, |w.l.ents|)
    ensures Fine(log) <==> AllSound(w)
  {
    hide World.Valid, Fine, BadSum, RootSum, Sound, Verdict;
    ReportIsExact(w, log);
    forall i | i in RootedSet(w)
      ensures Sound(w, i) <==> Verdict(w, i).Object?
    {
      SoundIsObject(w, i);
    }
  }

  lemma {:induction false} SoundIsObject(w: World, i: nat)
    requires w.Valid() && Rooted(w.Up(), i)
    ensures Sound(w, i) <==> Verdict(w, i).Object?
  {
    hide World.Valid, Decode, RootOf;
  }

  /** An entry whose content is what its name says. */
  ghost predicate Sound(w: World, i: nat)
    requires w.Valid() && Rooted(w.Up(), i)
  {
    if w.Streamed(i) then w.streamHash(w.l.ents[i].DataOff(), w.l.ents[i].size, w.l.ents[i].typ) == Some(w.OIDOf(i))
    else
      var d := Decode(w, i);
      d.Some? && w.hash(w.l.ents[RootOf(w.Up(), i)].typ, d.value) == w.OIDOf(i)
  }

  // ---------- the entries nothing visits ----------

  /** An entry is reported exactly when its chain of bases reaches a root. */
  lemma {:induction false} ReportedIfRooted(w: World, log: seq<Event>, i: nat)
    requires w.Valid() && i < |w.l.ents| && multiset(log) == BadSum(w, |w.l.bad|) + RootSum(w, |w.l.ents|)
    ensures (exists e :: e in log && e.entry == i) <==> Rooted(w.Up(), i)
  {
    hide World.Valid, BadSum, RootSum, Verdict;
    ReportIsExact(w, log);
    LogHolds(w, log);
    if Rooted(w.Up(), i) {
      assert i in RootedSet(w);
      assert Verdict(w, i) in log;
    }
  }
}
