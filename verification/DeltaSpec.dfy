/** What the delta walk must report: each entry decoded from its own root (internal/odb/deltawalk.go). */
module DeltaSpec {
  import opened Bytes
  import opened PackHeader
  import opened PackLayout
  import opened Forest
  import Delta

  type Data = Delta.Data

  /** A pack, its layout, and the functions the walk calls out to: decompression and the two ways of hashing. */
  datatype World = World(p: Pack, l: Layout, inflate: (int, nat) -> Option<Data>, hash: (ObjType, Data) -> OID,
                         streamHash: (int, nat, ObjType) -> Option<OID>, bigFileThreshold: int)
  {
    ghost predicate Valid()
      ensures Valid() ==> l.Shaped()
    {
      p.Valid() && Built(p, l)
    }

    ghost function Up(): (r: Links)
      requires Valid()
      ensures |r| == |l.ents|
    {
      Parents(p, Offs(l.ents))
    }

    /** The name the index gives an entry. */
    function OIDOf(i: nat): OID
      requires i < |l.ents|
    {
      if l.ents[i].idx < |p.oids| then p.oids[l.ents[i].idx] else []
    }

    /** materializeRoot. */
    function RootData(i: nat): Option<Data>
      requires i < |l.ents|
    {
      if l.ents[i].typ == Bad || l.ents[i].typ.IsDelta() then None else inflate(l.ents[i].DataOff(), l.ents[i].size)
    }

    /** A delta entry built on its base. */
    function Build(i: nat, base: Data): Option<Data>
      requires i < |l.ents|
    {
      var d := inflate(l.ents[i].DataOff(), l.ents[i].size);
      if d.None? then None else Delta.Applied(base, d.value)
    }

    /** A large blob nothing deltas against is hashed without being held. */
    predicate Streamed(i: nat)
      requires l.Shaped() && i < |l.ents|
    {
      && l.ents[i].typ == Blob && bigFileThreshold > 0 && l.ents[i].size >= bigFileThreshold
      && l.Children(i) == []
    }
  }

  /** What the walk says about one entry. An object handed over by streaming carries no payload. */
  datatype Event =
    | Object(entry: nat, oid: OID, typ: ObjType, data: Option<Data>)
    | Corrupt(entry: nat, oid: OID)
    | CannotUnpack(entry: nat)

  function Finished(w: World, i: nat, typ: ObjType, data: Data): Event
    requires i < |w.l.ents|
  {
    if w.hash(typ, data) != w.OIDOf(i) then Corrupt(i, w.OIDOf(i)) else Object(i, w.OIDOf(i), typ, Some(data))
  }

  function StreamedEvent(w: World, i: nat): Event
    requires i < |w.l.ents|
  {
    var e := w.l.ents[i];
    match w.streamHash(e.DataOff(), e.size, e.typ)
    case None => CannotUnpack(i)
    case Some(got) => if got != w.OIDOf(i) then Corrupt(i, w.OIDOf(i)) else Object(i, w.OIDOf(i), e.typ, None)
  }

  // ---------- entry by entry ----------

  ghost function RootOf(parent: Links, i: nat): (r: nat)
    requires Rooted(parent, i)
    ensures r < |parent| && parent[r] < 0
    decreases Depth(parent, i)
  {
    DepthStep(parent, i);
    if parent[i] < 0 then i else RootOf(parent, parent[i])
  }

  /** An entry decoded from the bottom of its own chain. */
  ghost function Decode(w: World, i: nat): Option<Data>
    requires w.Valid() && Rooted(w.Up(), i)
    decreases Depth(w.Up(), i)
  {
    var up := w.Up();
    DepthStep(up, i);
    if up[i] < 0 then w.RootData(i)
    else
      var base := Decode(w, up[i]);
      if base.None? then None else w.Build(i, base.value)
  }

  lemma {:induction false} DecodeStep(w: World, j: nat)
    requires w.Valid() && Rooted(w.Up(), j)
    ensures w.Up()[j] < 0 ==> Decode(w, j) == w.RootData(j) && RootOf(w.Up(), j) == j
    ensures w.Up()[j] >= 0 ==> Rooted(w.Up(), w.Up()[j]) && RootOf(w.Up(), j) == RootOf(w.Up(), w.Up()[j])
    ensures w.Up()[j] >= 0 && Decode(w, w.Up()[j]).Some? ==> Decode(w, j) == w.Build(j, Decode(w, w.Up()[j]).value)
    ensures w.Up()[j] >= 0 && Decode(w, w.Up()[j]).None? ==> Decode(w, j).None?
  {
    hide World.Valid, World.Build, World.RootData;
    DepthStep(w.Up(), j);
  }

  /** The one thing to say about an entry, with no mention of any walk. */
  ghost function Verdict(w: World, i: nat): (e: Event)
    requires w.Valid() && Rooted(w.Up(), i)
    ensures e.entry == i
  {
    if w.Streamed(i) then StreamedEvent(w, i)
    else
      var d := Decode(w, i);
      if d.None? then CannotUnpack(i) else Finished(w, i, w.l.ents[RootOf(w.Up(), i)].typ, d.value)
  }

  ghost function Verdicts(w: World, s: set<nat>): set<Event>
    requires w.Valid() && forall i | i in s :: Rooted(w.Up(), i)
  {
    set i | i in s :: Verdict(w, i)
  }

  lemma {:induction false} VerdictsUnion(w: World, a: set<nat>, b: set<nat>)
    requires w.Valid() && (forall i | i in a + b :: Rooted(w.Up(), i)) && a !! b
    ensures multiset(Verdicts(w, a + b)) == multiset(Verdicts(w, a)) + multiset(Verdicts(w, b))
  {
    var va, vb := Verdicts(w, a), Verdicts(w, b);
    assert Verdicts(w, a + b) == va + vb;
    forall e | e in va
      ensures e !in vb
    {
      assert e.entry in a;
    }
  }

  // ---------- from the top down ----------

  ghost predicate ChildList(w: World, i: nat, cs: seq<nat>)
    requires w.Valid()
  {
    Rooted(w.Up(), i) && forall k | 0 <= k < |cs| :: cs[k] < |w.l.ents| && w.Up()[cs[k]] == i
  }

  lemma {:induction false} ChildrenAreChildList(w: World, i: nat)
    requires w.Valid() && Rooted(w.Up(), i)
    ensures ChildList(w, i, w.l.Children(i))
    ensures forall c: nat :: c in w.l.Children(i) <==> c < |w.l.ents| && w.Up()[c] == i
    ensures forall a, b | 0 <= a < b < |w.l.Children(i)| :: w.l.Children(i)[a] < w.l.Children(i)[b]
  {
    KidsAreExact(w.Up(), i, |w.Up()|);
    var cs := w.l.Children(i);
    assert forall k | 0 <= k < |cs| :: cs[k] in cs;
  }

  /** The events for these children of `i`, whose data is `base`. */
  ghost function Below(w: World, i: nat, cs: seq<nat>, typ: ObjType, base: Data): multiset<Event>
    requires w.Valid() && ChildList(w, i, cs)
    decreases Room(w.Up(), i), |cs|
  {
    if cs == [] then multiset{}
    else
      var c := cs[0];
      ChildRoom(w.Up(), i, c);
      ChildrenAreChildList(w, c);
      var rest := Below(w, i, cs[1..], typ, base);
      var out := w.Build(c, base);
      if out.None? then multiset{CannotUnpack(c)} + Failed(w, c, w.l.Children(c)) + rest
      else multiset{Finished(w, c, typ, out.value)} + Below(w, c, w.l.Children(c), typ, out.value) + rest
  }

  /** failSubtree over these children: every entry below cannot be unpacked. */
  ghost function Failed(w: World, i: nat, cs: seq<nat>): multiset<Event>
    requires w.Valid() && ChildList(w, i, cs)
    decreases Room(w.Up(), i), |cs|
  {
    if cs == [] then multiset{}
    else
      var c := cs[0];
      ChildRoom(w.Up(), i, c);
      ChildrenAreChildList(w, c);
      multiset{CannotUnpack(c)} + Failed(w, c, w.l.Children(c)) + Failed(w, i, cs[1..])
  }

  /** What walkChain reports for a root. */
  ghost function WalkEvents(w: World, r: nat): multiset<Event>
    requires w.Valid() && r < |w.l.ents| && w.Up()[r] < 0
  {
    DepthStep(w.Up(), r);
    ChildrenAreChildList(w, r);
    if w.l.ents[r].typ == Bad then multiset{}
    else if w.Streamed(r) then multiset{StreamedEvent(w, r)}
    else
      var d := w.RootData(r);
      if d.None? then multiset{CannotUnpack(r)} + Failed(w, r, w.l.Children(r))
      else multiset{Finished(w, r, w.l.ents[r].typ, d.value)} + Below(w, r, w.l.Children(r), w.l.ents[r].typ, d.value)
  }

  // ---------- the two agree ----------

  lemma {:induction false} TreesRooted(w: World, cs: seq<nat>)
    requires w.Valid()
    ensures forall j | j in Subtrees(w.Up(), cs) :: Rooted(w.Up(), j)
  {
    if cs != [] {
      TreesRooted(w, cs[1..]);
    }
  }

  /** Failing a subtree says exactly what each of its entries deserves. */
  lemma {:induction false} FailedIsExact(w: World, i: nat, cs: seq<nat>)
    requires w.Valid() && ChildList(w, i, cs) && Decode(w, i).None?
    requires forall a, b | 0 <= a < b < |cs| :: cs[a] < cs[b]
    ensures forall j | j in Subtrees(w.Up(), cs) :: Rooted(w.Up(), j)
    ensures Failed(w, i, cs) == multiset(Verdicts(w, Subtrees(w.Up(), cs)))
    decreases Room(w.Up(), i), |cs|
  {
    TreesRooted(w, cs);
    if cs != [] {
      var c := cs[0];
      ChildRoom(w.Up(), i, c);
      ChildrenAreChildList(w, c);
      NotStreamed(w, c);
      FailedIsExact(w, c, w.l.Children(c));
      FailedIsExact(w, i, cs[1..]);
      OneTree(w, i, cs, multiset{CannotUnpack(c)} + Failed(w, c, w.l.Children(c)));
    }
  }

  /** A child's tree splits off: its own verdict, its children's trees, and the rest of the list. */
  lemma {:induction false} OneTree(w: World, i: nat, cs: seq<nat>, m: multiset<Event>)
    requires w.Valid() && ChildList(w, i, cs) && cs != [] && Rooted(w.Up(), cs[0])
    requires forall a, b | 0 <= a < b < |cs| :: cs[a] < cs[b]
    requires forall j | j in Subtrees(w.Up(), cs) + Subtrees(w.Up(), w.l.Children(cs[0])) :: Rooted(w.Up(), j)
    requires m == multiset{Verdict(w, cs[0])} + multiset(Verdicts(w, Subtrees(w.Up(), w.l.Children(cs[0]))))
    ensures multiset(Verdicts(w, Subtrees(w.Up(), cs))) == m + multiset(Verdicts(w, Subtrees(w.Up(), cs[1..])))
  {
    hide Verdict, Verdicts, Subtree;
    var up, c := w.Up(), cs[0];
    NodeSplits(w, c);
    TreesDisjoint(up, i, cs);
    VerdictsUnion(w, Subtree(up, c), Subtrees(up, cs[1..]));
  }

  lemma OneVerdict(w: World, c: nat)
    requires w.Valid() && Rooted(w.Up(), c)
    ensures Verdicts(w, {c}) == {Verdict(w, c)}
  {
    hide World.Valid, Verdict, Rooted;
  }

  lemma {:induction false} NodeSplits(w: World, c: nat)
    requires w.Valid() && Rooted(w.Up(), c)
    ensures forall j | j in Subtree(w.Up(), c) + Subtrees(w.Up(), w.l.Children(c)) :: Rooted(w.Up(), j)
    ensures multiset(Verdicts(w, Subtree(w.Up(), c)))
            == multiset{Verdict(w, c)} + multiset(Verdicts(w, Subtrees(w.Up(), w.l.Children(c))))
  {
    hide World.Valid, Verdict, Verdicts, Subtree, Subtrees, Rooted, Layout.Rising, Layout.InRange;
    var up, cs := w.Up(), w.l.Children(c);
    ChildrenAreChildList(w, c);
    TreesRooted(w, cs);
    TreeSplits(up, c, cs);
    OneVerdict(w, c);
    VerdictsUnion(w, {c}, Subtrees(up, cs));
  }

  lemma {:induction false} NotStreamed(w: World, c: nat)
    requires w.Valid() && c < |w.l.ents| && w.Up()[c] >= 0
    ensures !w.Streamed(c) && w.l.ents[c].typ.IsDelta()
  {
    LinkageShape(w.p, Offs(w.l.ents), c);
    assert EntryRead(w.p, Offs(w.l.ents), c, w.l.ents[c]);
  }

  /** Building down from a decoded entry says exactly what each entry below deserves. */
  lemma {:induction false} BelowIsExact(w: World, i: nat, cs: seq<nat>, typ: ObjType, base: Data)
    requires w.Valid() && ChildList(w, i, cs) && Decode(w, i) == Some(base)
    requires typ == w.l.ents[RootOf(w.Up(), i)].typ
    requires forall a, b | 0 <= a < b < |cs| :: cs[a] < cs[b]
    ensures forall j | j in Subtrees(w.Up(), cs) :: Rooted(w.Up(), j)
    ensures Below(w, i, cs, typ, base) == multiset(Verdicts(w, Subtrees(w.Up(), cs)))
    decreases Room(w.Up(), i), |cs|
  {
    TreesRooted(w, cs);
    if cs != [] {
      var c := cs[0];
      ChildRoom(w.Up(), i, c);
      ChildrenAreChildList(w, c);
      NotStreamed(w, c);
      var out := w.Build(c, base);
      assert Decode(w, c) == out;
      BelowIsExact(w, i, cs[1..], typ, base);
      if out.None? {
        FailedIsExact(w, c, w.l.Children(c));
        OneTree(w, i, cs, multiset{CannotUnpack(c)} + Failed(w, c, w.l.Children(c)));
      } else {
        BelowIsExact(w, c, w.l.Children(c), typ, out.value);
        OneTree(w, i, cs, multiset{Finished(w, c, typ, out.value)} + Below(w, c, w.l.Children(c), typ, out.value));
      }
    }
  }

  /** A good root's walk says what each entry of its tree deserves, each exactly once. */
  lemma {:induction false} WalkIsExact(w: World, r: nat)
    requires w.Valid() && r < |w.l.ents| && w.Up()[r] < 0 && w.l.ents[r].typ != Bad
    ensures forall j | j in Subtree(w.Up(), r) :: Rooted(w.Up(), j)
    ensures WalkEvents(w, r) == multiset(Verdicts(w, Subtree(w.Up(), r)))
  {
    RootSplits(w, r);
    var cs := w.l.Children(r);
    if w.Streamed(r) {
      assert Verdicts(w, {}) == {};
      assert Subtrees(w.Up(), cs) == {};
    } else if w.RootData(r).None? {
      FailedIsExact(w, r, cs);
    } else {
      BelowIsExact(w, r, cs, w.l.ents[r].typ, w.RootData(r).value);
    }
  }

  /** What verifyObjects reports for a bad entry before any walk. */
  ghost function BadEvents(w: World, r: nat): multiset<Event>
    requires w.Valid() && r < |w.l.ents| && w.Up()[r] < 0
  {
    DepthStep(w.Up(), r);
    ChildrenAreChildList(w, r);
    multiset{CannotUnpack(r)} + Failed(w, r, w.l.Children(r))
  }

  lemma {:induction false} BadIsExact(w: World, r: nat)
    requires w.Valid() && r < |w.l.ents| && w.Up()[r] < 0 && w.l.ents[r].typ == Bad
    ensures forall j | j in Subtree(w.Up(), r) :: Rooted(w.Up(), j)
    ensures BadEvents(w, r) == multiset(Verdicts(w, Subtree(w.Up(), r)))
  {
    RootSplits(w, r);
    FailedIsExact(w, r, w.l.Children(r));
  }

  lemma {:induction false} RootSplits(w: World, r: nat)
    requires w.Valid() && r < |w.l.ents| && w.Up()[r] < 0
    ensures Rooted(w.Up(), r) && ChildList(w, r, w.l.Children(r)) && Decode(w, r) == w.RootData(r)
    ensures RootOf(w.Up(), r) == r
    ensures forall j | j in Subtree(w.Up(), r) + Subtrees(w.Up(), w.l.Children(r)) :: Rooted(w.Up(), j)
    ensures forall a, b | 0 <= a < b < |w.l.Children(r)| :: w.l.Children(r)[a] < w.l.Children(r)[b]
    ensures multiset(Verdicts(w, Subtree(w.Up(), r)))
            == multiset{Verdict(w, r)} + multiset(Verdicts(w, Subtrees(w.Up(), w.l.Children(r))))
  {
    DepthStep(w.Up(), r);
    ChildrenAreChildList(w, r);
    NodeSplits(w, r);
  }
}
