/** The budgeted walk down a delta chain: walkChain, spread, rebuild and failSubtree (internal/odb). */
module DeltaWalk {
  import opened Bytes
  import opened PackHeader
  import opened PackLayout
  import opened Forest
  import opened DeltaSpec
  import opened ChainBudget
  import Delta

  /** A level of an in-progress chain; `next` is the place in the child list of the next child to visit. */
  datatype Frame = Frame(entry: nat, data: Data, next: nat)

  // ---------- what is still owed ----------

  ghost predicate Decodable(w: World, i: nat)
    requires w.Valid()
  {
    Rooted(w.Up(), i) && Decode(w, i).Some?
  }

  ghost predicate GoodFrame(w: World, f: Frame)
    requires w.Valid()
  {
    && Decodable(w, f.entry) && Decode(w, f.entry) == Some(f.data)
    && w.l.childStart[f.entry] <= f.next <= w.l.childStart[f.entry + 1]
  }

  /** The children a frame has yet to visit. */
  ghost function Ahead(w: World, f: Frame): (cs: seq<nat>)
    requires w.Valid() && GoodFrame(w, f)
    ensures ChildList(w, f.entry, cs)
  {
    AheadAreChildren(w, f);
    w.l.childList[f.next..w.l.childStart[f.entry + 1]]
  }

  lemma {:induction false} AheadAreChildren(w: World, f: Frame)
    requires w.Valid() && GoodFrame(w, f)
    ensures ChildList(w, f.entry, w.l.childList[f.next..w.l.childStart[f.entry + 1]])
  {
    hide World.Valid, World.Up, Rooted, Decode, Layout.InRange;
    ChildrenAreChildList(w, f.entry);
    var all := w.l.Children(f.entry);
    var cs := w.l.childList[f.next..w.l.childStart[f.entry + 1]];
    assert forall k | 0 <= k < |cs| :: cs[k] == all[f.next - w.l.childStart[f.entry] + k];
  }

  ghost predicate GoodStack(w: World, stack: seq<Frame>)
    requires w.Valid()
  {
    forall k | 0 <= k < |stack| :: GoodFrame(w, stack[k])
  }

  /** The events the frames of a stack still owe. */
  ghost function Pending(w: World, typ: ObjType, stack: seq<Frame>): multiset<Event>
    requires w.Valid() && GoodStack(w, stack)
  {
    if stack == [] then multiset{}
    else
      var n := |stack| - 1;
      var f := stack[n];
      Pending(w, typ, stack[..n]) + Below(w, f.entry, Ahead(w, f), typ, f.data)
  }

  ghost predicate GoodDeferred(w: World, deferred: seq<nat>)
    requires w.Valid()
  {
    forall k | 0 <= k < |deferred| :: Decodable(w, deferred[k])
  }

  /** The events below the entries put off for later. Their own events are already out. */
  ghost function Owed(w: World, typ: ObjType, deferred: seq<nat>): multiset<Event>
    requires w.Valid() && GoodDeferred(w, deferred)
  {
    if deferred == [] then multiset{}
    else
      var n := |deferred| - 1;
      Owed(w, typ, deferred[..n]) + AllBelow(w, typ, deferred[n])
  }

  /** Everything below a decodable entry. */
  ghost function AllBelow(w: World, typ: ObjType, i: nat): multiset<Event>
    requires w.Valid() && Decodable(w, i)
  {
    ChildrenAreChildList(w, i);
    Below(w, i, w.l.Children(i), typ, Decode(w, i).value)
  }

  /** Everything a child owes when its parent's data is `base`. */
  ghost function ChildOwes(w: World, typ: ObjType, c: nat, base: Data): multiset<Event>
    requires w.Valid() && Rooted(w.Up(), c)
  {
    ChildrenAreChildList(w, c);
    var out := w.Build(c, base);
    if out.None? then multiset{CannotUnpack(c)} + Failed(w, c, w.l.Children(c))
    else multiset{Finished(w, c, typ, out.value)} + Below(w, c, w.l.Children(c), typ, out.value)
  }

  // ---------- how much is left to do ----------

  /** Visits left below these children: two for each entry. */
  ghost function Work(w: World, i: nat, cs: seq<nat>): nat
    requires w.Valid() && ChildList(w, i, cs)
    decreases Room(w.Up(), i), |cs|
  {
    if cs == [] then 0
    else
      ChildRoom(w.Up(), i, cs[0]);
      ChildrenAreChildList(w, cs[0]);
      2 + Work(w, cs[0], w.l.Children(cs[0])) + Work(w, i, cs[1..])
  }

  ghost function Weight(w: World, i: nat): nat
    requires w.Valid() && Rooted(w.Up(), i)
  {
    ChildrenAreChildList(w, i);
    2 + Work(w, i, w.l.Children(i))
  }

  ghost function StackWork(w: World, stack: seq<Frame>): nat
    requires w.Valid() && GoodStack(w, stack)
  {
    if stack == [] then 0
    else
      var n := |stack| - 1;
      StackWork(w, stack[..n]) + 1 + Work(w, stack[n].entry, Ahead(w, stack[n]))
  }

  ghost predicate AllRooted(w: World, list: seq<nat>)
    requires w.Valid()
  {
    forall k | 0 <= k < |list| :: Rooted(w.Up(), list[k])
  }

  ghost function ListWork(w: World, list: seq<nat>): nat
    requires w.Valid() && AllRooted(w, list)
  {
    if list == [] then 0
    else ListWork(w, list[..|list| - 1]) + Weight(w, list[|list| - 1])
  }

  // ---------- what is held ----------

  /** The bytes of the frames above depth zero. */
  function Held(stack: seq<Frame>): nat
  {
    if |stack| <= 1 then 0 else Held(stack[..|stack| - 1]) + |stack[|stack| - 1].data|
  }

  // ---------- one step ----------

  /** Moving a frame's cursor past a child takes that child's part out of what is pending. */
  lemma {:induction false} Advance(w: World, typ: ObjType, below: seq<Frame>, f: Frame)
    requires w.Valid() && GoodStack(w, below) && GoodFrame(w, f) && f.next < w.l.childStart[f.entry + 1]
    ensures f.next < |w.l.childList|
    ensures var c := w.l.childList[f.next];
            var g := f.(next := f.next + 1);
            && GoodFrame(w, g) && GoodStack(w, below + [f]) && GoodStack(w, below + [g])
            && c < |w.l.ents| && w.Up()[c] == f.entry && Rooted(w.Up(), c)
            && Decode(w, c) == w.Build(c, f.data)
            && Pending(w, typ, below + [f]) == Pending(w, typ, below + [g]) + ChildOwes(w, typ, c, f.data)
            && StackWork(w, below + [f]) == StackWork(w, below + [g]) + Weight(w, c)
            && Held(below + [f]) == Held(below + [g])
  {
    hide World.Valid, Below, Work, ChildOwes, Weight, Ahead, Decode;
    var g, c := f.(next := f.next + 1), w.l.childList[f.next];
    AdvanceFrame(w, typ, f);
    Snoc(w, typ, below, f);
    Snoc(w, typ, below, g);
  }

  lemma {:induction false} AdvanceFrame(w: World, typ: ObjType, f: Frame)
    requires w.Valid() && GoodFrame(w, f) && f.next < w.l.childStart[f.entry + 1]
    ensures f.next < |w.l.childList|
    ensures var c := w.l.childList[f.next];
            var g := f.(next := f.next + 1);
            && GoodFrame(w, g)
            && c < |w.l.ents| && w.Up()[c] == f.entry && Rooted(w.Up(), c)
            && Decode(w, c) == w.Build(c, f.data)
            && Below(w, f.entry, Ahead(w, f), typ, f.data)
               == Below(w, f.entry, Ahead(w, g), typ, f.data) + ChildOwes(w, typ, c, f.data)
            && Work(w, f.entry, Ahead(w, f)) == Work(w, f.entry, Ahead(w, g)) + Weight(w, c)
  {
    hide Finished, World.Valid, World.Build, Rooted, Depth, Failed;
    var g, c := f.(next := f.next + 1), w.l.childList[f.next];
    var cs := Ahead(w, f);
    assert cs[0] == c && cs[1..] == Ahead(w, g);
    ChildRoom(w.Up(), f.entry, c);
    DepthStep(w.Up(), c);
    BelowFirst(w, f.entry, cs, typ, f.data);
    FirstChild(w, f.entry, cs);
    WeightIs(w, c);
  }

  lemma {:induction false} BelowFirst(w: World, i: nat, cs: seq<nat>, typ: ObjType, base: Data)
    requires w.Valid() && ChildList(w, i, cs) && cs != []
    ensures ChildList(w, i, cs[1..]) && Rooted(w.Up(), cs[0])
    ensures Below(w, i, cs, typ, base) == Below(w, i, cs[1..], typ, base) + ChildOwes(w, typ, cs[0], base)
  {
    hide Finished, World.Valid, World.Build, Rooted, Failed;
    ChildRoom(w.Up(), i, cs[0]);
    ChildrenAreChildList(w, cs[0]);
  }

  /** The measures of a stack with one more frame. */
  lemma {:induction false} Snoc(w: World, typ: ObjType, stack: seq<Frame>, f: Frame)
    requires w.Valid() && GoodStack(w, stack) && GoodFrame(w, f)
    ensures GoodStack(w, stack + [f])
    ensures Pending(w, typ, stack + [f]) == Pending(w, typ, stack) + Below(w, f.entry, Ahead(w, f), typ, f.data)
    ensures StackWork(w, stack + [f]) == StackWork(w, stack) + 1 + Work(w, f.entry, Ahead(w, f))
    ensures Held(stack + [f]) == if stack == [] then 0 else Held(stack) + |f.data|
  {
    assert (stack + [f])[..|stack|] == stack;
  }

  lemma {:induction false} Exhausted(w: World, typ: ObjType, f: Frame)
    requires w.Valid() && GoodFrame(w, f) && f.next >= w.l.childStart[f.entry + 1]
    ensures Ahead(w, f) == [] && Below(w, f.entry, Ahead(w, f), typ, f.data) == multiset{}
    ensures Work(w, f.entry, Ahead(w, f)) == 0
  {
  }

  /** A child with children of its own, as a frame about to visit the first of them. */
  lemma {:induction false} Fresh(w: World, typ: ObjType, c: nat, out: Data)
    requires w.Valid() && Rooted(w.Up(), c) && Decode(w, c) == Some(out)
    ensures Decodable(w, c)
    ensures var f := Frame(c, out, w.l.childStart[c]);
            && GoodFrame(w, f) && Ahead(w, f) == w.l.Children(c)
            && AllBelow(w, typ, c) == Below(w, c, Ahead(w, f), typ, out)
            && Work(w, c, Ahead(w, f)) + 2 == Weight(w, c)
  {
    hide World.Valid, Below, Work, Decode, Rooted, ChildList;
    ChildrenAreChildList(w, c);
  }

  lemma {:induction false} DeferOne(w: World, typ: ObjType, deferred: seq<nat>, c: nat)
    requires w.Valid() && GoodDeferred(w, deferred) && Decodable(w, c)
    ensures GoodDeferred(w, deferred + [c])
    ensures Owed(w, typ, deferred + [c]) == Owed(w, typ, deferred) + AllBelow(w, typ, c)
    ensures ListWork(w, deferred + [c]) == ListWork(w, deferred) + Weight(w, c)
  {
    assert (deferred + [c])[..|deferred|] == deferred;
  }

  /** A stack as its top frame and the rest. */
  lemma {:induction false} Unstack(w: World, typ: ObjType, stack: seq<Frame>, deferred: seq<nat>)
    requires w.Valid() && stack != [] && GoodStack(w, stack) && GoodDeferred(w, deferred)
    ensures var n := |stack| - 1;
            var f, below := stack[n], stack[..n];
            && GoodFrame(w, f) && GoodStack(w, below) && stack == below + [f] && AllRooted(w, deferred)
            && f.entry < |w.l.ents|
            && Pending(w, typ, stack) == Pending(w, typ, below) + Below(w, f.entry, Ahead(w, f), typ, f.data)
            && StackWork(w, stack) == StackWork(w, below) + 1 + Work(w, f.entry, Ahead(w, f))
            && Held(stack) == if below == [] then 0 else Held(below) + |f.data|
  {
    hide World.Valid, Below, Work, Ahead, Decode, GoodFrame, Pending, StackWork, Held, GoodDeferred, AllRooted;
    var n := |stack| - 1;
    assert forall k | 0 <= k < n :: stack[..n][k] == stack[k];
    assert GoodFrame(w, stack[n]);
    FrameEntry(w, stack[n]);
    Snoc(w, typ, stack[..n], stack[n]);
    assert stack[..n] + [stack[n]] == stack;
    DeferredRooted(w, deferred);
  }

  lemma {:induction false} DeferredRooted(w: World, deferred: seq<nat>)
    requires w.Valid() && GoodDeferred(w, deferred)
    ensures AllRooted(w, deferred)
  {
    hide World.Valid, Rooted, Decode;
  }

  lemma {:induction false} OneFrame(w: World, typ: ObjType, f: Frame)
    requires w.Valid() && GoodFrame(w, f)
    ensures GoodStack(w, [f]) && Held([f]) == 0
    ensures Pending(w, typ, [f]) == Below(w, f.entry, Ahead(w, f), typ, f.data)
    ensures StackWork(w, [f]) == 1 + Work(w, f.entry, Ahead(w, f))
  {
    hide World.Valid, Below, Work, Ahead, Decode, GoodFrame;
    assert [f][..0] == [];
    NoFrames(w, typ);
  }

  lemma {:induction false} NoFrames(w: World, typ: ObjType)
    requires w.Valid()
    ensures Pending(w, typ, []) == multiset{} && StackWork(w, []) == 0 && Held([]) == 0
  {
  }

  /** What a child owes, case by case. */
  lemma {:induction false} ChildCases(w: World, typ: ObjType, c: nat, base: Data)
    requires w.Valid() && Rooted(w.Up(), c) && Decode(w, c) == w.Build(c, base)
    ensures ChildList(w, c, w.l.Children(c))
    ensures w.Build(c, base).None? ==>
      ChildOwes(w, typ, c, base) == multiset{CannotUnpack(c)} + Failed(w, c, w.l.Children(c))
    ensures w.Build(c, base).Some? ==>
      ChildOwes(w, typ, c, base) == multiset{Finished(w, c, typ, w.Build(c, base).value)} + AllBelow(w, typ, c)
    ensures Weight(w, c) >= 2
  {
    hide World.Valid, Below, Failed, Decode, Finished, World.Build;
    ChildrenAreChildList(w, c);
  }

  lemma Regroup(l: multiset<Event>, a: multiset<Event>, b: multiset<Event>, p: multiset<Event>, o: multiset<Event>,
                p': multiset<Event>, o': multiset<Event>)
    requires p' + o' == p + o + b
    ensures l + a + p' + o' == l + p + o + (a + b)
  {
    assert l + a + p' + o' == l + a + (p' + o');
  }

  // ---------- climbing ----------

  ghost predicate Parented(w: World, path: seq<nat>, k: nat)
    requires w.Valid() && k + 1 < |path| && AllRooted(w, path)
  {
    w.Up()[path[k]] == path[k + 1]
  }

  /** Each entry's parent is the next one. */
  ghost predicate Chain(w: World, path: seq<nat>)
    requires w.Valid()
    ensures Chain(w, path) ==> path != [] && AllRooted(w, path)
  {
    path != [] && AllRooted(w, path) && forall k | 0 <= k < |path| - 1 :: Parented(w, path, k)
  }

  lemma {:induction false} ChainSnoc(w: World, path: seq<nat>, up: nat)
    requires w.Valid() && Chain(w, path) && Rooted(w.Up(), up) && w.Up()[path[|path| - 1]] == up
    ensures Chain(w, path + [up])
  {
    hide World.Valid, Rooted;
    var all := path + [up];
    assert forall k | 0 <= k < |path| :: all[k] == path[k];
    forall k | 0 <= k < |all| - 1
      ensures Parented(w, all, k)
    {
      assert k < |path| - 1 ==> Parented(w, path, k);
    }
  }

  /** On a chain from a good root every entry is good, and its base read back off the packfile is its parent. */
  lemma {:induction false} GoodOnChain(w: World, j: nat)
    requires w.Valid() && Rooted(w.Up(), j) && w.l.ents[RootOf(w.Up(), j)].typ != Bad
    ensures w.l.ents[j].typ != Bad
    ensures w.p.Valid() && Sorted(Offs(w.l.ents)) && Linkage(w.p, Offs(w.l.ents), j) == (w.l.ents[j].typ, w.Up()[j])
  {
    DepthStep(w.Up(), j);
    LinkageShape(w.p, Offs(w.l.ents), j);
    assert EntryRead(w.p, Offs(w.l.ents), j, w.l.ents[j]);
  }

  /** What decodes has a good root. */
  lemma {:induction false} DecodableChain(w: World, j: nat)
    requires w.Valid() && Decodable(w, j)
    ensures Rooted(w.Up(), j) && Decode(w, j).Some? && w.l.ents[RootOf(w.Up(), j)].typ != Bad
    decreases Depth(w.Up(), j)
  {
    hide World.Valid;
    DepthStep(w.Up(), j);
    if w.Up()[j] >= 0 {
      DecodableChain(w, w.Up()[j]);
    }
  }

  lemma FrameEntry(w: World, f: Frame)
    requires w.Valid() && GoodFrame(w, f)
    ensures Decodable(w, f.entry) && Rooted(w.Up(), f.entry) && f.entry < |w.l.ents|
  {
    hide World.Valid, Rooted, Decode;
  }

  lemma Sizes(w: World)
    requires w.Valid()
    ensures w.l.Shaped() && |w.l.childStart| == |w.l.ents| + 1 && |w.Up()| == |w.l.ents|
  {
  }

  lemma {:induction false} ChainAt(w: World, path: seq<nat>, k: nat)
    requires w.Valid() && Chain(w, path) && k < |path|
    ensures Rooted(w.Up(), path[k])
    ensures k + 1 < |path| ==> Rooted(w.Up(), path[k + 1]) && w.Up()[path[k]] == path[k + 1]
  {
    hide World.Valid, Rooted;
    assert k + 1 < |path| ==> Parented(w, path, k);
  }

  /** A chain fails as a whole if any entry of it fails. */
  lemma {:induction false} ChainFails(w: World, path: seq<nat>, k: nat)
    requires w.Valid() && Chain(w, path) && k < |path| && Decode(w, path[k]).None?
    ensures Decode(w, path[0]).None?
    decreases k
  {
    hide World.Valid, World.Up, World.Build, World.RootData, Decode, RootOf, Chain, Rooted;
    if k > 0 {
      ChainAt(w, path, k - 1);
      DecodeStep(w, path[k - 1]);
      ChainFails(w, path, k - 1);
    }
  }

  lemma {:induction false} LastDeferred(w: World, typ: ObjType, deferred: seq<nat>)
    requires w.Valid() && deferred != [] && GoodDeferred(w, deferred) && AllRooted(w, deferred)
    ensures var n := |deferred| - 1;
            var d, front := deferred[n], deferred[..n];
            && Decodable(w, d) && GoodDeferred(w, front) && AllRooted(w, front)
            && Owed(w, typ, deferred) == Owed(w, typ, front) + AllBelow(w, typ, d)
            && ListWork(w, deferred) == ListWork(w, front) + Weight(w, d)
  {
    hide World.Valid, Rooted, Decode, AllBelow, Weight;
    var n := |deferred| - 1;
    assert forall k | 0 <= k < n :: deferred[..n][k] == deferred[k];
  }

  /** What a root's walk reports, case by case. */
  lemma {:induction false} RootCases(w: World, r: nat)
    requires w.Valid() && r < |w.l.ents| && w.Up()[r] < 0
    ensures Rooted(w.Up(), r) && ChildList(w, r, w.l.Children(r)) && Decode(w, r) == w.RootData(r)
    ensures var typ := w.l.ents[r].typ;
            if typ == Bad then WalkEvents(w, r) == multiset{}
            else if w.Streamed(r) then WalkEvents(w, r) == multiset{StreamedEvent(w, r)}
            else if w.RootData(r).None? then
              WalkEvents(w, r) == multiset{CannotUnpack(r)} + Failed(w, r, w.l.Children(r))
            else
              && Decodable(w, r)
              && WalkEvents(w, r) == multiset{Finished(w, r, typ, w.RootData(r).value)} + AllBelow(w, typ, r)
              && (w.l.Children(r) == [] ==> AllBelow(w, typ, r) == multiset{})
  {
    hide World.Valid, World.RootData, Finished, Failed, StreamedEvent;
    DepthStep(w.Up(), r);
    DecodeStep(w, r);
    ChildrenAreChildList(w, r);
  }

  lemma {:induction false} NothingDeferred(w: World, typ: ObjType)
    requires w.Valid()
    ensures GoodDeferred(w, []) && AllRooted(w, []) && Owed(w, typ, []) == multiset{} && ListWork(w, []) == 0
  {
  }

  // ---------- the failing subtree ----------

  /** What failSubtree owes for the entries on its stack. */
  ghost function FailPending(w: World, stack: seq<nat>): multiset<Event>
    requires w.Valid() && AllRooted(w, stack)
  {
    if stack == [] then multiset{}
    else
      var n := |stack| - 1;
      ChildrenAreChildList(w, stack[n]);
      FailPending(w, stack[..n]) + (multiset{CannotUnpack(stack[n])} + Failed(w, stack[n], w.l.Children(stack[n])))
  }

  lemma {:induction false} FailPendingList(w: World, stack: seq<nat>, i: nat, cs: seq<nat>)
    requires w.Valid() && AllRooted(w, stack) && ChildList(w, i, cs)
    ensures AllRooted(w, stack + cs)
    ensures FailPending(w, stack + cs) == FailPending(w, stack) + Failed(w, i, cs)
    ensures ListWork(w, stack + cs) == ListWork(w, stack) + Work(w, i, cs)
    decreases |cs|
  {
    hide World.Valid, FailPending, ListWork, Rooted, AllRooted, Weight, Failed, Work, ChildList;
    FirstChild(w, i, cs);
    if cs == [] {
      assert stack + cs == stack;
    } else {
      var c := cs[0];
      ListSnoc(w, stack, c);
      WeightIs(w, c);
      FailPendingList(w, stack + [c], i, cs[1..]);
      assert stack + cs == stack + [c] + cs[1..];
    }
  }

  lemma {:induction false} WeightIs(w: World, c: nat)
    requires w.Valid() && Rooted(w.Up(), c)
    ensures ChildList(w, c, w.l.Children(c)) && Weight(w, c) == 2 + Work(w, c, w.l.Children(c))
  {
    hide World.Valid, Work;
    ChildrenAreChildList(w, c);
  }

  lemma {:induction false} FirstChild(w: World, i: nat, cs: seq<nat>)
    requires w.Valid() && ChildList(w, i, cs)
    ensures cs == [] ==> Failed(w, i, cs) == multiset{} && Work(w, i, cs) == 0
    ensures cs != [] ==>
      && ChildList(w, i, cs[1..]) && Rooted(w.Up(), cs[0]) && ChildList(w, cs[0], w.l.Children(cs[0]))
      && Failed(w, i, cs)
         == multiset{CannotUnpack(cs[0])} + Failed(w, cs[0], w.l.Children(cs[0])) + Failed(w, i, cs[1..])
      && Work(w, i, cs) == 2 + Work(w, cs[0], w.l.Children(cs[0])) + Work(w, i, cs[1..])
  {
    hide World.Valid, Rooted;
    if cs != [] {
      ChildRoom(w.Up(), i, cs[0]);
      ChildrenAreChildList(w, cs[0]);
    }
  }

  lemma NothingListed(w: World)
    requires w.Valid()
    ensures AllRooted(w, []) && FailPending(w, []) == multiset{} && ListWork(w, []) == 0
  {
  }

  lemma {:induction false} LastListed(w: World, stack: seq<nat>, c: nat)
    requires w.Valid() && AllRooted(w, stack + [c])
    ensures AllRooted(w, stack) && Rooted(w.Up(), c)
  {
    hide World.Valid, Rooted;
    var all := stack + [c];
    assert all[|stack|] == c && forall k | 0 <= k < |stack| :: all[k] == stack[k];
  }

  lemma {:induction false} ListSnoc(w: World, stack: seq<nat>, c: nat)
    requires w.Valid() && AllRooted(w, stack) && Rooted(w.Up(), c)
    ensures ChildList(w, c, w.l.Children(c))
    ensures AllRooted(w, stack + [c])
    ensures FailPending(w, stack + [c])
            == FailPending(w, stack) + (multiset{CannotUnpack(c)} + Failed(w, c, w.l.Children(c)))
    ensures ListWork(w, stack + [c]) == ListWork(w, stack) + Weight(w, c)
  {
    hide World.Valid, Failed;
    ChildrenAreChildList(w, c);
    assert (stack + [c])[..|stack|] == stack;
  }
}

/** The walker object: its log of events and its dealings with the budget. */
module DeltaWalker {
  import opened Bytes
  import opened PackHeader
  import opened PackLayout
  import opened Forest
  import opened DeltaSpec
  import opened ChainBudget
  import opened DeltaWalk
  import Delta

  class Walker {
    const w: World
    /** What the shared budget answers this worker above depth zero, in the order it asks. Other workers move the
        budget in between, so any sequence of answers can occur. */
    const answers: nat -> bool
    var asked: nat
    /** Everything reported so far. */
    var log: seq<Event>
    /** Everything this worker did to the budget. */
    ghost var ops: seq<Op>

    constructor (w: World, answers: nat -> bool)
      ensures this.w == w && this.answers == answers && log == [] && ops == []
    {
      this.w, this.answers, asked, log, ops := w, answers, 0, [], [];
    }

    method Take(depth: nat, n: nat) returns (ok: bool)
      requires Covered(ops)
      modifies this`asked, this`ops
      ensures depth == 0 ==> ok && ops == old(ops)
      ensures depth > 0 ==> ops == old(ops) + [if ok then Took(n) else Refused(n)]
      ensures Covered(ops) && Net(ops) == old(Net(ops)) + if depth > 0 && ok then n else 0
    {
      if depth == 0 {
        return true;
      }
      CoveredIsNonNegative(ops);
      ok := answers(asked);
      asked := asked + 1;
      CoveredSnoc(ops, if ok then Took(n) else Refused(n));
      ops := ops + [if ok then Took(n) else Refused(n)];
    }

    method Give(depth: nat, n: nat)
      requires Covered(ops) && (depth > 0 ==> Net(ops) >= n)
      modifies this`ops
      ensures ops == if depth == 0 then old(ops) else old(ops) + [Gave(n)]
      ensures Covered(ops) && Net(ops) == old(Net(ops)) - if depth > 0 then n else 0
    {
      if depth > 0 {
        CoveredSnoc(ops, Gave(n));
        ops := ops + [Gave(n)];
      }
    }

    method Finish(i: nat, typ: ObjType, data: Data)
      requires i < |w.l.ents|
      modifies this`log
      ensures log == old(log) + [Finished(w, i, typ, data)]
    {
      if w.hash(typ, data) != w.OIDOf(i) {
        log := log + [Corrupt(i, w.OIDOf(i))];
        return;
      }
      log := log + [Object(i, w.OIDOf(i), typ, Some(data))];
    }

    method FinishStreamed(i: nat)
      requires i < |w.l.ents|
      modifies this`log
      ensures log == old(log) + [StreamedEvent(w, i)]
    {
      var e := w.l.ents[i];
      var got := w.streamHash(e.DataOff(), e.size, e.typ);
      if got.None? {
        log := log + [CannotUnpack(i)];
        return;
      }
      if got.value != w.OIDOf(i) {
        log := log + [Corrupt(i, w.OIDOf(i))];
        return;
      }
      log := log + [Object(i, w.OIDOf(i), e.typ, None)];
    }

    /** An entry that could not be produced, and every delta standing on it. */
    method Fail(root: nat)
      requires w.Valid() && Rooted(w.Up(), root) && ChildList(w, root, w.l.Children(root))
      modifies this`log
      ensures multiset(log) == old(multiset(log)) + multiset{CannotUnpack(root)} + Failed(w, root, w.l.Children(root))
    {
      hide *;
      log := log + [CannotUnpack(root)];
      ghost var total := multiset(log) + Failed(w, root, w.l.Children(root));
      var stack := w.l.Children(root);
      NothingListed(w);
      FailPendingList(w, [], root, stack);
      assert [] + stack == stack;
      while stack != []
        invariant AllRooted(w, stack)
        invariant multiset(log) + FailPending(w, stack) == total
        decreases ListWork(w, stack)
      {
        var i := stack[|stack| - 1];
        assert stack == stack[..|stack| - 1] + [i];
        stack := stack[..|stack| - 1];
        log := log + [CannotUnpack(i)];
        LastListed(w, stack, i);
        ListSnoc(w, stack, i);
        WeightIs(w, i);
        FailPendingList(w, stack, i, w.l.Children(i));
        stack := stack + w.l.Children(i);
      }
    }

    /** One round of spread's loop: drop the top frame, or visit its next child. Whatever the budget answers,
        what is reported, what is pending and what is put off add up to the same events. */
    method Visit(typ: ObjType, stack0: seq<Frame>, deferred0: seq<nat>) returns (stack: seq<Frame>, deferred: seq<nat>)
      requires w.Valid() && stack0 != [] && GoodStack(w, stack0) && GoodDeferred(w, deferred0)
      requires Covered(ops) && Net(ops) >= Held(stack0)
      modifies this
      ensures GoodStack(w, stack) && GoodDeferred(w, deferred) && AllRooted(w, deferred0) && AllRooted(w, deferred)
      ensures deferred0 <= deferred
      ensures multiset(log) + Pending(w, typ, stack) + Owed(w, typ, deferred)
              == old(multiset(log)) + Pending(w, typ, stack0) + Owed(w, typ, deferred0)
      ensures StackWork(w, stack) < StackWork(w, stack0)
      ensures StackWork(w, stack) + ListWork(w, deferred) <= StackWork(w, stack0) + ListWork(w, deferred0)
      ensures Covered(ops) && Net(ops) - Held(stack) == old(Net(ops)) - Held(stack0)
    {
      hide *;
      Sizes(w);
      stack, deferred := stack0, deferred0;
      var i := |stack| - 1;
      var top, below := stack[i], stack[..i];
      Unstack(w, typ, stack, deferred);
      var end := w.l.childStart[top.entry + 1];
      if top.next >= end {
        Exhausted(w, typ, top);
        NoFrames(w, typ);
        Give(i, |top.data|);
        stack := below;
        return;
      }
      Advance(w, typ, below, top);
      var child := w.l.childList[top.next];
      stack, deferred := VisitChild(typ, below, top.(next := top.next + 1), child, deferred);
    }

    /** Visit one child of the top frame, whose cursor is already past it. */
    method VisitChild(typ: ObjType, below: seq<Frame>, top: Frame, child: nat, deferred0: seq<nat>)
      returns (stack: seq<Frame>, deferred: seq<nat>)
      requires w.Valid() && GoodStack(w, below) && GoodFrame(w, top) && GoodDeferred(w, deferred0)
      requires child < |w.l.ents| && w.Up()[child] == top.entry && Rooted(w.Up(), child)
      requires Decode(w, child) == w.Build(child, top.data)
      requires GoodStack(w, below + [top]) && Covered(ops) && Net(ops) >= Held(below + [top])
      modifies this
      ensures GoodStack(w, stack) && GoodDeferred(w, deferred) && AllRooted(w, deferred0) && AllRooted(w, deferred)
      ensures deferred0 <= deferred
      ensures multiset(log) + Pending(w, typ, stack) + Owed(w, typ, deferred)
              == old(multiset(log)) + Pending(w, typ, below + [top]) + Owed(w, typ, deferred0)
                 + ChildOwes(w, typ, child, top.data)
      ensures StackWork(w, stack) < StackWork(w, below + [top]) + Weight(w, child)
      ensures StackWork(w, stack) + ListWork(w, deferred)
              <= StackWork(w, below + [top]) + Weight(w, child) + ListWork(w, deferred0)
      ensures Covered(ops) && Net(ops) - Held(stack) == old(Net(ops)) - Held(below + [top])
    {
      hide *;
      DeferredRooted(w, deferred0);
      NotStreamed(w, child);
      assert w.l.ents[child].typ != Bad;
      ChildCases(w, typ, child, top.data);
      var out := Produce(child, top.data);
      stack, deferred := below + [top], deferred0;
      if out.None? {
        Fail(child);
        return;
      }
      Finish(child, typ, out.value);
      assert multiset(log) == old(multiset(log)) + multiset{Finished(w, child, typ, out.value)};
      stack, deferred := Keep(typ, below, top, child, out.value, deferred);
      Regroup(old(multiset(log)), multiset{Finished(w, child, typ, out.value)}, AllBelow(w, typ, child),
              Pending(w, typ, below + [top]), Owed(w, typ, deferred0), Pending(w, typ, stack), Owed(w, typ, deferred));
    }

    /** Hold a child that was just reported, put it off, or drop it because nothing stands on it. Descending into
        the last child hands the parent's buffer over. */
    method Keep(typ: ObjType, below: seq<Frame>, top: Frame, child: nat, out: Data, deferred0: seq<nat>)
      returns (stack: seq<Frame>, deferred: seq<nat>)
      requires w.Valid() && GoodStack(w, below) && GoodFrame(w, top) && GoodDeferred(w, deferred0)
      requires Rooted(w.Up(), child) && Decode(w, child) == Some(out)
      requires GoodStack(w, below + [top]) && Covered(ops) && Net(ops) >= Held(below + [top])
      requires AllRooted(w, deferred0)
      modifies this`asked, this`ops
      ensures GoodStack(w, stack) && GoodDeferred(w, deferred) && AllRooted(w, deferred)
      ensures deferred0 <= deferred
      ensures Decodable(w, child)
      ensures Pending(w, typ, stack) + Owed(w, typ, deferred)
              == Pending(w, typ, below + [top]) + Owed(w, typ, deferred0) + AllBelow(w, typ, child)
      ensures StackWork(w, stack) < StackWork(w, below + [top]) + Weight(w, child)
      ensures StackWork(w, stack) + ListWork(w, deferred)
              <= StackWork(w, below + [top]) + Weight(w, child) + ListWork(w, deferred0)
      ensures Covered(ops) && Net(ops) - Held(stack) == old(Net(ops)) - Held(below + [top])
    {
      hide *;
      Sizes(w);
      stack, deferred := below + [top], deferred0;
      FrameEntry(w, top);
      Snoc(w, typ, below, top);
      Fresh(w, typ, child, out);
      var f := Frame(child, out, w.l.childStart[child]);
      if w.l.childStart[child + 1] == w.l.childStart[child] {
        Exhausted(w, typ, f);
        return;
      }
      DeferOne(w, typ, deferred, child);
      DeferredRooted(w, deferred + [child]);
      var i := |below|;
      if top.next >= w.l.childStart[top.entry + 1] {
        Exhausted(w, typ, top);
        Give(i, |top.data|);
        var ok := Take(i, |out|);
        if !ok {
          deferred := deferred + [child];
          stack := below;
          return;
        }
        Snoc(w, typ, below, f);
        stack := below + [f];
        return;
      }
      var ok := Take(i + 1, |out|);
      if !ok {
        deferred := deferred + [child];
        return;
      }
      Snoc(w, typ, stack, f);
      stack := stack + [f];
    }

    /** Decompress a delta and apply it. */
    method Produce(child: nat, base: Data) returns (out: Option<Data>)
      requires child < |w.l.ents|
      ensures out == w.Build(child, base)
    {
      var e := w.l.ents[child];
      var delta := w.inflate(e.DataOff(), e.size);
      if delta.None? {
        return None;
      }
      out := Delta.ApplyDelta(base, delta.value);
    }

    /** Every delta standing on `base`, directly or not, is reported here or put off for later. */
    method Spread(base: nat, typ: ObjType, data: Data, deferred0: seq<nat>) returns (deferred: seq<nat>)
      requires w.Valid() && Rooted(w.Up(), base) && Decode(w, base) == Some(data) && GoodDeferred(w, deferred0)
      requires Covered(ops)
      modifies this
      ensures GoodDeferred(w, deferred) && AllRooted(w, deferred0) && AllRooted(w, deferred)
      ensures deferred0 <= deferred
      ensures multiset(log) + Owed(w, typ, deferred)
              == old(multiset(log)) + Owed(w, typ, deferred0) + AllBelow(w, typ, base)
      ensures ListWork(w, deferred) < ListWork(w, deferred0) + Weight(w, base)
      ensures Covered(ops) && Net(ops) == old(Net(ops))
    {
      hide *;
      Sizes(w);
      Fresh(w, typ, base, data);
      var f := Frame(base, data, w.l.childStart[base]);
      var stack := [f];
      deferred := deferred0;
      OneFrame(w, typ, f);
      DeferredRooted(w, deferred0);
      CoveredIsNonNegative(ops);
      while stack != []
        invariant GoodStack(w, stack) && GoodDeferred(w, deferred) && AllRooted(w, deferred)
        invariant deferred0 <= deferred
        invariant multiset(log) + Pending(w, typ, stack) + Owed(w, typ, deferred)
                  == old(multiset(log)) + Owed(w, typ, deferred0) + AllBelow(w, typ, base)
        invariant StackWork(w, stack) + ListWork(w, deferred) < ListWork(w, deferred0) + Weight(w, base)
        invariant Covered(ops) && Net(ops) == old(Net(ops)) + Held(stack)
        invariant old(Net(ops)) >= 0
        decreases StackWork(w, stack)
      {
        stack, deferred := Visit(typ, stack, deferred);
      }
      NoFrames(w, typ);
    }

    method MaterializeRoot(i: nat) returns (data: Option<Data>)
      requires i < |w.l.ents| && w.l.ents[i].typ != Bad
      ensures data == w.RootData(i)
    {
      if w.l.ents[i].typ.IsDelta() {
        return None;
      }
      data := w.inflate(w.l.ents[i].DataOff(), w.l.ents[i].size);
    }

    /** An entry decoded from the bottom of its own chain: climb by reading bases off the packfile, then build down. */
    method Rebuild(i: nat) returns (data: Option<Data>)
      requires w.Valid() && Rooted(w.Up(), i) && w.l.ents[RootOf(w.Up(), i)].typ != Bad
      ensures data == Decode(w, i)
    {
      hide *;
      var path := Climb(i);
      var k := |path| - 1;
      ChainAt(w, path, k);
      DecodeStep(w, path[k]);
      data := MaterializeRoot(path[k]);
      while data.Some? && k > 0
        invariant 0 <= k < |path| && Chain(w, path) && path[0] == i
        invariant Rooted(w.Up(), path[k]) && Decode(w, path[k]) == data
        decreases k
      {
        ChainAt(w, path, k - 1);
        DecodeStep(w, path[k - 1]);
        k := k - 1;
        data := Produce(path[k], data.value);
      }
      if data.None? {
        ChainFails(w, path, k);
      }
    }

    /** The entries from `i` up to its root. */
    method Climb(i: nat) returns (path: seq<nat>)
      requires w.Valid() && Rooted(w.Up(), i) && w.l.ents[RootOf(w.Up(), i)].typ != Bad
      ensures Chain(w, path) && path[0] == i
      ensures w.Up()[path[|path| - 1]] < 0 && w.l.ents[path[|path| - 1]].typ != Bad
    {
      hide World.Valid, World.Up, Decode, Rooted, Parented, Layout.Shaped, Linkage, HeaderAt, Sorted;
      path := [i];
      var offs := Offs(w.l.ents);
      var j := i;
      GoodOnChain(w, j);
      var up := ParentOf(w.p, offs, j);
      while up >= 0
        invariant Chain(w, path) && path[0] == i && path[|path| - 1] == j && Rooted(w.Up(), j)
        invariant RootOf(w.Up(), j) == RootOf(w.Up(), i) && w.Up()[j] == up && w.l.ents[j].typ != Bad
        decreases Depth(w.Up(), j)
      {
        DepthStep(w.Up(), j);
        DecodeStep(w, j);
        ChainSnoc(w, path, up);
        path := path + [up];
        j := up;
        GoodOnChain(w, j);
        up := ParentOf(w.p, offs, j);
      }
    }

    /** A root and every delta built on it: whatever the budget answers, the reports are the same. */
    method WalkChain(root: nat)
      requires w.Valid() && root < |w.l.ents| && w.Up()[root] < 0 && Covered(ops)
      modifies this
      ensures multiset(log) == old(multiset(log)) + WalkEvents(w, root)
      ensures Covered(ops) && Net(ops) == old(Net(ops))
    {
      hide *;
      var typ := w.l.ents[root].typ;
      RootCases(w, root);
      if typ == Bad {
        return;
      }
      if w.Streamed(root) {
        FinishStreamed(root);
        return;
      }
      var data := MaterializeRoot(root);
      if data.None? {
        Fail(root);
        return;
      }
      Finish(root, typ, data.value);
      assert multiset(log) == old(multiset(log)) + multiset{Finished(w, root, typ, data.value)};
      if w.l.Children(root) == [] {
        return;
      }
      SpreadAll(root, typ, data.value);
    }

    /** Everything below a decoded root, with what was put off taken up again until nothing is left. */
    method SpreadAll(root: nat, typ: ObjType, data: Data)
      requires w.Valid() && Rooted(w.Up(), root) && Decode(w, root) == Some(data) && Covered(ops)
      modifies this
      ensures multiset(log) == old(multiset(log)) + AllBelow(w, typ, root)
      ensures Covered(ops) && Net(ops) == old(Net(ops))
    {
      hide *;
      Fresh(w, typ, root, data);
      NothingDeferred(w, typ);
      var deferred := Spread(root, typ, data, []);
      while deferred != []
        invariant GoodDeferred(w, deferred) && AllRooted(w, deferred)
        invariant multiset(log) + Owed(w, typ, deferred) == old(multiset(log)) + AllBelow(w, typ, root)
        invariant Covered(ops) && Net(ops) == old(Net(ops))
        decreases ListWork(w, deferred)
      {
        var d := deferred[|deferred| - 1];
        LastDeferred(w, typ, deferred);
        deferred := deferred[..|deferred| - 1];
        DecodableChain(w, d);
        var again := Rebuild(d);
        if again.None? {
          assert false;
        }
        deferred := Spread(d, typ, again.value, deferred);
      }
      NothingDeferred(w, typ);
    }
  }
}
