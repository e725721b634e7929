/** The workers of verifyObjects (internal/odb/verify.go): one counter, one budget, and walks that interleave at every
    step they take on either. */
module PackWorkers {
  import opened Bytes
  import opened Sums
  import opened PackHeader
  import opened PackLayout
  import opened Forest
  import opened DeltaSpec
  import opened DeltaWalk
  import opened PackVerify

  /** A decoded child on its way into the stack: its parent's buffer still to be given back, or room to be asked for. */
  datatype Want = Nothing | Handing(child: Frame) | Asking(child: Frame)

  datatype Doing =
    /** About to draw a position. */
    | Idle
    | Starting(root: nat)
    /** Inside walkChain: entries that are being failed, the frames, the child that wants room, what was put off. */
    | Walking(root: nat, failing: seq<nat>, stack: seq<Frame>, want: Want, deferred: seq<nat>)
    | Returned

  /** A worker, and every position it has drawn. */
  datatype Worker = Worker(drawn: multiset<nat>, doing: Doing)

  datatype State = State(next: nat, budget: int, log: seq<Event>, workers: seq<Worker>)

  // ---------- the steps ----------

  ghost predicate GoodWant(w: World, want: Want, stack: seq<Frame>)
    requires w.Valid()
  {
    && (want.Handing? ==> stack != [] && Spent(w, stack[|stack| - 1]))
    && (want != Nothing ==> GoodFrame(w, want.child) && want.child.next == w.l.childStart[want.child.entry])
  }

  /** No child of the frame is left to visit. */
  ghost predicate Spent(w: World, f: Frame)
    requires w.Valid()
  {
    f.entry < |w.l.ents| && f.next >= w.l.childStart[f.entry + 1]
  }

  ghost predicate Good(w: World, d: Doing)
    requires w.Valid()
  {
    match d
    case Starting(r) => r < |w.l.ents| && w.Up()[r] < 0
    case Walking(r, failing, stack, want, deferred) =>
      && r < |w.l.ents| && AllRooted(w, failing) && GoodStack(w, stack) && GoodWant(w, want, stack)
      && GoodDeferred(w, deferred) && AllRooted(w, deferred)
    case _ => true
  }

  /** What one step does: where it leads, what it reports, and what it takes from the budget. */
  datatype Move = Move(doing: Doing, events: seq<Event>, taken: int)

  /** A frame about to visit the first child of its entry. */
  ghost function NewFrame(w: World, i: nat, data: Data): Frame
    requires w.Valid() && i < |w.l.ents|
  {
    Frame(i, data, w.l.childStart[i])
  }

  ghost function TypeOf(w: World, root: nat): ObjType
    requires root < |w.l.ents|
  {
    w.l.ents[root].typ
  }

  /** walkChain up to its first spread. */
  ghost function Start(w: World, r: nat): Move
    requires w.Valid() && Good(w, Starting(r))
  {
    if TypeOf(w, r) == Bad then Move(Idle, [], 0)
    else if w.Streamed(r) then Move(Idle, [StreamedEvent(w, r)], 0)
    else match w.RootData(r)
      case None => Move(Walking(r, [r], [], Nothing, []), [], 0)
      case Some(data) =>
        Move(Walking(r, [], if w.l.Children(r) == [] then [] else [NewFrame(w, r, data)], Nothing, []),
             [Finished(w, r, TypeOf(w, r), data)], 0)
  }

  /** One round of failSubtree. */
  ghost function FailOne(w: World, d: Doing): Move
    requires w.Valid() && d.Walking? && Good(w, d) && d.failing != []
  {
    var n := |d.failing| - 1;
    FailingRooted(w, d);
    Move(d.(failing := d.failing[..n] + w.l.Children(d.failing[n])), [CannotUnpack(d.failing[n])], 0)
  }

  lemma FailingRooted(w: World, d: Doing)
    requires w.Valid() && d.Walking? && Good(w, d) && d.failing != []
    ensures d.failing[|d.failing| - 1] < |w.l.ents|
  {
    assert Rooted(w.Up(), d.failing[|d.failing| - 1]);
  }

  /** Dropping the top frame gives its bytes back, unless it is at the bottom. */
  ghost function Given(stack: seq<Frame>): int
    requires stack != []
  {
    if |stack| == 1 then 0 else -|stack[|stack| - 1].data|
  }

  ghost function HandOver(d: Doing): Move
    requires d.Walking? && d.want.Handing? && d.stack != []
  {
    Move(d.(stack := d.stack[..|d.stack| - 1], want := Asking(d.want.child)), [], Given(d.stack))
  }

  /** take: the bottom of a stack is free; above it the budget has the room, or the child is put off. */
  ghost function Ask(d: Doing, budget: int): Move
    requires d.Walking? && d.want.Asking?
  {
    var f := d.want.child;
    if d.stack == [] then Move(d.(stack := [f], want := Nothing), [], 0)
    else if budget >= |f.data| then Move(d.(stack := d.stack + [f], want := Nothing), [], |f.data|)
    else Move(d.(want := Nothing, deferred := d.deferred + [f.entry]), [], 0)
  }

  /** One round of spread's loop, up to the first step on the budget: the round that `DeltaWalker.Walker.Visit` makes as
      one method is cut here where another worker may take from the budget or give to it. */
  ghost function VisitTop(w: World, d: Doing): Move
    requires w.Valid() && d.Walking? && Good(w, d) && d.stack != []
  {
    var n := |d.stack| - 1;
    var top := d.stack[n];
    TopIsGood(w, d);
    if Spent(w, top) then Move(d.(stack := d.stack[..n]), [], Given(d.stack))
    else
      VisitChild(w, d.(stack := d.stack[..n] + [top.(next := top.next + 1)]), w.l.childList[top.next], top.data)
  }

  /** The top frame's next child, whose cursor is already past it. */
  ghost function VisitChild(w: World, d: Doing, child: nat, base: Data): Move
    requires w.Valid() && d.Walking? && d.stack != [] && child < |w.l.ents| && d.root < |w.l.ents|
  {
    if w.l.ents[child].typ == Bad then Move(d, [], 0)
    else match w.Build(child, base)
      case None => Move(d.(failing := [child]), [], 0)
      case Some(out) =>
        Move(d.(want := Wanted(w, d.stack[|d.stack| - 1], NewFrame(w, child, out))),
             [Finished(w, child, TypeOf(w, d.root), out)], 0)
  }

  /** A child that nothing stands on is dropped; the last child takes its parent's place. */
  ghost function Wanted(w: World, parent: Frame, f: Frame): Want
    requires w.Valid()
  {
    if Spent(w, f) then Nothing else if Spent(w, parent) then Handing(f) else Asking(f)
  }

  lemma TopIsGood(w: World, d: Doing)
    requires w.Valid() && d.Walking? && Good(w, d) && d.stack != []
    ensures var top := d.stack[|d.stack| - 1];
            && GoodFrame(w, top) && top.entry < |w.l.ents|
            && (!Spent(w, top) ==> top.next < |w.l.childList| && w.l.childList[top.next] < |w.l.ents|)
  {
    hide World.Valid, Rooted, Decode;
    var top := d.stack[|d.stack| - 1];
    assert GoodFrame(w, top);
    FrameInRange(w, top);
  }

  lemma FrameInRange(w: World, f: Frame)
    requires w.Valid() && GoodFrame(w, f)
    ensures f.entry < |w.l.ents|
    ensures !Spent(w, f) ==> f.next < |w.l.childList| && w.l.childList[f.next] < |w.l.ents|
  {
    hide World.Valid, Below, Work, ChildOwes, Weight, Ahead, Decode, Finished;
    if !Spent(w, f) {
      AdvanceFrame(w, Blob, f);
    }
  }

  /** rebuild of the last entry that was put off: it was decoded once, so it decodes again. That climbing by the bases
      in the headers and building down gives just `Decode` is what `DeltaWalker.Walker.Rebuild` promises. */
  ghost function Revive(w: World, d: Doing): Move
    requires w.Valid() && d.Walking? && Good(w, d) && d.deferred != []
  {
    var m := |d.deferred| - 1;
    var i := d.deferred[m];
    assert Decodable(w, i);
    Move(d.(stack := [NewFrame(w, i, Decode(w, i).value)], deferred := d.deferred[..m]), [], 0)
  }

  ghost function WalkStep(w: World, d: Doing, budget: int): Move
    requires w.Valid() && Good(w, d) && (d.Starting? || d.Walking?)
  {
    if d.Starting? then Start(w, d.root)
    else if d.failing != [] then FailOne(w, d)
    else if d.want.Handing? then HandOver(d)
    else if d.want.Asking? then Ask(d, budget)
    else if d.stack != [] then VisitTop(w, d)
    else if d.deferred != [] then Revive(w, d)
    else Move(Idle, [], 0)
  }

  /** The worker that has drawn the next position: a draw past the end sends it home. */
  function Draw(w: World, next: nat, me: Worker): Worker
  {
    if next >= |w.l.ents| then me.(doing := Returned)
    else Worker(me.drawn + multiset{next}, if w.l.ents[next].root then Starting(next) else Idle)
  }

  /** One atomic step of worker i. */
  ghost function Act(w: World, s: State, i: nat): State
    requires w.Valid() && i < |s.workers| && Good(w, s.workers[i].doing) && s.next >= 0
  {
    var me := s.workers[i];
    match me.doing
    case Idle => s.(next := s.next + 1, workers := s.workers[i := Draw(w, s.next, me)])
    case Returned => s
    case _ =>
      var m := WalkStep(w, me.doing, s.budget);
      State(s.next, s.budget - m.taken, s.log + m.events, s.workers[i := me.(doing := m.doing)])
  }

  // ---------- what a worker owes, holds and has left to do ----------

  ghost function WantOwes(w: World, typ: ObjType, want: Want): multiset<Event>
    requires w.Valid() && (want != Nothing ==> Decodable(w, want.child.entry))
  {
    if want == Nothing then multiset{} else AllBelow(w, typ, want.child.entry)
  }

  ghost function Owes(w: World, d: Doing): multiset<Event>
    requires w.Valid() && Good(w, d)
  {
    match d
    case Starting(r) => WalkEvents(w, r)
    case Walking(r, failing, stack, want, deferred) =>
      FailPending(w, failing) + Pending(w, TypeOf(w, r), stack) + WantOwes(w, TypeOf(w, r), want)
      + Owed(w, TypeOf(w, r), deferred)
    case _ => multiset{}
  }

  ghost function Holds(d: Doing): nat
  {
    if d.Walking? then Held(d.stack) else 0
  }

  ghost function WantLeft(w: World, want: Want): int
    requires w.Valid() && (want != Nothing ==> Rooted(w.Up(), want.child.entry))
  {
    match want
    case Nothing => 0
    case Handing(f) => 5 * Weight(w, f.entry) - 1
    case Asking(f) => 5 * Weight(w, f.entry) - 2
  }

  /** Five for every visit that is left, less what a step has already done of one. */
  ghost function StepsLeft(w: World, d: Doing): int
    requires w.Valid() && Good(w, d)
  {
    match d
    case Starting(r) =>
      DepthStep(w.Up(), r);
      5 * Weight(w, r) + 2
    case Walking(r, failing, stack, want, deferred) =>
      1 + (5 * ListWork(w, failing) - |failing|) + 5 * StackWork(w, stack) + WantLeft(w, want)
      + (5 * ListWork(w, deferred) - 3 * |deferred|)
    case _ => 0
  }

  /** A step reports what it no longer owes, holds what it took, and leaves less to do. */
  ghost predicate Keeps(w: World, d: Doing, m: Move)
    requires w.Valid() && Good(w, d)
  {
    && Good(w, m.doing) && multiset(m.events) + Owes(w, m.doing) == Owes(w, d)
    && Holds(m.doing) == Holds(d) + m.taken && 0 <= StepsLeft(w, m.doing) < StepsLeft(w, d)
    && !m.doing.Starting? && !m.doing.Returned?
  }

  lemma {:induction false} ListWorkAtLeast(w: World, list: seq<nat>)
    requires w.Valid() && AllRooted(w, list)
    ensures ListWork(w, list) >= 2 * |list|
    decreases |list|
  {
    hide World.Valid, Rooted;
    if list != [] {
      var n := |list| - 1;
      assert list == list[..n] + [list[n]];
      LastListed(w, list[..n], list[n]);
      ListWorkAtLeast(w, list[..n]);
      ListSnoc(w, list[..n], list[n]);
      WeightIs(w, list[n]);
    }
  }

  lemma {:induction false} LeftIsPositive(w: World, d: Doing)
    requires w.Valid() && Good(w, d)
    ensures StepsLeft(w, d) >= 0
  {
    hide World.Valid, Weight, ListWork, StackWork, Rooted, GoodFrame, AllRooted, GoodStack, GoodDeferred;
    if d.Walking? {
      ListWorkAtLeast(w, d.failing);
      ListWorkAtLeast(w, d.deferred);
      if d.want != Nothing {
        FrameRooted(w, d.want.child);
        WeightIs(w, d.want.child.entry);
      }
    }
  }

  lemma FrameRooted(w: World, f: Frame)
    requires w.Valid() && GoodFrame(w, f)
    ensures Decodable(w, f.entry) && Rooted(w.Up(), f.entry)
  {
  }

  // ---------- the steps keep all of it ----------

  lemma {:induction false} FailKeeps(w: World, d: Doing)
    requires w.Valid() && d.Walking? && Good(w, d) && d.failing != []
    ensures Keeps(w, d, FailOne(w, d))
  {
    hide World.Valid, Weight, ListWork, StackWork, Rooted, AllRooted, GoodStack, GoodDeferred, Owed, Pending;
    hide FailPending;
    hide WantOwes, WantLeft, GoodWant, Failed, ChildList, Work;
    var n := |d.failing| - 1;
    var front, i := d.failing[..n], d.failing[n];
    assert d.failing == front + [i];
    LastListed(w, front, i);
    ListSnoc(w, front, i);
    WeightIs(w, i);
    FailPendingList(w, front, i, w.l.Children(i));
    LeftIsPositive(w, FailOne(w, d).doing);
  }

  lemma {:induction false} HandKeeps(w: World, d: Doing)
    requires w.Valid() && d.Walking? && Good(w, d) && d.want.Handing?
    ensures Keeps(w, d, HandOver(d))
  {
    hide World.Valid, GoodStack, GoodDeferred, AllRooted, Owes, StepsLeft, Held, GoodFrame, Pending, StackWork, Below;
    hide Work, Ahead, Rooted, Layout.Rising, Layout.InRange;
    GoodParts(w, d);
    Unstack(w, TypeOf(w, d.root), d.stack, d.deferred);
    NoFrames(w, TypeOf(w, d.root));
    HandOwes(w, d);
    HandLeft(w, d);
    LeftIsPositive(w, HandOver(d).doing);
  }

  lemma {:induction false} HandOwes(w: World, d: Doing)
    requires w.Valid() && d.Walking? && Good(w, d) && d.want.Handing? && Good(w, HandOver(d).doing)
    ensures Owes(w, HandOver(d).doing) == Owes(w, d)
  {
    hide World.Valid, Rooted, AllRooted, GoodStack, GoodDeferred, Owed, Pending, FailPending, AllBelow, GoodFrame;
    hide Below;
    hide Work, Ahead;
    var typ := TypeOf(w, d.root);
    Unstack(w, typ, d.stack, d.deferred);
    Exhausted(w, typ, d.stack[|d.stack| - 1]);
  }

  lemma {:induction false} HandLeft(w: World, d: Doing)
    requires w.Valid() && d.Walking? && Good(w, d) && d.want.Handing? && Good(w, HandOver(d).doing)
    ensures StepsLeft(w, HandOver(d).doing) < StepsLeft(w, d)
  {
    hide World.Valid, Rooted, AllRooted, GoodStack, GoodDeferred, ListWork, StackWork, Weight, GoodFrame, Work, Ahead;
    Unstack(w, TypeOf(w, d.root), d.stack, d.deferred);
  }

  lemma {:induction false} AskKeeps(w: World, d: Doing, budget: int)
    requires w.Valid() && d.Walking? && Good(w, d) && d.want.Asking?
    ensures Keeps(w, d, Ask(d, budget)) && (budget >= 0 ==> Ask(d, budget).taken <= budget)
  {
    hide Keeps;
    if d.stack == [] || budget >= |d.want.child.data| {
      GrantKeeps(w, d, budget);
    } else {
      RefuseKeeps(w, d, budget);
    }
  }

  lemma {:induction false} GrantKeeps(w: World, d: Doing, budget: int)
    requires w.Valid() && d.Walking? && Good(w, d) && d.want.Asking?
    requires d.stack == [] || budget >= |d.want.child.data|
    ensures Keeps(w, d, Ask(d, budget))
  {
    hide World.Valid, Weight, ListWork, StackWork, Rooted, AllRooted, GoodStack, GoodDeferred, Owed, Pending;
    hide FailPending;
    hide AllBelow, Held, Below, Work, Ahead, GoodFrame, Decode, Layout.Rising, Layout.InRange, GoodWant;
    GoodParts(w, d);
    WantGood(w, d);
    var typ, f := TypeOf(w, d.root), d.want.child;
    FrameRooted(w, f);
    AskedFrame(w, typ, f);
    NoFrames(w, typ);
    NoWant(w, d.stack + [f]);
    Snoc(w, typ, d.stack, f);
    assert d.stack == [] ==> d.stack + [f] == [f];
    LeftIsPositive(w, Ask(d, budget).doing);
  }

  lemma WantGood(w: World, d: Doing)
    requires w.Valid() && d.Walking? && Good(w, d) && d.want != Nothing
    ensures GoodFrame(w, d.want.child) && d.want.child.next == w.l.childStart[d.want.child.entry]
  {
    hide World.Valid, GoodFrame;
  }

  lemma NoWant(w: World, stack: seq<Frame>)
    requires w.Valid()
    ensures GoodWant(w, Nothing, stack)
  {
  }

  lemma {:induction false} RefuseKeeps(w: World, d: Doing, budget: int)
    requires w.Valid() && d.Walking? && Good(w, d) && d.want.Asking?
    requires d.stack != [] && budget < |d.want.child.data|
    ensures Keeps(w, d, Ask(d, budget))
  {
    hide World.Valid, Weight, ListWork, StackWork, Rooted, AllRooted, GoodStack, GoodDeferred, Owed, Pending;
    hide FailPending;
    hide AllBelow, Held, GoodFrame, Decode;
    var typ, f := TypeOf(w, d.root), d.want.child;
    FrameRooted(w, f);
    DeferOne(w, typ, d.deferred, f.entry);
    DeferredRooted(w, d.deferred + [f.entry]);
    LeftIsPositive(w, Ask(d, budget).doing);
  }

  /** What a new frame owes is what was owed below its entry. */
  lemma {:induction false} AskedFrame(w: World, typ: ObjType, f: Frame)
    requires w.Valid() && GoodFrame(w, f) && f.next == w.l.childStart[f.entry]
    ensures Rooted(w.Up(), f.entry) && Decodable(w, f.entry)
    ensures AllBelow(w, typ, f.entry) == Below(w, f.entry, Ahead(w, f), typ, f.data)
    ensures Work(w, f.entry, Ahead(w, f)) + 2 == Weight(w, f.entry)
  {
    hide World.Valid, Below, Work, Ahead;
    Fresh(w, typ, f.entry, f.data);
  }

  lemma {:induction false} PopKeeps(w: World, d: Doing)
    requires w.Valid() && d.Walking? && Good(w, d) && d.want == Nothing && d.stack != []
    requires Spent(w, d.stack[|d.stack| - 1])
    ensures Keeps(w, d, VisitTop(w, d))
  {
    hide World.Valid, Weight, ListWork, StackWork, Rooted, AllRooted, GoodStack, GoodDeferred, Owed, Pending;
    hide FailPending;
    hide AllBelow, Held, Below, Work, Ahead, GoodFrame;
    var typ := TypeOf(w, d.root);
    Unstack(w, typ, d.stack, d.deferred);
    Exhausted(w, typ, d.stack[|d.stack| - 1]);
    NoFrames(w, typ);
    LeftIsPositive(w, VisitTop(w, d).doing);
  }

  lemma {:induction false} VisitKeeps(w: World, d: Doing)
    requires w.Valid() && d.Walking? && Good(w, d) && d.want == Nothing && d.failing == [] && d.stack != []
    requires !Spent(w, d.stack[|d.stack| - 1])
    ensures Keeps(w, d, VisitTop(w, d))
  {
    hide World.Valid, Weight, ListWork, StackWork, Rooted, AllRooted, GoodStack, GoodDeferred, Owed, Pending;
    hide FailPending;
    hide AllBelow, Held, Below, Work, Ahead, Decode, Keeps, World.Build, ChildOwes, VisitChild, Good, GoodWant;
    hide VisitTop;
    hide GoodFrame;
    VisitTopIs(w, d);
    TopAdvances(w, d);
    var top := d.stack[|d.stack| - 1];
    ChildKeeps(w, d, Advanced(d), w.l.childList[top.next], top.data);
  }

  /** The top frame's cursor past its next child. */
  ghost function Advanced(d: Doing): Doing
    requires d.Walking? && d.stack != []
  {
    var n := |d.stack| - 1;
    d.(stack := d.stack[..n] + [d.stack[n].(next := d.stack[n].next + 1)])
  }

  lemma {:induction false} VisitTopIs(w: World, d: Doing)
    requires w.Valid() && d.Walking? && Good(w, d) && d.stack != [] && !Spent(w, d.stack[|d.stack| - 1])
    ensures var top := d.stack[|d.stack| - 1];
            && top.next < |w.l.childList| && w.l.childList[top.next] < |w.l.ents| && d.root < |w.l.ents|
            && VisitTop(w, d) == VisitChild(w, Advanced(d), w.l.childList[top.next], top.data)
  {
    hide World.Valid, VisitChild, GoodFrame, GoodStack, GoodWant, Spent;
    TopIsGood(w, d);
  }

  /** What moves from the top frame to its next child. */
  lemma {:induction false} TopAdvances(w: World, d: Doing)
    requires w.Valid() && d.Walking? && Good(w, d) && d.stack != [] && !Spent(w, d.stack[|d.stack| - 1])
    ensures d.stack[|d.stack| - 1].next < |w.l.childList|
    ensures var top, moved := d.stack[|d.stack| - 1], Advanced(d);
            var child := w.l.childList[top.next];
            && child < |w.l.ents| && w.Up()[child] >= 0 && Rooted(w.Up(), child)
            && Decode(w, child) == w.Build(child, top.data) && GoodStack(w, moved.stack) && d.root < |w.l.ents|
            && moved.stack[|moved.stack| - 1].entry < |w.l.ents|
            && Pending(w, TypeOf(w, d.root), d.stack)
               == Pending(w, TypeOf(w, d.root), moved.stack) + ChildOwes(w, TypeOf(w, d.root), child, top.data)
            && StackWork(w, d.stack) == StackWork(w, moved.stack) + Weight(w, child)
                 && Held(d.stack) == Held(moved.stack)
  {
    hide *;
    var n := |d.stack| - 1;
    TopIsGood(w, d);
    GoodParts(w, d);
    AdvancedIs(w, d);
    Unstack(w, TypeOf(w, d.root), d.stack, d.deferred);
    Advance(w, TypeOf(w, d.root), d.stack[..n], d.stack[n]);
  }

  lemma AdvancedIs(w: World, d: Doing)
    requires w.Valid() && d.Walking? && Good(w, d) && d.stack != [] && !Spent(w, d.stack[|d.stack| - 1])
    ensures var n := |d.stack| - 1;
            && Advanced(d).stack == d.stack[..n] + [d.stack[n].(next := d.stack[n].next + 1)]
            && (d.stack[n].entry < |w.l.ents| ==> d.stack[n].next < w.l.childStart[d.stack[n].entry + 1])
  {
    hide World.Valid, Good, GoodFrame, Layout.Shaped;
  }

  lemma GoodParts(w: World, d: Doing)
    requires w.Valid() && d.Walking? && Good(w, d)
    ensures d.root < |w.l.ents| && GoodStack(w, d.stack) && GoodDeferred(w, d.deferred) && AllRooted(w, d.failing)
  {
  }

  lemma {:induction false} ChildKeeps(w: World, d: Doing, moved: Doing, child: nat, base: Data)
    requires w.Valid() && d.Walking? && Good(w, d) && d.want == Nothing && d.failing == []
    requires child < |w.l.ents| && w.Up()[child] >= 0 && Rooted(w.Up(), child)
             && Decode(w, child) == w.Build(child, base)
    requires moved.Walking? && moved == d.(stack := moved.stack) && GoodStack(w, moved.stack) && moved.stack != []
    requires moved.stack[|moved.stack| - 1].entry < |w.l.ents|
    requires Pending(w, TypeOf(w, d.root), d.stack)
             == Pending(w, TypeOf(w, d.root), moved.stack) + ChildOwes(w, TypeOf(w, d.root), child, base)
    requires StackWork(w, d.stack) == StackWork(w, moved.stack) + Weight(w, child) && Held(d.stack) == Held(moved.stack)
    ensures Keeps(w, d, VisitChild(w, moved, child, base))
  {
    hide World.Valid, Weight, ListWork, StackWork, Rooted, AllRooted, GoodStack, GoodDeferred, Owed, Pending;
    hide FailPending;
    hide AllBelow, Held, Below, Work, Ahead, Decode, Keeps, World.Build, ChildOwes, Good, Finished, Failed, ChildList;
    RootInRange(w, d);
    NotStreamed(w, child);
    ChildCases(w, TypeOf(w, d.root), child, base);
    match w.Build(child, base)
    case None =>
      LostKeeps(w, d, moved, child, base);
    case Some(out) =>
      FoundKeeps(w, d, moved, child, base, out);
  }

  lemma RootInRange(w: World, d: Doing)
    requires w.Valid() && d.Walking? && Good(w, d)
    ensures d.root < |w.l.ents|
  {
  }

  /** A child that cannot be unpacked is failed with everything standing on it. */
  lemma {:induction false} LostKeeps(w: World, d: Doing, moved: Doing, child: nat, base: Data)
    requires w.Valid() && d.Walking? && Good(w, d) && d.want == Nothing && d.failing == [] && child < |w.l.ents|
    requires moved.Walking? && moved == d.(stack := moved.stack) && GoodStack(w, moved.stack) && Rooted(w.Up(), child)
    requires Pending(w, TypeOf(w, d.root), d.stack)
             == Pending(w, TypeOf(w, d.root), moved.stack) + ChildOwes(w, TypeOf(w, d.root), child, base)
    requires StackWork(w, d.stack) == StackWork(w, moved.stack) + Weight(w, child) && Held(d.stack) == Held(moved.stack)
    requires ChildList(w, child, w.l.Children(child))
    requires ChildOwes(w, TypeOf(w, d.root), child, base)
             == multiset{CannotUnpack(child)} + Failed(w, child, w.l.Children(child))
    ensures Keeps(w, d, Move(moved.(failing := [child]), [], 0))
  {
    hide World.Valid, Weight, ListWork, StackWork, Rooted, AllRooted, GoodStack, GoodDeferred, Owed, Pending;
    hide FailPending;
    hide AllBelow, Held, Below, Work, Ahead, Decode, World.Build, ChildOwes, Failed, ChildList;
    NothingListed(w);
    ListSnoc(w, [], child);
    assert [] + [child] == [child];
    LeftIsPositive(w, moved.(failing := [child]));
  }

  /** A child that was built is reported, and wants room if anything stands on it. */
  lemma {:induction false} FoundKeeps(w: World, d: Doing, moved: Doing, child: nat, base: Data, out: Data)
    requires w.Valid() && d.Walking? && Good(w, d) && d.want == Nothing && d.failing == [] && child < |w.l.ents|
    requires moved.Walking? && moved == d.(stack := moved.stack) && GoodStack(w, moved.stack) && Rooted(w.Up(), child)
    requires moved.stack != [] && moved.stack[|moved.stack| - 1].entry < |w.l.ents| && Decode(w, child) == Some(out)
    requires Pending(w, TypeOf(w, d.root), d.stack)
             == Pending(w, TypeOf(w, d.root), moved.stack) + ChildOwes(w, TypeOf(w, d.root), child, base)
    requires StackWork(w, d.stack) == StackWork(w, moved.stack) + Weight(w, child) && Held(d.stack) == Held(moved.stack)
    requires ChildOwes(w, TypeOf(w, d.root), child, base)
             == multiset{Finished(w, child, TypeOf(w, d.root), out)} + AllBelow(w, TypeOf(w, d.root), child)
    ensures var want := Wanted(w, moved.stack[|moved.stack| - 1], NewFrame(w, child, out));
            Keeps(w, d, Move(moved.(want := want), [Finished(w, child, TypeOf(w, d.root), out)], 0))
  {
    hide World.Valid, Weight, ListWork, StackWork, Rooted, AllRooted, GoodStack, GoodDeferred, Owed, Pending;
    hide FailPending;
    hide AllBelow, Held, Below, Work, Ahead, Decode, World.Build, ChildOwes, Failed, ChildList, GoodFrame, Finished;
    hide Owes, StepsLeft;
    var typ, f := TypeOf(w, d.root), NewFrame(w, child, out);
    Fresh(w, typ, child, out);
    WeightIs(w, child);
    if Spent(w, f) {
      Exhausted(w, typ, f);
    }
    var want := Wanted(w, moved.stack[|moved.stack| - 1], f);
    FoundOwes(w, d, moved.(want := want), multiset{Finished(w, child, typ, out)}, child);
    FoundLeft(w, d, moved.(want := want), child);
    LeftIsPositive(w, moved.(want := want));
  }

  lemma {:induction false} FoundOwes(w: World, d: Doing, d': Doing, e: multiset<Event>, child: nat)
    requires w.Valid() && d.Walking? && Good(w, d) && d.want == Nothing && Rooted(w.Up(), child)
             && Decode(w, child).Some?
    requires d'.Walking? && Good(w, d') && d' == d.(stack := d'.stack, want := d'.want)
    requires Pending(w, TypeOf(w, d.root), d.stack)
             == Pending(w, TypeOf(w, d.root), d'.stack) + (e + AllBelow(w, TypeOf(w, d.root), child))
    requires if d'.want == Nothing then AllBelow(w, TypeOf(w, d.root), child) == multiset{}
             else d'.want.child.entry == child
    ensures e + Owes(w, d') == Owes(w, d)
  {
    hide World.Valid, Rooted, AllRooted, GoodStack, GoodDeferred, Owed, Pending, FailPending, AllBelow, Decode;
    hide GoodFrame;
  }

  lemma {:induction false} FoundLeft(w: World, d: Doing, d': Doing, child: nat)
    requires w.Valid() && d.Walking? && Good(w, d) && d.want == Nothing && Rooted(w.Up(), child)
             && Weight(w, child) >= 2
    requires d'.Walking? && Good(w, d') && d' == d.(stack := d'.stack, want := d'.want)
    requires StackWork(w, d.stack) == StackWork(w, d'.stack) + Weight(w, child)
    requires d'.want != Nothing ==> d'.want.child.entry == child
    ensures StepsLeft(w, d') < StepsLeft(w, d)
  {
    hide World.Valid, Rooted, AllRooted, GoodStack, GoodDeferred, ListWork, StackWork, Weight, Decode, GoodFrame;
  }

  lemma {:induction false} ReviveKeeps(w: World, d: Doing)
    requires w.Valid() && d.Walking? && Good(w, d) && d.want == Nothing && d.stack == [] && d.deferred != []
    ensures Keeps(w, d, Revive(w, d))
  {
    hide World.Valid, Weight, ListWork, StackWork, Rooted, AllRooted, GoodDeferred, Owed, Pending, FailPending;
    hide AllBelow, Held, Below, Work, Ahead, GoodFrame, Decode;
    var typ, m := TypeOf(w, d.root), |d.deferred| - 1;
    LastDeferred(w, typ, d.deferred);
    var i := d.deferred[m];
    Fresh(w, typ, i, Decode(w, i).value);
    OneFrame(w, typ, NewFrame(w, i, Decode(w, i).value));
    NoFrames(w, typ);
    LeftIsPositive(w, Revive(w, d).doing);
  }

  lemma NoStack(w: World)
    requires w.Valid()
    ensures GoodStack(w, [])
  {
  }

  lemma {:induction false} StartKeeps(w: World, r: nat)
    requires w.Valid() && Good(w, Starting(r))
    ensures Keeps(w, Starting(r), Start(w, r))
  {
    hide World.Valid, Weight, Rooted, AllRooted, GoodStack, GoodDeferred, AllBelow, Held, Decode, Finished, Failed;
    hide World.RootData, World.Streamed, WalkEvents, StreamedEvent, ChildList, Owes, StepsLeft, Keeps;
    RootCases(w, r);
    StartLeft(w, r);
    if TypeOf(w, r) == Bad || w.Streamed(r) {
      QuietStart(w, r);
    } else if w.RootData(r).None? {
      LostStart(w, r);
    } else {
      FoundStart(w, r);
    }
  }

  lemma StartLeft(w: World, r: nat)
    requires w.Valid() && Good(w, Starting(r))
    ensures Rooted(w.Up(), r) && StepsLeft(w, Starting(r)) == 5 * Weight(w, r) + 2
    ensures Owes(w, Starting(r)) == WalkEvents(w, r)
  {
    hide World.Valid, Weight, WalkEvents;
    RootCases(w, r);
  }

  lemma {:induction false} QuietStart(w: World, r: nat)
    requires w.Valid() && Good(w, Starting(r)) && (TypeOf(w, r) == Bad || w.Streamed(r))
    ensures Keeps(w, Starting(r), Start(w, r))
  {
    hide World.Valid, Weight, StreamedEvent, World.Streamed, WalkEvents;
    RootCases(w, r);
    StartLeft(w, r);
  }

  lemma {:induction false} LostStart(w: World, r: nat)
    requires w.Valid() && Good(w, Starting(r)) && TypeOf(w, r) != Bad && !w.Streamed(r) && w.RootData(r).None?
    ensures Keeps(w, Starting(r), Start(w, r))
  {
    hide World.Valid, Weight, ListWork, StackWork, Rooted, AllRooted, GoodDeferred, Owed, Pending, FailPending;
    hide AllBelow;
    hide Failed, World.RootData, World.Streamed, WalkEvents, ChildList;
    RootCases(w, r);
    StartLeft(w, r);
    NothingDeferred(w, TypeOf(w, r));
    NothingListed(w);
    NoFrames(w, TypeOf(w, r));
    ListSnoc(w, [], r);
    assert [] + [r] == [r];
    WeightIs(w, r);
  }

  lemma {:induction false} FoundStart(w: World, r: nat)
    requires w.Valid() && Good(w, Starting(r)) && TypeOf(w, r) != Bad && !w.Streamed(r) && w.RootData(r).Some?
    ensures Keeps(w, Starting(r), Start(w, r))
  {
    hide World.Valid, Weight, ListWork, StackWork, Rooted, AllRooted, GoodStack, GoodDeferred, Owed, Pending;
    hide FailPending;
    hide AllBelow, Held, Below, Work, Ahead, GoodFrame, Decode, Finished, World.RootData, World.Streamed, WalkEvents;
    var typ, data := TypeOf(w, r), w.RootData(r).value;
    RootCases(w, r);
    StartLeft(w, r);
    NothingDeferred(w, typ);
    NothingListed(w);
    NoFrames(w, typ);
    NoStack(w);
    WeightIs(w, r);
    Fresh(w, typ, r, data);
    OneFrame(w, typ, NewFrame(w, r, data));
  }

  /** Every step of a walk keeps its accounts: with its reports, with the budget, and with what is left to do. */
  lemma {:induction false} WalkKeeps(w: World, d: Doing, budget: nat)
    requires w.Valid() && Good(w, d) && (d.Starting? || d.Walking?)
    ensures Keeps(w, d, WalkStep(w, d, budget)) && WalkStep(w, d, budget).taken <= budget
  {
    hide Keeps, GoodStack, World.Valid;
    match d
    case Starting(r) => StartKeeps(w, r);
    case Walking(r, failing, stack, want, deferred) =>
      if failing != [] {
        FailKeeps(w, d);
      } else if want.Handing? {
        HandKeeps(w, d);
      } else if want.Asking? {
        AskKeeps(w, d, budget);
      } else if stack != [] {
        TopIsGood(w, d);
        if Spent(w, stack[|stack| - 1]) {
          PopKeeps(w, d);
        } else {
          VisitKeeps(w, d);
        }
      } else if deferred != [] {
        ReviveKeeps(w, d);
      } else {
        EndKeeps(w, d);
      }
  }

  lemma {:induction false} EndKeeps(w: World, d: Doing)
    requires w.Valid() && d.Walking? && Good(w, d) && d.failing == [] && d.want == Nothing && d.stack == []
             && d.deferred == []
    ensures Keeps(w, d, Move(Idle, [], 0))
  {
    hide World.Valid;
  }

  // ---------- all the workers ----------

  ghost function OwedBy(w: World): Worker -> multiset<Event>
  {
    (x: Worker) => if w.Valid() && Good(w, x.doing) then Owes(w, x.doing) else multiset{}
  }

  ghost function HeldBy(x: Worker): nat { Holds(x.doing) }

  ghost function DrawnBy(x: Worker): multiset<nat> { x.drawn }

  ghost function Active(x: Worker): nat { if x.doing == Returned then 0 else 1 }

  ghost function LeftFor(w: World): Worker -> nat
  {
    (x: Worker) => if w.Valid() && Good(w, x.doing) && StepsLeft(w, x.doing) >= 0 then StepsLeft(w, x.doing) else 0
  }

  function Min(a: int, b: nat): (m: nat)
    requires a >= 0
  {
    if a < b then a else b
  }

  ghost function Upto(m: nat): multiset<nat>
  {
    if m == 0 then multiset{} else Upto(m - 1) + multiset{m - 1}
  }

  ghost predicate AllGood(w: World, workers: seq<Worker>)
    requires w.Valid()
  {
    forall i | 0 <= i < |workers| :: Good(w, workers[i].doing)
  }

  /** A worker leaves only when every position is drawn, and walks only roots that it drew. */
  ghost predicate Placed(w: World, next: int, x: Worker)
  {
    match x.doing
    case Returned => next >= |w.l.ents|
    case Starting(r) => r in x.drawn
    case Walking(r, _, _, _, _) => r in x.drawn
    case Idle => true
  }

  ghost predicate AllPlaced(w: World, s: State)
  {
    forall i | 0 <= i < |s.workers| :: Placed(w, s.next, s.workers[i])
  }

  /** What was reported and what is owed is `base` and the walks of the roots drawn so far. */
  ghost predicate Reported(w: World, base: seq<Event>, s: State)
    requires w.Valid() && s.next >= 0
  {
    multiset(s.log) + Gather(OwedBy(w), s.workers) == multiset(base) + RootSum(w, Min(s.next, |w.l.ents|))
  }

  /** What is left and what the frames above depth zero hold is the budget there was. */
  ghost predicate Balanced(initial: nat, s: State)
  {
    s.budget >= 0 && s.budget + Sum(HeldBy, s.workers) == initial
  }

  /** Every position drawn so far was drawn once, by one worker. */
  ghost predicate DrawnOnce(w: World, s: State)
    requires s.next >= 0
  {
    Gather(DrawnBy, s.workers) == Upto(Min(s.next, |w.l.ents|))
  }

  ghost predicate Inv(w: World, base: seq<Event>, initial: nat, s: State)
    requires w.Valid()
  {
    && s.next >= 0 && AllGood(w, s.workers) && AllPlaced(w, s)
    && Reported(w, base, s) && Balanced(initial, s) && DrawnOnce(w, s)
  }

  ghost predicate Init(base: seq<Event>, initial: nat, s: State)
  {
    && s.next == 0 && s.budget == initial && s.log == base
    && forall i | 0 <= i < |s.workers| :: s.workers[i] == Worker(multiset{}, Idle)
  }

  lemma {:induction false} InitInv(w: World, base: seq<Event>, initial: nat, s: State)
    requires w.Valid() && Init(base, initial, s)
    ensures Inv(w, base, initial, s)
  {
    hide World.Valid;
    NothingYet(w);
    GatherNothing(OwedBy(w), s.workers);
    GatherNothing(DrawnBy, s.workers);
    SumZero(HeldBy, s.workers);
  }

  /** Worker i becomes x, and the log grows by what it no longer owes, or by nothing while a drawn root is added. */
  lemma {:induction false} Accounts(w: World, base: seq<Event>, s: State, s': State, i: nat, x: Worker,
                                    more: multiset<Event>)
    requires w.Valid() && s.next >= 0 && s'.next >= 0 && Reported(w, base, s)
    requires i < |s.workers| && s'.workers == s.workers[i := x]
    requires RootSum(w, Min(s'.next, |w.l.ents|)) == RootSum(w, Min(s.next, |w.l.ents|)) + more
    requires multiset(s'.log) + OwedBy(w)(x) == multiset(s.log) + OwedBy(w)(s.workers[i]) + more
    ensures Reported(w, base, s')
  {
    hide World.Valid, OwedBy, RootSum, Gather;
    GatherUpdate(OwedBy(w), s.workers, i, x);
    Shift(multiset(s.log), Gather(OwedBy(w), s.workers), multiset(base) + RootSum(w, Min(s.next, |w.l.ents|)), more,
          multiset(s'.log), Gather(OwedBy(w), s'.workers), OwedBy(w)(s.workers[i]), OwedBy(w)(x));
    Associate(multiset(base), RootSum(w, Min(s.next, |w.l.ents|)), more);
  }

  lemma Shift<U>(log: multiset<U>, owed: multiset<U>, all: multiset<U>, more: multiset<U>, log': multiset<U>,
                 owed': multiset<U>, had: multiset<U>, has: multiset<U>)
    requires log + owed == all && owed' + had == owed + has && log' + has == log + had + more
    ensures log' + owed' == all + more
  {
    forall e
      ensures (log' + owed')[e] == (all + more)[e]
    {
      assert (log + owed)[e] == all[e] && (owed' + had)[e] == (owed + has)[e]
             && (log' + has)[e] == (log + had + more)[e];
    }
  }

  lemma Associate<U>(a: multiset<U>, b: multiset<U>, c: multiset<U>)
    ensures (a + b) + c == a + (b + c)
  {
  }

  lemma AllGoodWith(w: World, workers: seq<Worker>, i: nat, x: Worker)
    requires w.Valid() && AllGood(w, workers) && i < |workers| && Good(w, x.doing)
    ensures AllGood(w, workers[i := x])
  {
    hide World.Valid, Good;
  }

  lemma AllPlacedWith(w: World, s: State, s': State, i: nat, x: Worker)
    requires AllPlaced(w, s) && i < |s.workers| && s.next <= s'.next && s'.workers == s.workers[i := x]
    requires Placed(w, s'.next, x)
    ensures AllPlaced(w, s')
  {
    forall j | 0 <= j < |s'.workers|
      ensures Placed(w, s'.next, s'.workers[j])
    {
      assert Placed(w, s.next, s.workers[j]);
    }
  }

  /** Drawing the next position. */
  lemma {:induction false} DrawInv(w: World, base: seq<Event>, initial: nat, s: State, i: nat)
    requires w.Valid() && Inv(w, base, initial, s) && i < |s.workers| && s.workers[i].doing == Idle
    ensures Inv(w, base, initial, Act(w, s, i))
  {
    hide World.Valid, RootSum, RootPart, AllPlaced, AllGood, Reported, Gather, Sum, Upto, Good, Draw, Owes, OwedBy;
    hide Placed;
    hide HeldBy, DrawnBy;
    InvAt(w, base, initial, s, i);
    var s', n := Act(w, s, i), |w.l.ents|;
    var x := Draw(w, s.next, s.workers[i]);
    DrawMeans(w, s.next, s.workers[i]);
    AllGoodWith(w, s.workers, i, x);
    AllPlacedWith(w, s, s', i, x);
    Accounts(w, base, s, s', i, x, if s.next < n then RootPart(w, s.next) else multiset{});
    SumUpdate(HeldBy, s.workers, i, x);
    GatherUpdate(DrawnBy, s.workers, i, x);
    DrawnMore(Gather(DrawnBy, s.workers), DrawnBy(s.workers[i]), DrawnBy(x), Gather(DrawnBy, s'.workers),
              if s.next < n then multiset{s.next} else multiset{});
  }

  /** What a draw adds: to what is owed the walk of a root, to what is drawn one position, and no bytes. */
  lemma DrawMeans(w: World, next: nat, me: Worker)
    requires w.Valid() && me.doing == Idle
    ensures var n, x := |w.l.ents|, Draw(w, next, me);
            && Good(w, x.doing) && Placed(w, next + 1, x) && HeldBy(x) == HeldBy(me)
            && DrawnBy(x) == DrawnBy(me) + (if next < n then multiset{next} else multiset{})
            && OwedBy(w)(x) == OwedBy(w)(me) + (if next < n then RootPart(w, next) else multiset{})
            && RootSum(w, Min(next + 1, n))
               == RootSum(w, Min(next, n)) + (if next < n then RootPart(w, next) else multiset{})
            && Upto(Min(next + 1, n)) == Upto(Min(next, n)) + (if next < n then multiset{next} else multiset{})
  {
    hide World.Valid, RootSum, RootPart, WalkEvents, Upto;
    if next < |w.l.ents| {
      RootStep(w, next);
      UptoNext(next);
      DrawnRoot(w, next);
    }
  }

  lemma DrawnRoot(w: World, i: nat)
    requires w.Valid() && i < |w.l.ents|
    ensures w.l.ents[i].root <==> w.Up()[i] < 0
    ensures RootPart(w, i) == if w.l.ents[i].root then WalkEvents(w, i) else multiset{}
  {
    hide World.Valid, WalkEvents;
    RootStep(w, i);
  }

  lemma UptoNext(m: nat)
    ensures Upto(m + 1) == Upto(m) + multiset{m}
  {
  }

  lemma DrawnMore(all: multiset<nat>, had: multiset<nat>, has: multiset<nat>, all': multiset<nat>, more: multiset<nat>)
    requires all' + had == all + has && has == had + more
    ensures all' == all + more
  {
    forall k
      ensures all'[k] == (all + more)[k]
    {
      assert (all' + had)[k] == (all + has)[k];
    }
  }

  /** A step of a walk. */
  lemma {:induction false} WalkInv(w: World, base: seq<Event>, initial: nat, s: State, i: nat)
    requires w.Valid() && Inv(w, base, initial, s) && i < |s.workers| && Good(w, s.workers[i].doing)
    requires s.workers[i].doing.Starting? || s.workers[i].doing.Walking?
    ensures Inv(w, base, initial, Act(w, s, i))
  {
    hide World.Valid, RootSum, AllPlaced, AllGood, Reported, Gather, Sum, Good, Owes, StepsLeft, Holds, WalkStep, Upto;
    var d, s' := s.workers[i].doing, Act(w, s, i);
    var x, m := s'.workers[i], WalkStep(w, d, s.budget);
    WalkKeeps(w, d, s.budget);
    SameRoot(w, d, s.budget);
    assert Placed(w, s.next, s.workers[i]) by { PlacedAt(w, s, i); }
    AllGoodWith(w, s.workers, i, x);
    AllPlacedWith(w, s, s', i, x);
    NoMore(multiset(s.log), multiset(m.events), OwedBy(w)(x), OwedBy(w)(s.workers[i]),
           RootSum(w, Min(s.next, |w.l.ents|)));
    Accounts(w, base, s, s', i, x, multiset{});
    SumUpdate(HeldBy, s.workers, i, x);
    GatherUpdate(DrawnBy, s.workers, i, x);
    DrawnMore(Gather(DrawnBy, s.workers), x.drawn, x.drawn, Gather(DrawnBy, s'.workers), multiset{});
  }

  lemma NoMore<U>(log: multiset<U>, events: multiset<U>, has: multiset<U>, had: multiset<U>, sum: multiset<U>)
    requires events + has == had
    ensures (log + events) + has == log + had + multiset{} && sum == sum + multiset{}
  {
  }

  lemma PlacedAt(w: World, s: State, i: nat)
    requires AllPlaced(w, s) && i < |s.workers|
    ensures Placed(w, s.next, s.workers[i])
  {
  }

  /** A walk stays with its root. */
  lemma SameRoot(w: World, d: Doing, budget: int)
    requires w.Valid() && Good(w, d) && (d.Starting? || d.Walking?)
    ensures var d' := WalkStep(w, d, budget).doing; d' == Idle || (d'.Walking? && d'.root == d.root)
  {
    hide World.Valid, Good, GoodWant, Layout.Shaped;
  }

  /** No step of any worker undoes the invariant. */
  lemma {:induction false} ActInv(w: World, base: seq<Event>, initial: nat, s: State, i: nat)
    requires w.Valid() && Inv(w, base, initial, s) && i < |s.workers|
    ensures Good(w, s.workers[i].doing) && s.next >= 0
    ensures Inv(w, base, initial, Act(w, s, i))
  {
    hide World.Valid, Inv, Good, WalkStep;
    InvAt(w, base, initial, s, i);
    match s.workers[i].doing
    case Idle => DrawInv(w, base, initial, s, i);
    case Returned =>
    case _ => WalkInv(w, base, initial, s, i);
  }

  lemma InvAt(w: World, base: seq<Event>, initial: nat, s: State, i: nat)
    requires w.Valid() && Inv(w, base, initial, s) && i < |s.workers|
    ensures Good(w, s.workers[i].doing) && s.next >= 0
  {
    hide World.Valid, Good;
  }

  // ---------- whole runs ----------

  ghost predicate Step(w: World, s: State, s': State)
    requires w.Valid() && AllGood(w, s.workers) && s.next >= 0
  {
    exists i :: Acts(w, s, s', i)
  }

  /** Worker i, which has not returned, takes its next step. */
  ghost predicate Acts(w: World, s: State, s': State, i: int)
    requires w.Valid() && AllGood(w, s.workers) && s.next >= 0
  {
    0 <= i < |s.workers| && s.workers[i].doing != Returned && s' == Act(w, s, i)
  }

  ghost predicate AllReturned(s: State)
  {
    forall i | 0 <= i < |s.workers| :: s.workers[i].doing == Returned
  }

  lemma InvMeans(w: World, base: seq<Event>, initial: nat, s: State)
    requires w.Valid() && Inv(w, base, initial, s)
    ensures AllGood(w, s.workers) && s.next >= 0
  {
  }

  /** Positions still to be drawn. */
  ghost function Undrawn(w: World, s: State): nat
    requires s.next >= 0
  {
    |w.l.ents| - Min(s.next, |w.l.ents|)
  }

  /** Every step draws one position fewer, sends one worker home, or leaves a walk less to do. */
  lemma {:induction false} ActProgress(w: World, base: seq<Event>, initial: nat, s: State, i: nat)
    requires w.Valid() && Inv(w, base, initial, s) && i < |s.workers| && s.workers[i].doing != Returned
    ensures Good(w, s.workers[i].doing) && s.next >= 0
    ensures var s' := Act(w, s, i);
            && s'.next >= 0
            && (|| Undrawn(w, s') < Undrawn(w, s)
                || (Undrawn(w, s') == Undrawn(w, s) && Sum(Active, s'.workers) < Sum(Active, s.workers))
                || (Undrawn(w, s') == Undrawn(w, s) && Sum(Active, s'.workers) == Sum(Active, s.workers)
                    && Sum(LeftFor(w), s'.workers) < Sum(LeftFor(w), s.workers)))
  {
    hide World.Valid, Inv, Good, WalkStep, Sum, StepsLeft;
    InvAt(w, base, initial, s, i);
    var s' := Act(w, s, i);
    var x := s'.workers[i];
    SumUpdate(Active, s.workers, i, x);
    SumUpdate(LeftFor(w), s.workers, i, x);
    if s.workers[i].doing != Idle {
      InvBudget(w, base, initial, s);
      WalkKeeps(w, s.workers[i].doing, s.budget);
    }
  }

  lemma InvBudget(w: World, base: seq<Event>, initial: nat, s: State)
    requires w.Valid() && Inv(w, base, initial, s)
    ensures s.budget >= 0
  {
  }

  /** No schedule runs for ever: it comes to a state that no step leads from as the sequence has it. */
  lemma {:induction false} RunsEnd(w: World, base: seq<Event>, initial: nat, run: nat -> State, k: nat) returns (n: nat)
    requires w.Valid() && Inv(w, base, initial, run(k))
    ensures n >= k && Inv(w, base, initial, run(n)) && AllGood(w, run(n).workers) && run(n).next >= 0
    ensures !Step(w, run(n), run(n + 1))
    decreases |w.l.ents| - Min(if run(k).next < 0 then 0 else run(k).next, |w.l.ents|), Sum(Active, run(k).workers),
              Sum(LeftFor(w), run(k).workers)
  {
    hide World.Valid, Inv, Act, Sum, AllGood, Good, LeftFor, Active, Layout.Shaped;
    InvMeans(w, base, initial, run(k));
    if Step(w, run(k), run(k + 1)) {
      var i: nat :| Acts(w, run(k), run(k + 1), i);
      ActInv(w, base, initial, run(k), i);
      ActProgress(w, base, initial, run(k), i);
      n := RunsEnd(w, base, initial, run, k + 1);
    } else {
      n := k;
    }
  }

  /** A worker that has not returned can always take its next step: none ever waits for another. */
  lemma NeverBlocked(w: World, s: State, i: nat)
    requires w.Valid() && AllGood(w, s.workers) && s.next >= 0 && i < |s.workers| && s.workers[i].doing != Returned
    ensures Step(w, s, Act(w, s, i))
  {
    hide World.Valid, Act;
    assert Acts(w, s, Act(w, s, i), i);
  }

  /** A run of some number of workers from a full budget, with the reports on bad entries already made. */
  ghost predicate Run(w: World, base: seq<Event>, initial: nat, states: seq<State>)
    requires w.Valid()
    ensures Run(w, base, initial, states) ==> states != []
  {
    && states != [] && Init(base, initial, states[0])
    && forall n | 0 < n < |states| :: RunStep(w, states, n)
  }

  ghost predicate RunStep(w: World, states: seq<State>, n: nat)
    requires w.Valid() && 0 < n < |states|
  {
    AllGood(w, states[n - 1].workers) && states[n - 1].next >= 0 && Step(w, states[n - 1], states[n])
  }

  lemma {:induction false} RunsKeepInv(w: World, base: seq<Event>, initial: nat, states: seq<State>)
    requires w.Valid() && Run(w, base, initial, states)
    ensures Inv(w, base, initial, states[|states| - 1])
    decreases |states|
  {
    hide World.Valid, Inv, Init, Act, AllGood;
    var n := |states| - 1;
    if n == 0 {
      InitInv(w, base, initial, states[0]);
    } else {
      assert forall k | 0 < k < n :: RunStep(w, states, k) ==> RunStep(w, states[..n], k);
      RunsKeepInv(w, base, initial, states[..n]);
      assert RunStep(w, states, n);
      var i: nat :| Acts(w, states[n - 1], states[n], i);
      ActInv(w, base, initial, states[n - 1], i);
    }
  }

  /** In every reachable state, the budget that is left and the frames above depth zero of all the workers add up to
      the budget there was, and none of it is overdrawn. */
  lemma {:induction false} BudgetIsConserved(w: World, base: seq<Event>, initial: nat, states: seq<State>)
    requires w.Valid() && Run(w, base, initial, states)
    ensures var s := states[|states| - 1];
            0 <= s.budget <= initial && s.budget + Sum(HeldBy, s.workers) == initial
  {
    hide World.Valid, AllGood, AllPlaced, Reported, DrawnOnce, Run, Sum;
    RunsKeepInv(w, base, initial, states);
  }

  lemma {:induction false} UptoHas(m: nat, i: nat)
    ensures Upto(m)[i] == if i < m then 1 else 0
  {
    if m > 0 {
      UptoHas(m - 1, i);
    }
  }

  /** In every reachable state, each position that was drawn was drawn once, by exactly one worker, and a worker walks
      only what it drew. */
  lemma {:induction false} OneOwner(w: World, base: seq<Event>, initial: nat, states: seq<State>, i: nat)
    returns (owner: nat)
    requires w.Valid() && Run(w, base, initial, states) && i < |w.l.ents| && i < states[|states| - 1].next
    ensures var s := states[|states| - 1];
            && owner < |s.workers| && s.workers[owner].drawn[i] == 1
            && (forall j | 0 <= j < |s.workers| && j != owner :: i !in s.workers[j].drawn)
            && forall j | 0 <= j < |s.workers| :: Placed(w, s.next, s.workers[j])
  {
    hide World.Valid, AllGood, Reported, Run, Gather, Upto;
    RunsKeepInv(w, base, initial, states);
    var s := states[|states| - 1];
    UptoHas(Min(s.next, |w.l.ents|), i);
    owner := GatherSource(DrawnBy, s.workers, i);
    GatherMember(DrawnBy, s.workers, owner);
    assert DrawnBy(s.workers[owner])[i] <= Gather(DrawnBy, s.workers)[i];
    forall j | 0 <= j < |s.workers| && j != owner
      ensures i !in s.workers[j].drawn
    {
      if j < owner { GatherTwo(DrawnBy, s.workers, j, owner); } else { GatherTwo(DrawnBy, s.workers, owner, j); }
      assert (DrawnBy(s.workers[j]) + DrawnBy(s.workers[owner]))[i] <= Gather(DrawnBy, s.workers)[i];
    }
  }

  /** When all have returned, every root was walked once, whoever walked it, and the budget is whole again. */
  lemma {:induction false} ReturnedMeansDone(w: World, base: seq<Event>, initial: nat, s: State)
    requires w.Valid() && Inv(w, base, initial, s) && AllReturned(s) && s.workers != []
    ensures multiset(s.log) == multiset(base) + RootSum(w, |w.l.ents|)
    ensures s.budget == initial
  {
    hide World.Valid, RootSum, DrawnOnce;
    assert Placed(w, s.next, s.workers[0]);
    GatherNothing(OwedBy(w), s.workers);
    SumZero(HeldBy, s.workers);
  }

  /** A run of any number of workers that has come to its end has reported one verdict for every entry that hangs from
      a root, and nothing was complained of exactly when all of them are sound. */
  lemma {:induction false} WorkersAreExact(w: World, base: seq<Event>, initial: nat, states: seq<State>)
    requires w.Valid() && multiset(base) == BadSum(w, |w.l.bad|) && Run(w, base, initial, states)
    requires AllReturned(states[|states| - 1]) && states[|states| - 1].workers != []
    ensures var s := states[|states| - 1];
            && multiset(s.log) == multiset(Verdicts(w, RootedSet(w))) && s.budget == initial
            && (Fine(s.log) <==> AllSound(w))
  {
    hide *;
    RunsKeepInv(w, base, initial, states);
    ReturnedMeansDone(w, base, initial, states[|states| - 1]);
    ReportIsExact(w, states[|states| - 1].log);
    FineIsSound(w, states[|states| - 1].log);
  }
}
