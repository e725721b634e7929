/** The parallel reachability walk of internal/fsckcmd/connectivity.go, as atomic steps of its workers. */
module Connectivity {
  import opened Sums

  /** An index into the object table. */
  type Obj = nat

  /** The objects the table knows, the ones that are present, and what each present object points at. The links are the
      edges that the object pass recorded: each names its target for good, whatever is looked up meanwhile
      (EdgeHistory).
      A walk that reads objects again and resolves their links as it goes is not this walk. */
  datatype Graph = Graph(objs: set<Obj>, has: set<Obj>, links: map<Obj, seq<Obj>>)
  {
    ghost predicate Valid()
    {
      && has <= objs && has <= links.Keys
      && forall o | o in has :: forall t | t in links[o] :: t in objs
    }
  }

  // ---------- what the walk is for ----------

  ghost predicate Closed(g: Graph, s: set<Obj>)
    requires g.Valid()
  {
    forall o | o in s && o in g.has :: forall t | t in g.links[o] :: t in s
  }

  /** `reach` is the least set that holds the roots and everything its present members point at. */
  ghost predicate IsReach(g: Graph, roots: set<Obj>, reach: set<Obj>)
    requires g.Valid()
  {
    && roots <= reach && Closed(g, reach)
    && forall s | roots <= s && Closed(g, s) :: reach <= s
  }

  // ---------- the workers ----------

  const WalkBatch := 64

  datatype Worker =
    /** At the top of the loop. `holding` says the worker is counted in `active`. */
    | Top(local: seq<Obj>, holding: bool)
    /** Inside traverseOne, with the links before `next` marked and the newly reachable objects in `out`. */
    | Reading(local: seq<Obj>, obj: Obj, next: nat, out: seq<Obj>)
    /** Past traverseOne, about to look for a surplus. */
    | Fed(local: seq<Obj>)
    /** Asleep on the condition variable, or awoken by a broadcast and due to look again. */
    | Waiting(signalled: bool)
    /** Unlocked for the last time, about to broadcast. */
    | Leaving
    | Returned

  datatype State = State(stack: seq<Obj>, active: int, flagged: set<Obj>, done: seq<Obj>, workers: seq<Worker>)

  function Signal(w: Worker): Worker
  {
    if w.Waiting? then Waiting(true) else w
  }

  /** Everybody else may be woken by a broadcast. */
  function Others(ws: seq<Worker>, broadcast: bool): (r: seq<Worker>)
    ensures |r| == |ws|
    ensures forall i | 0 <= i < |ws| :: r[i] == if broadcast then Signal(ws[i]) else ws[i]
  {
    if broadcast then seq(|ws|, i requires 0 <= i < |ws| => Signal(ws[i])) else ws
  }

  function Min(a: nat, b: nat): nat { if a < b then a else b }

  /** The locked section after the count is settled: wait, leave, or claim a batch. */
  function Look(s: State, i: nat, active: int, broadcast: bool): State
    requires i < |s.workers|
  {
    var ws := Others(s.workers, broadcast);
    if s.stack == [] && active > 0 then s.(active := active, workers := ws[i := Waiting(false)])
    else if s.stack == [] then s.(active := active, workers := ws[i := Leaving])
    else
      var keep := |s.stack| - Min(|s.stack|, WalkBatch);
      s.(active := active + 1, stack := s.stack[..keep], workers := ws[i := Top(s.stack[keep..], true)])
  }

  /** One atomic step of worker `i`, or the same state when it has none. */
  function Act(g: Graph, s: State, i: nat): State
    requires i < |s.workers|
  {
    match s.workers[i]
    case Top(local, holding) =>
      if local == [] then
        var active := if holding then s.active - 1 else s.active;
        Look(s, i, active, holding && (s.stack != [] || active == 0))
      else
        var n := |local| - 1;
        s.(workers := s.workers[i := Reading(local[..n], local[n], 0, [])])
    case Reading(local, obj, next, out) =>
      if obj in g.links && next < |g.links[obj]| then
        var t := g.links[obj][next];
        if t in s.flagged then s.(workers := s.workers[i := Reading(local, obj, next + 1, out)])
        else
          var out' := if t in g.has then out + [t] else out;
          s.(flagged := s.flagged + {t}, workers := s.workers[i := Reading(local, obj, next + 1, out')])
      else s.(done := s.done + [obj], workers := s.workers[i := Fed(local + out)])
    case Fed(local) =>
      if |local| > 2 * WalkBatch then
        var n := |local| - WalkBatch;
        s.(stack := s.stack + local[..n], workers := Others(s.workers, true)[i := Top(local[n..], true)])
      else s.(workers := s.workers[i := Top(local, true)])
    case Waiting(signalled) => if signalled then Look(s, i, s.active, false) else s
    case Leaving => s.(workers := Others(s.workers, true)[i := Returned])
    case Returned => s
  }

  predicate Enabled(s: State, i: nat)
  {
    i < |s.workers| && s.workers[i] != Returned && s.workers[i] != Waiting(false)
  }

  ghost predicate Step(g: Graph, s: State, s': State)
  {
    exists i :: Enabled(s, i) && s' == Act(g, s, i)
  }

  /** The roots flagged, the present ones stacked once each, nobody started. */
  ghost predicate Init(g: Graph, roots: set<Obj>, s: State)
  {
    && s.flagged == roots && multiset(s.stack) == multiset(roots * g.has) && s.active == 0 && s.done == []
    && forall i | 0 <= i < |s.workers| :: s.workers[i] == Top([], false)
  }

  // ---------- sums over the workers ----------

  /** A broadcast does not change a sum that does not look at who is awake. */
  lemma {:induction false} SumOthers(f: Worker -> nat, ws: seq<Worker>, broadcast: bool)
    requires forall w :: f(Signal(w)) == f(w)
    ensures Sum(f, Others(ws, broadcast)) == Sum(f, ws)
    decreases |ws|
  {
    if ws != [] {
      var n := |ws| - 1;
      SumOthers(f, ws[..n], broadcast);
      assert Others(ws, broadcast)[..n] == Others(ws[..n], broadcast);
    }
  }

  /** The objects a worker has in hand. */
  function Mine(w: Worker): multiset<Obj>
  {
    match w
    case Top(local, _) => multiset(local)
    case Reading(local, obj, _, out) => multiset(local) + multiset{obj} + multiset(out)
    case Fed(local) => multiset(local)
    case _ => multiset{}
  }

  function AllMine(ws: seq<Worker>): multiset<Obj>
  {
    Gather(Mine, ws)
  }

  lemma {:induction false} MineOthers(ws: seq<Worker>, broadcast: bool)
    ensures AllMine(Others(ws, broadcast)) == AllMine(ws)
    decreases |ws|
  {
    hide Mine, Signal;
    if ws != [] {
      var n := |ws| - 1;
      MineOthers(ws[..n], broadcast);
      assert Others(ws, broadcast)[..n] == Others(ws[..n], broadcast);
      SignalKeeps(ws[n]);
    }
  }

  lemma SignalKeeps(w: Worker)
    ensures Mine(Signal(w)) == Mine(w) && Holds(Signal(w)) == Holds(w)
  {
  }

  /** One for a worker counted in `active`. */
  function Holds(w: Worker): nat
  {
    match w
    case Top(_, holding) => if holding then 1 else 0
    case Reading(_, _, _, _) => 1
    case Fed(_) => 1
    case _ => 0
  }

  // ---------- the invariant ----------

  ghost predicate WorkerOk(g: Graph, s: State, w: Worker)
  {
    match w
    case Top(local, holding) => !holding ==> local == []
    case Reading(_, obj, next, _) =>
      && obj in g.has && obj in g.links && next <= |g.links[obj]|
      && forall k | 0 <= k < next :: g.links[obj][k] in s.flagged
    case Waiting(signalled) => !signalled ==> s.stack == [] && s.active > 0
    case Leaving => s.stack == [] && s.active == 0
    case Returned => s.stack == [] && s.active == 0
    case Fed(_) => true
  }

  /** Every link of every finished object is marked. */
  ghost predicate DoneOk(g: Graph, flagged: set<Obj>, done: seq<Obj>)
    requires g.Valid()
  {
    forall o | o in done :: o in g.has && forall t | t in g.links[o] :: t in flagged
  }

  /** What holds in every reachable state: each flagged present object is in exactly one place, `active` counts the
      holders, nobody sleeps while there is work or nobody working, and nobody has left while there is either. */
  ghost predicate Inv(g: Graph, roots: set<Obj>, reach: set<Obj>, s: State)
    requires g.Valid()
  {
    && roots <= s.flagged <= reach && reach <= g.objs
    && Placed(g, s)
    && s.active == Sum(Holds, s.workers)
    && DoneOk(g, s.flagged, s.done)
    && AllOk(g, s)
  }

  /** Each flagged present object is on the stack, in one worker's hands, or done. */
  ghost predicate Placed(g: Graph, s: State)
  {
    multiset(s.flagged * g.has) == multiset(s.stack) + AllMine(s.workers) + multiset(s.done)
  }

  ghost predicate AllOk(g: Graph, s: State)
  {
    forall i | 0 <= i < |s.workers| :: WorkerOk(g, s, s.workers[i])
  }

  lemma InitInv(g: Graph, roots: set<Obj>, reach: set<Obj>, s: State)
    requires g.Valid() && IsReach(g, roots, reach) && roots <= g.objs && Init(g, roots, s)
    ensures Inv(g, roots, reach, s)
  {
    ReachInTable(g, roots, reach);
    GatherNothing(Mine, s.workers);
    SumZero(Holds, s.workers);
  }

  lemma ReachInTable(g: Graph, roots: set<Obj>, reach: set<Obj>)
    requires g.Valid() && IsReach(g, roots, reach) && roots <= g.objs
    ensures reach <= g.objs
  {
    assert Closed(g, g.objs);
  }

  // ---------- every step keeps it ----------

  lemma {:induction false} Replaced(ws: seq<Worker>, i: nat, broadcast: bool, w: Worker)
    requires i < |ws|
    ensures var ws' := Others(ws, broadcast)[i := w];
            && AllMine(ws') + Mine(ws[i]) == AllMine(ws) + Mine(w)
            && Sum(Holds, ws') + Holds(ws[i]) == Sum(Holds, ws) + Holds(w)
  {
    hide Mine, Signal, Holds, Gather, Sum;
    var others := Others(ws, broadcast);
    SignalKeeps(ws[i]);
    MineOthers(ws, broadcast);
    GatherUpdate(Mine, others, i, w);
    forall x ensures Holds(Signal(x)) == Holds(x) { SignalKeeps(x); }
    SumOthers(Holds, ws, broadcast);
    SumUpdate(Holds, others, i, w);
  }

  /** Worker i moves on to `w`, taking `more` newly flagged objects; what it had, what was stacked and what was done
      is shared out again. */
  lemma {:induction false} Moves(g: Graph, s: State, s': State, i: nat, broadcast: bool, w: Worker, more: multiset<Obj>)
    requires i < |s.workers| && Placed(g, s) && s.active == Sum(Holds, s.workers)
    requires s'.workers == Others(s.workers, broadcast)[i := w]
    requires multiset(s'.flagged * g.has) == multiset(s.flagged * g.has) + more
    requires multiset(s'.stack) + multiset(s'.done) + Mine(w)
             == multiset(s.stack) + multiset(s.done) + Mine(s.workers[i]) + more
    ensures Placed(g, s')
    ensures Sum(Holds, s'.workers) == s.active - Holds(s.workers[i]) + Holds(w)
  {
    hide Mine, Holds, AllMine, Sum, Others;
    Replaced(s.workers, i, broadcast, w);
    ShareOut(multiset(s.flagged * g.has), more, multiset(s.stack), AllMine(s.workers), multiset(s.done),
             Mine(s.workers[i]), multiset(s'.stack), AllMine(s'.workers), multiset(s'.done), Mine(w));
  }

  /** The locked section keeps the invariant: the broadcast is sent whenever a sleeper would be left behind. */
  lemma {:induction false} LookInv(g: Graph, roots: set<Obj>, reach: set<Obj>, s: State, i: nat, active: int,
                                   broadcast: bool)
    requires g.Valid() && Inv(g, roots, reach, s) && i < |s.workers|
    requires Mine(s.workers[i]) == multiset{} && active == s.active - Holds(s.workers[i])
    requires s.workers[i] != Leaving && s.workers[i] != Returned
    requires if Holds(s.workers[i]) == 1 then broadcast == (s.stack != [] || active == 0) else !broadcast
    ensures Inv(g, roots, reach, Look(s, i, active, broadcast))
  {
    hide Placed, AllOk, Sum, AllMine, Others;
    var s' := Look(s, i, active, broadcast);
    HoldersNonNegative(s, i);
    LookOk(g, s, i, active, broadcast);
    if s.stack != [] {
      var keep := |s.stack| - Min(|s.stack|, WalkBatch);
      ClaimSplits(s.stack, keep, multiset(s.done));
    }
    Moves(g, s, s', i, broadcast, s'.workers[i], multiset{});
  }

  lemma ClaimSplits(stack: seq<Obj>, keep: nat, done: multiset<Obj>)
    requires keep <= |stack|
    ensures multiset(stack[..keep]) + done + multiset(stack[keep..]) == multiset(stack) + done
  {
    assert stack == stack[..keep] + stack[keep..];
  }

  lemma HoldersNonNegative(s: State, i: nat)
    requires i < |s.workers| && s.active == Sum(Holds, s.workers)
    ensures s.active - Holds(s.workers[i]) >= 0
  {
    SumMember(Holds, s.workers, i);
  }

  lemma {:induction false} LookOk(g: Graph, s: State, i: nat, active: int, broadcast: bool)
    requires AllOk(g, s) && i < |s.workers| && active >= 0 && active == s.active - Holds(s.workers[i])
    requires s.workers[i] != Leaving && s.workers[i] != Returned
    requires if Holds(s.workers[i]) == 1 then broadcast == (s.stack != [] || active == 0) else !broadcast
    ensures AllOk(g, Look(s, i, active, broadcast))
  {
    var s' := Look(s, i, active, broadcast);
    forall j | 0 <= j < |s'.workers|
      ensures WorkerOk(g, s', s'.workers[j])
    {
      assert WorkerOk(g, s, s.workers[j]);
      assert WorkerOk(g, s, s.workers[i]);
    }
  }

  /** A step that leaves the stack and the count alone, and flags no less, leaves the other workers as good. */
  lemma {:induction false} OthersOk(g: Graph, s: State, s': State, i: nat)
    requires AllOk(g, s) && i < |s.workers| == |s'.workers|
    requires s'.stack == s.stack && s'.active == s.active && s.flagged <= s'.flagged
    requires forall j | 0 <= j < |s.workers| && j != i ::
               s'.workers[j] == s.workers[j] || s'.workers[j] == Signal(s.workers[j])
    requires WorkerOk(g, s', s'.workers[i])
    ensures AllOk(g, s')
  {
    forall j | 0 <= j < |s'.workers|
      ensures WorkerOk(g, s', s'.workers[j])
    {
      assert WorkerOk(g, s, s.workers[j]);
    }
  }

  lemma {:induction false} TopInv(g: Graph, roots: set<Obj>, reach: set<Obj>, s: State, i: nat)
    requires g.Valid() && Inv(g, roots, reach, s) && Enabled(s, i) && s.workers[i].Top? && s.workers[i].local != []
    ensures Inv(g, roots, reach, Act(g, s, i))
  {
    hide Placed, Sum, AllMine;
    var s', w := Act(g, s, i), s.workers[i];
    var n := |w.local| - 1;
    assert w.local == w.local[..n] + [w.local[n]];
    assert Mine(s'.workers[i]) == Mine(w);
    assert WorkerOk(g, s, w);
    Moves(g, s, s', i, false, s'.workers[i], multiset{});
    InHand(g, roots, reach, s, i, w.local[n]);
    OthersOk(g, s, s', i);
  }

  /** What a worker has in hand is flagged and present. */
  lemma {:induction false} InHand(g: Graph, roots: set<Obj>, reach: set<Obj>, s: State, i: nat, o: Obj)
    requires g.Valid() && Inv(g, roots, reach, s) && i < |s.workers| && o in Mine(s.workers[i])
    ensures o in s.flagged && o in g.has && o in g.links
  {
    hide Mine, WorkerOk;
    GatherMember(Mine, s.workers, i);
    assert o in multiset(s.flagged * g.has);
  }

  lemma {:induction false} FedInv(g: Graph, roots: set<Obj>, reach: set<Obj>, s: State, i: nat)
    requires g.Valid() && Inv(g, roots, reach, s) && Enabled(s, i) && s.workers[i].Fed?
    ensures Inv(g, roots, reach, Act(g, s, i))
  {
    hide Placed, Sum, AllMine, AllOk;
    var s', w := Act(g, s, i), s.workers[i];
    var local := w.local;
    var surplus := |local| > 2 * WalkBatch;
    if surplus {
      var n := |local| - WalkBatch;
      assert local == local[..n] + local[n..];
      FedOk(g, s, i);
    } else {
      OthersOk(g, s, s', i);
    }
    Moves(g, s, s', i, surplus, s'.workers[i], multiset{});
  }

  /** Handing back a surplus wakes every sleeper, and nobody has left while a worker holds objects. */
  lemma {:induction false} FedOk(g: Graph, s: State, i: nat)
    requires AllOk(g, s) && s.active == Sum(Holds, s.workers) && Enabled(s, i) && s.workers[i].Fed?
    requires |s.workers[i].local| > 2 * WalkBatch
    ensures AllOk(g, Act(g, s, i))
  {
    var s' := Act(g, s, i);
    SumMember(Holds, s.workers, i);
    forall j | 0 <= j < |s'.workers|
      ensures WorkerOk(g, s', s'.workers[j])
    {
      assert WorkerOk(g, s, s.workers[j]);
    }
  }

  /** Marking one link. */
  lemma {:induction false} MarkInv(g: Graph, roots: set<Obj>, reach: set<Obj>, s: State, i: nat)
    requires g.Valid() && IsReach(g, roots, reach) && Inv(g, roots, reach, s) && Enabled(s, i) && s.workers[i].Reading?
    requires s.workers[i].obj in g.links && s.workers[i].next < |g.links[s.workers[i].obj]|
    ensures Inv(g, roots, reach, Act(g, s, i))
  {
    hide Placed, Sum, AllMine, AllOk, IsReach, Mine, Holds, Others;
    var s', w := Act(g, s, i), s.workers[i];
    var t := g.links[w.obj][w.next];
    ObjInHand(w);
    InHand(g, roots, reach, s, i, w.obj);
    TargetInReach(g, roots, reach, w.obj, t);
    MarkOk(g, s, i);
    MarkMine(w, t);
    NoBroadcast(s.workers);
    if t in s.flagged {
      Moves(g, s, s', i, false, s'.workers[i], multiset{});
    } else {
      NewlyFlagged(s.flagged, t, g.has);
      Moves(g, s, s', i, false, s'.workers[i], multiset({t} * g.has));
    }
  }

  lemma NoBroadcast(ws: seq<Worker>)
    ensures Others(ws, false) == ws
  {
  }

  lemma ObjInHand(w: Worker)
    requires w.Reading?
    ensures w.obj in Mine(w)
  {
  }

  lemma MarkMine(w: Worker, t: Obj)
    requires w.Reading?
    ensures Mine(Reading(w.local, w.obj, w.next + 1, w.out)) == Mine(w)
    ensures Mine(Reading(w.local, w.obj, w.next + 1, w.out + [t])) == Mine(w) + multiset{t}
    ensures Holds(w) == 1 && forall k, out :: Holds(Reading(w.local, w.obj, k, out)) == 1
  {
  }

  lemma TargetInReach(g: Graph, roots: set<Obj>, reach: set<Obj>, o: Obj, t: Obj)
    requires g.Valid() && IsReach(g, roots, reach) && o in reach && o in g.has && t in g.links[o]
    ensures t in reach
  {
  }

  lemma {:induction false} MarkOk(g: Graph, s: State, i: nat)
    requires g.Valid() && AllOk(g, s) && Enabled(s, i) && s.workers[i].Reading?
    requires s.workers[i].obj in g.links && s.workers[i].next < |g.links[s.workers[i].obj]|
    ensures AllOk(g, Act(g, s, i))
  {
    assert WorkerOk(g, s, s.workers[i]);
    OthersOk(g, s, Act(g, s, i), i);
  }

  /** Finishing an object whose links are all marked. */
  lemma {:induction false} FinishInv(g: Graph, roots: set<Obj>, reach: set<Obj>, s: State, i: nat)
    requires g.Valid() && Inv(g, roots, reach, s) && Enabled(s, i) && s.workers[i].Reading?
    requires s.workers[i].obj in g.links && s.workers[i].next >= |g.links[s.workers[i].obj]|
    ensures Inv(g, roots, reach, Act(g, s, i))
  {
    hide Placed, Sum, AllMine;
    var s', w := Act(g, s, i), s.workers[i];
    assert WorkerOk(g, s, w);
    OthersOk(g, s, s', i);
    Moves(g, s, s', i, false, s'.workers[i], multiset{});
  }

  lemma NewlyFlagged(flagged: set<Obj>, t: Obj, has: set<Obj>)
    requires t !in flagged
    ensures multiset((flagged + {t}) * has) == multiset(flagged * has) + multiset({t} * has)
    ensures multiset({t} * has) == if t in has then multiset{t} else multiset{}
  {
    assert (flagged + {t}) * has == flagged * has + {t} * has;
  }

  /** No step undoes the invariant. */
  lemma {:induction false} ActInv(g: Graph, roots: set<Obj>, reach: set<Obj>, s: State, i: nat)
    requires g.Valid() && IsReach(g, roots, reach) && Inv(g, roots, reach, s) && Enabled(s, i)
    ensures Inv(g, roots, reach, Act(g, s, i))
  {
    hide Placed, Sum, AllMine;
    var w := s.workers[i];
    assert WorkerOk(g, s, w);
    match w
    case Top(local, holding) =>
      if local == [] {
        var active := if holding then s.active - 1 else s.active;
        LookInv(g, roots, reach, s, i, active, holding && (s.stack != [] || active == 0));
      } else {
        TopInv(g, roots, reach, s, i);
      }
    case Reading(_, obj, next, _) =>
      if next < |g.links[obj]| {
        MarkInv(g, roots, reach, s, i);
      } else {
        FinishInv(g, roots, reach, s, i);
      }
    case Fed(_) => FedInv(g, roots, reach, s, i);
    case Waiting(_) => LookInv(g, roots, reach, s, i, s.active, false);
    case Leaving =>
      Moves(g, s, Act(g, s, i), i, true, Returned, multiset{});
      OthersOk(g, s, Act(g, s, i), i);
    case Returned =>
  }


  // ---------- every run ends ----------

  function Load(w: Worker): nat
  {
    match w
    case Top(local, _) => |local|
    case Reading(local, _, _, out) => |local| + 1 + |out|
    case Fed(local) => |local|
    case _ => 0
  }

  /** How many broadcasts a worker may still send before an object is flagged or finished. */
  function Calls(w: Worker): nat
  {
    match w
    case Top(local, holding) => if local != [] then 0 else if holding then 2 else 1
    case Fed(_) => 3
    case Waiting(_) => 1
    case Leaving => 1
    case _ => 0
  }

  /** How far a worker is from its next object or its end, a broadcast apart. */
  function Rank(w: Worker): nat
  {
    match w
    case Top(local, _) => if local == [] then 4 else 2
    case Reading(_, _, _, _) => 1
    case Waiting(signalled) => if signalled then 3 else 2
    case Leaving => 1
    case _ => 0
  }

  function LinksLeft(g: Graph, w: Worker): nat
  {
    if w.Reading? && w.obj in g.links && w.next < |g.links[w.obj]| then |g.links[w.obj]| - w.next else 0
  }

  /** Unflagged objects count twice, and every object not yet done once. */
  ghost function Unfinished(g: Graph, s: State): nat
  {
    2 * |g.objs - s.flagged| + |s.stack| + Sum(Load, s.workers)
  }

  ghost function LinkSum(g: Graph, ws: seq<Worker>): nat { Sum(w => LinksLeft(g, w), ws) }

  /** The lexicographic measure of a state. */
  ghost predicate Smaller(g: Graph, s': State, s: State)
  {
    var a, a' := Unfinished(g, s), Unfinished(g, s');
    var b, b' := Sum(Calls, s.workers), Sum(Calls, s'.workers);
    var c, c' := Sum(Rank, s.workers), Sum(Rank, s'.workers);
    var d, d' := LinkSum(g, s.workers), LinkSum(g, s'.workers);
    a' < a || (a' == a && (b' < b || (b' == b && (c' < c || (c' == c && d' < d)))))
  }

  /** The measure after worker i moved on to `w`, with no broadcast. */
  lemma {:induction false} Moved(g: Graph, ws: seq<Worker>, i: nat, w: Worker)
    requires i < |ws|
    ensures var ws' := ws[i := w];
            && Sum(Load, ws') + Load(ws[i]) == Sum(Load, ws) + Load(w)
            && Sum(Calls, ws') + Calls(ws[i]) == Sum(Calls, ws) + Calls(w)
            && Sum(Rank, ws') + Rank(ws[i]) == Sum(Rank, ws) + Rank(w)
            && LinkSum(g, ws') + LinksLeft(g, ws[i]) == LinkSum(g, ws) + LinksLeft(g, w)
  {
    SumUpdate(Load, ws, i, w);
    SumUpdate(Calls, ws, i, w);
    SumUpdate(Rank, ws, i, w);
    SumUpdate(w => LinksLeft(g, w), ws, i, w);
  }

  lemma {:induction false} MovedOthers(ws: seq<Worker>, i: nat, broadcast: bool, w: Worker)
    requires i < |ws|
    ensures var ws' := Others(ws, broadcast)[i := w];
            && Sum(Load, ws') + Load(ws[i]) == Sum(Load, ws) + Load(w)
            && Sum(Calls, ws') + Calls(ws[i]) == Sum(Calls, ws) + Calls(w)
  {
    var others := Others(ws, broadcast);
    SumOthers(Load, ws, broadcast);
    SumOthers(Calls, ws, broadcast);
    SumUpdate(Load, others, i, w);
    SumUpdate(Calls, others, i, w);
  }

  /** Every step makes progress. */
  lemma {:induction false} ActProgress(g: Graph, roots: set<Obj>, reach: set<Obj>, s: State, i: nat)
    requires g.Valid() && IsReach(g, roots, reach) && Inv(g, roots, reach, s) && Enabled(s, i)
    ensures Smaller(g, Act(g, s, i), s)
  {
    hide Sum, Placed, AllMine, Load, Calls, Rank, LinksLeft;
    var s', w := Act(g, s, i), s.workers[i];
    assert WorkerOk(g, s, w);
    match w
    case Top(local, holding) =>
      if local == [] {
        LookProgress(g, s, i, if holding then s.active - 1 else s.active,
                     holding && (s.stack != [] || s.active - 1 == 0));
      } else {
        TopProgress(g, s, i);
      }
    case Reading(_, obj, next, _) =>
      if next < |g.links[obj]| {
        assert g.links[obj][next] in g.objs by { assert g.links[obj][next] in g.links[obj]; }
        MarkProgress(g, s, i);
      } else {
        FinishProgress(g, s, i);
      }
    case Fed(_) => FedProgress(g, s, i);
    case Waiting(_) => LookProgress(g, s, i, s.active, false);
    case Leaving =>
      LeaveProgress(g, s, i);
    case Returned =>
  }

  lemma {:induction false} LookProgress(g: Graph, s: State, i: nat, active: int, broadcast: bool)
    requires i < |s.workers|
    requires || s.workers[i] == Top([], true)
             || (!broadcast && (s.workers[i] == Top([], false) || s.workers[i] == Waiting(true)))
    ensures Smaller(g, Look(s, i, active, broadcast), s)
  {
    hide Sum;
    var s' := Look(s, i, active, broadcast);
    MovedOthers(s.workers, i, broadcast, s'.workers[i]);
    Moved(g, s.workers, i, s'.workers[i]);
  }

  lemma {:induction false} TopProgress(g: Graph, s: State, i: nat)
    requires Enabled(s, i) && s.workers[i].Top? && s.workers[i].local != []
    ensures Smaller(g, Act(g, s, i), s)
  {
    hide Sum;
    Moved(g, s.workers, i, Act(g, s, i).workers[i]);
  }

  lemma {:induction false} MarkProgress(g: Graph, s: State, i: nat)
    requires Enabled(s, i) && s.workers[i].Reading? && s.workers[i].obj in g.links
    requires s.workers[i].next < |g.links[s.workers[i].obj]|
    requires g.links[s.workers[i].obj][s.workers[i].next] in g.objs
    ensures Smaller(g, Act(g, s, i), s)
  {
    hide Sum;
    var s', w := Act(g, s, i), s.workers[i];
    var t := g.links[w.obj][w.next];
    Moved(g, s.workers, i, s'.workers[i]);
    if t !in s.flagged {
      assert g.objs - s.flagged == (g.objs - s'.flagged) + {t};
    }
  }

  lemma {:induction false} FinishProgress(g: Graph, s: State, i: nat)
    requires Enabled(s, i) && s.workers[i].Reading? && s.workers[i].obj in g.links
    requires s.workers[i].next >= |g.links[s.workers[i].obj]|
    ensures Smaller(g, Act(g, s, i), s)
  {
    hide Sum;
    Moved(g, s.workers, i, Act(g, s, i).workers[i]);
  }

  lemma {:induction false} FedProgress(g: Graph, s: State, i: nat)
    requires Enabled(s, i) && s.workers[i].Fed?
    ensures Smaller(g, Act(g, s, i), s)
  {
    hide Sum;
    MovedOthers(s.workers, i, true, Act(g, s, i).workers[i]);
    Moved(g, s.workers, i, Act(g, s, i).workers[i]);
  }

  lemma {:induction false} LeaveProgress(g: Graph, s: State, i: nat)
    requires Enabled(s, i) && s.workers[i].Leaving?
    ensures Smaller(g, Act(g, s, i), s)
  {
    hide Sum;
    MovedOthers(s.workers, i, true, Returned);
  }

  // ---------- whole runs ----------

  ghost predicate AllReturned(s: State)
  {
    forall i | 0 <= i < |s.workers| :: s.workers[i] == Returned
  }

  /** No worker can step. */
  ghost predicate Stuck(s: State)
  {
    !exists i :: Enabled(s, i)
  }

  /** No sequence of states is a run for ever, whatever order the workers take their steps in: it stops somewhere. */
  lemma {:induction false} RunsEnd(g: Graph, roots: set<Obj>, reach: set<Obj>, run: nat -> State, k: nat)
    returns (n: nat)
    requires g.Valid() && IsReach(g, roots, reach) && Inv(g, roots, reach, run(k))
    ensures n >= k && Inv(g, roots, reach, run(n)) && !Step(g, run(n), run(n + 1))
    decreases Unfinished(g, run(k)), Sum(Calls, run(k).workers), Sum(Rank, run(k).workers), LinkSum(g, run(k).workers)
  {
    hide Sum, Inv, Act;
    if Step(g, run(k), run(k + 1)) {
      var i :| Enabled(run(k), i) && run(k + 1) == Act(g, run(k), i);
      ActInv(g, roots, reach, run(k), i);
      ActProgress(g, roots, reach, run(k), i);
      n := RunsEnd(g, roots, reach, run, k + 1);
    } else {
      n := k;
    }
  }

  /** A state from which no worker can step is one where all have returned: no wake-up is lost. */
  lemma {:induction false} NoDeadlock(g: Graph, roots: set<Obj>, reach: set<Obj>, s: State)
    requires g.Valid() && Inv(g, roots, reach, s) && Stuck(s)
    ensures AllReturned(s)
  {
    forall i | 0 <= i < |s.workers|
      ensures s.workers[i] == Returned
    {
      assert !Enabled(s, i);
      if s.workers[i] == Waiting(false) {
        assert WorkerOk(g, s, s.workers[i]);
        var j := SumPositive(Holds, s.workers);
        assert Enabled(s, j);
      }
    }
  }

  /** When all have returned, everything reachable is flagged and every present reachable object was read once. */
  lemma {:induction false} ReturnedMeansDone(g: Graph, roots: set<Obj>, reach: set<Obj>, s: State)
    requires g.Valid() && IsReach(g, roots, reach) && Inv(g, roots, reach, s) && AllReturned(s) && s.workers != []
    ensures s.flagged == reach && multiset(s.done) == multiset(reach * g.has)
  {
    assert WorkerOk(g, s, s.workers[0]);
    GatherNothing(Mine, s.workers);
    assert Closed(g, s.flagged) by {
      forall o | o in s.flagged && o in g.has
        ensures o in s.done
      {
        assert o in multiset(s.flagged * g.has);
      }
    }
  }

  ghost predicate Run(g: Graph, roots: set<Obj>, states: seq<State>)
    ensures Run(g, roots, states) ==> states != []
  {
    && states != []
    && var n := |states| - 1;
       if n == 0 then Init(g, roots, states[0])
       else Run(g, roots, states[..n]) && Step(g, states[n - 1], states[n])
  }

  /** Every state of every run keeps the invariant, for any number of workers. */
  lemma {:induction false} RunsKeepInv(g: Graph, roots: set<Obj>, reach: set<Obj>, states: seq<State>)
    requires g.Valid() && IsReach(g, roots, reach) && roots <= g.objs && Run(g, roots, states)
    ensures Inv(g, roots, reach, states[|states| - 1]) && |states[|states| - 1].workers| == |states[0].workers|
  {
    hide Inv, Init, Act;
    var n := |states| - 1;
    if n == 0 {
      InitInv(g, roots, reach, states[0]);
    } else {
      RunsKeepInv(g, roots, reach, states[..n]);
      var i :| Enabled(states[n - 1], i) && states[n] == Act(g, states[n - 1], i);
      ActInv(g, roots, reach, states[n - 1], i);
      SameWorkers(g, states[n - 1], i);
    }
  }

  lemma SameWorkers(g: Graph, s: State, i: nat)
    requires i < |s.workers|
    ensures |Act(g, s, i).workers| == |s.workers|
  {
  }

  /** In every reachable state a flagged present object is in exactly one place, and a worker has left only if
      there is nothing to do and nobody doing it. */
  lemma {:induction false} OnePlace(g: Graph, roots: set<Obj>, reach: set<Obj>, states: seq<State>, o: Obj)
    requires g.Valid() && IsReach(g, roots, reach) && roots <= g.objs && Run(g, roots, states)
    ensures var s := states[|states| - 1];
            && multiset(s.stack)[o] + AllMine(s.workers)[o] + multiset(s.done)[o]
               == (if o in s.flagged && o in g.has then 1 else 0)
            && s.active == Sum(Holds, s.workers)
            && (forall i | 0 <= i < |s.workers| && s.workers[i] == Waiting(false) :: s.stack == [] && s.active > 0)
            && (forall i | 0 <= i < |s.workers| && s.workers[i] == Returned :: s.stack == [] && s.active == 0)
  {
    hide Run, Inv;
    RunsKeepInv(g, roots, reach, states);
    InvMeans(g, roots, reach, states[|states| - 1], o);
  }

  lemma {:induction false} InvMeans(g: Graph, roots: set<Obj>, reach: set<Obj>, s: State, o: Obj)
    requires g.Valid() && Inv(g, roots, reach, s)
    ensures multiset(s.stack)[o] + AllMine(s.workers)[o] + multiset(s.done)[o]
            == (if o in s.flagged && o in g.has then 1 else 0)
    ensures s.active == Sum(Holds, s.workers)
    ensures forall i | 0 <= i < |s.workers| && s.workers[i] == Waiting(false) :: s.stack == [] && s.active > 0
    ensures forall i | 0 <= i < |s.workers| && s.workers[i] == Returned :: s.stack == [] && s.active == 0
  {
    hide AllMine, Sum;
    assert multiset(s.flagged * g.has)[o] == (multiset(s.stack) + AllMine(s.workers) + multiset(s.done))[o];
    assert forall i | 0 <= i < |s.workers| :: WorkerOk(g, s, s.workers[i]);
  }

  /** A run that can go no further has flagged exactly what is reachable and read each present part of it once. */
  lemma {:induction false} WalkIsExact(g: Graph, roots: set<Obj>, reach: set<Obj>, states: seq<State>)
    requires g.Valid() && IsReach(g, roots, reach) && roots <= g.objs && Run(g, roots, states)
    requires states[0].workers != [] && Stuck(states[|states| - 1])
    ensures var s := states[|states| - 1];
            AllReturned(s) && s.flagged == reach && multiset(s.done) == multiset(reach * g.has)
  {
    hide Run, Inv;
    RunsKeepInv(g, roots, reach, states);
    NoDeadlock(g, roots, reach, states[|states| - 1]);
    ReturnedMeansDone(g, roots, reach, states[|states| - 1]);
  }

  // ---------- the walk of a single worker ----------

  /** traverseOne: mark every link, and collect the targets that are newly reachable and present. */
  method TraverseOne(g: Graph, e: Obj, flagged: set<Obj>) returns (out: seq<Obj>, marked: set<Obj>)
    requires g.Valid() && e in g.has
    ensures marked == flagged + Targets(g.links[e], |g.links[e]|)
    ensures multiset(out) == multiset((marked - flagged) * g.has)
  {
    out, marked := [], flagged;
    var links := g.links[e];
    for k := 0 to |links|
      invariant marked == flagged + Targets(links, k)
      invariant multiset(out) == multiset((marked - flagged) * g.has)
    {
      var t := links[k];
      TargetsStep(links, k);
      if t !in marked {
        assert marked + {t} - flagged == (marked - flagged) + {t};
        NewlyFlagged(marked - flagged, t, g.has);
        marked := marked + {t};
        if t in g.has {
          out := out + [t];
        }
      }
    }
  }

  ghost function Targets(links: seq<Obj>, k: nat): set<Obj>
    requires k <= |links|
  {
    set t | t in links[..k]
  }

  lemma TargetsStep(links: seq<Obj>, k: nat)
    requires k < |links|
    ensures Targets(links, k + 1) == Targets(links, k) + {links[k]}
  {
    assert links[..k + 1] == links[..k] + [links[k]];
  }

  /** The loop that runs with one worker finds the same set: the least one, each present member read once. */
  method WalkAlone(g: Graph, roots: set<Obj>, pending: seq<Obj>) returns (done: seq<Obj>, flagged: set<Obj>)
    requires g.Valid() && roots <= g.objs && multiset(pending) == multiset(roots * g.has)
    ensures IsReach(g, roots, flagged)
    ensures multiset(done) == multiset(flagged * g.has)
  {
    var stack := pending;
    done, flagged := [], roots;
    while stack != []
      invariant roots <= flagged <= g.objs
      invariant multiset(flagged * g.has) == multiset(stack) + multiset(done)
      invariant DoneOk(g, flagged, done)
      invariant forall s | roots <= s && Closed(g, s) :: flagged <= s
      decreases 2 * |g.objs - flagged| + |stack|
    {
      var e := stack[|stack| - 1];
      var below := stack[..|stack| - 1];
      assert stack == below + [e];
      assert e in multiset(flagged * g.has);
      var out, marked := TraverseOne(g, e, flagged);
      assert g.links[e][..|g.links[e]|] == g.links[e];
      AloneStep(g, flagged, marked, below, e, done, out);
      done := done + [e];
      stack := below + out;
      flagged := marked;
    }
    assert Closed(g, flagged) by {
      forall o | o in flagged && o in g.has
        ensures o in done
      {
        assert o in multiset(flagged * g.has);
      }
    }
  }

  lemma AloneStep(g: Graph, flagged: set<Obj>, marked: set<Obj>, below: seq<Obj>, e: Obj, done: seq<Obj>, out: seq<Obj>)
    requires g.Valid() && flagged <= marked <= g.objs
    requires multiset(flagged * g.has) == multiset(below + [e]) + multiset(done)
    requires multiset(out) == multiset((marked - flagged) * g.has)
    ensures multiset(marked * g.has) == multiset(below + out) + multiset(done + [e])
    ensures 2 * |g.objs - marked| + |out| <= 2 * |g.objs - flagged|
  {
    var old', new' := flagged * g.has, (marked - flagged) * g.has;
    assert marked * g.has == old' + new' && old' !! new';
    assert multiset(marked * g.has) == multiset(old') + multiset(new');
    assert multiset(below + [e]) == multiset(below) + multiset{e}
           && multiset(done + [e]) == multiset(done) + multiset{e};
    var added := marked - flagged;
    assert g.objs - flagged == (g.objs - marked) + added;
    SubsetSize(added * g.has, added);
    assert |multiset(out)| == |out|;
  }

  lemma SubsetSize(a: set<Obj>, b: set<Obj>)
    requires a <= b
    ensures |a| <= |b|
  {
    assert b == a + (b - a);
  }

  /** There is one such set, so the walks agree. */
  lemma ReachIsUnique(g: Graph, roots: set<Obj>, a: set<Obj>, b: set<Obj>)
    requires g.Valid() && IsReach(g, roots, a) && IsReach(g, roots, b)
    ensures a == b
  {
  }
}
