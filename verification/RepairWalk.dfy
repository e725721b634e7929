/** The workers of a repair walk and their `pending` counter (internal/repair/walk.go), as atomic steps. */
module RepairWalk {
  import opened Sums
  import opened RepairPasses

  datatype Worker =
    /** At the top of the loop, or back from an empty bag that was not the end. */
    | Looking
    /** The bag gave nothing; the pending count comes next. */
    | Missed
    /** Reading an object, with the links before `k` wanted. */
    | Reading(o: Obj, k: nat)
    /** Inside want: `t` was not seen before and is now; it is neither counted nor queued. */
    | Added(o: Obj, k: nat, t: Obj)
    /** Inside want: counted, not yet queued. */
    | Counted(o: Obj, k: nat, t: Obj)
    /** Finished with an object; the count goes down next. */
    | Ending(o: Obj)
    | Returned

  datatype State = State(seen: set<Obj>, bad: set<Obj>, bag: multiset<Obj>, pending: int, done: multiset<Obj>,
                         workers: seq<Worker>)

  /** One atomic step of worker i. A look into the bag may take any member of it, or find it empty. */
  ghost predicate Act(r: Repo, readable: set<Obj>, s: State, s': State, i: nat)
    requires i < |s.workers|
  {
    match s.workers[i]
    case Looking =>
      || s' == s.(workers := s.workers[i := Missed])
      || exists o :: Takes(s, s', i, o)
    case Missed =>
      s' == s.(workers := s.workers[i := if s.pending == 0 then Returned else Looking])
    case Reading(o, k) =>
      if o !in readable || o !in r.links then
        s' == s.(bad := s.bad + ({o} - readable), workers := s.workers[i := Ending(o)])
      else if k < |r.links[o]| then
        var t := r.links[o][k];
        if t in s.seen then s' == s.(workers := s.workers[i := Reading(o, k + 1)])
        else s' == s.(seen := s.seen + {t}, workers := s.workers[i := Added(o, k, t)])
      else s' == s.(workers := s.workers[i := Ending(o)])
    case Added(o, k, t) => s' == s.(pending := s.pending + 1, workers := s.workers[i := Counted(o, k, t)])
    case Counted(o, k, t) => s' == s.(bag := s.bag + multiset{t}, workers := s.workers[i := Reading(o, k + 1)])
    case Ending(o) =>
      s' == s.(pending := s.pending - 1, done := s.done + multiset{o}, workers := s.workers[i := Looking])
    case Returned => false
  }

  ghost predicate Takes(s: State, s': State, i: nat, o: Obj)
    requires i < |s.workers|
  {
    o in s.bag && s' == s.(bag := s.bag - multiset{o}, workers := s.workers[i := Reading(o, 0)])
  }

  ghost predicate Step(r: Repo, readable: set<Obj>, s: State, s': State)
  {
    exists i :: 0 <= i < |s.workers| && Act(r, readable, s, s', i)
  }

  /** A walk over what was `seen` before, with the start queued and counted. */
  ghost predicate Init(base: set<Obj>, start: set<Obj>, s: State)
  {
    && s.seen == base + start && s.bad == {} && s.bag == multiset(start - base) && s.pending == |start - base|
    && s.done == multiset{} && forall i | 0 <= i < |s.workers| :: s.workers[i] == Looking
  }

  // ---------- the invariant ----------

  function Mine(w: Worker): multiset<Obj>
  {
    match w
    case Reading(o, _) => multiset{o}
    case Added(o, _, t) => multiset{o, t}
    case Counted(o, _, t) => multiset{o, t}
    case Ending(o) => multiset{o}
    case _ => multiset{}
  }

  /** What a worker accounts for in `pending`. */
  function Counts(w: Worker): nat
  {
    match w
    case Reading(_, _) => 1
    case Added(_, _, _) => 1
    case Counted(_, _, _) => 2
    case Ending(_) => 1
    case _ => 0
  }

  ghost predicate LinksSeen(r: Repo, o: Obj, k: nat, seen: set<Obj>)
  {
    o in r.links && k <= |r.links[o]| && forall j | 0 <= j < k :: r.links[o][j] in seen
  }

  /** An object that was read: all it points at is seen, or it was refused and noted. */
  ghost predicate Read(r: Repo, readable: set<Obj>, seen: set<Obj>, bad: set<Obj>, o: Obj)
  {
    if o in readable then o in r.links ==> LinksSeen(r, o, |r.links[o]|, seen) else o in bad
  }

  ghost predicate WorkerOk(r: Repo, readable: set<Obj>, s: State, w: Worker)
  {
    match w
    case Reading(o, k) => k > 0 ==> o in readable && LinksSeen(r, o, k, s.seen)
    case Added(o, k, t) => o in readable && LinksSeen(r, o, k + 1, s.seen)
    case Counted(o, k, t) => o in readable && LinksSeen(r, o, k + 1, s.seen)
    case Ending(o) => Read(r, readable, s.seen, s.bad, o)
    case Returned => s.pending == 0
    case _ => true
  }

  ghost predicate AllOk(r: Repo, readable: set<Obj>, s: State)
  {
    forall i | 0 <= i < |s.workers| :: WorkerOk(r, readable, s, s.workers[i])
  }

  /** Each object seen since `base` is in the bag, in one worker's hands, or done. */
  ghost predicate Placed(base: set<Obj>, s: State)
  {
    base <= s.seen && multiset(s.seen - base) == s.bag + Gather(Mine, s.workers) + s.done
  }

  /** `pending` counts what is queued and what is being read. */
  ghost predicate Balanced(s: State)
  {
    s.pending == |s.bag| + Sum(Counts, s.workers)
  }

  /** What has been found so far: no more than the walk needs, and everything the finished objects point at. */
  ghost predicate Known(r: Repo, readable: set<Obj>, base: set<Obj>, start: set<Obj>, seen: set<Obj>, bad: set<Obj>,
                        done: multiset<Obj>)
    requires r.Valid()
  {
    && start <= seen && seen - base <= r.universe && bad <= seen - base - readable
    && (forall o | o in done :: Read(r, readable, seen, bad, o))
    && (forall c | start - base <= c && Closed(r, readable, base, c) :: seen - base <= c)
  }

  ghost predicate Inv(r: Repo, readable: set<Obj>, base: set<Obj>, start: set<Obj>, s: State)
    requires r.Valid()
  {
    && Placed(base, s) && Balanced(s) && AllOk(r, readable, s)
    && Known(r, readable, base, start, s.seen, s.bad, s.done)
  }

  lemma InitInv(r: Repo, readable: set<Obj>, base: set<Obj>, start: set<Obj>, s: State)
    requires r.Valid() && start <= r.universe && Init(base, start, s)
    ensures Inv(r, readable, base, start, s)
  {
    hide Repo.Valid, Gather, Sum;
    assert base + start - base == start - base;
    GatherNothing(Mine, s.workers);
    SumZero(Counts, s.workers);
  }

  // ---------- every step keeps it ----------

  /** Worker i moves on to `w`: each object is in one place again. */
  lemma {:induction false} Moves(base: set<Obj>, s: State, s': State, i: nat, w: Worker, more: multiset<Obj>)
    requires i < |s.workers| && Placed(base, s) && s'.workers == s.workers[i := w] && s.seen <= s'.seen
    requires multiset(s'.seen - base) == multiset(s.seen - base) + more
    requires s'.bag + s'.done + Mine(w) == s.bag + s.done + Mine(s.workers[i]) + more
    ensures Placed(base, s')
  {
    hide Mine, Gather;
    GatherUpdate(Mine, s.workers, i, w);
    ShareOut(multiset(s.seen - base), more, s.bag, Gather(Mine, s.workers), s.done, Mine(s.workers[i]),
             s'.bag, Gather(Mine, s'.workers), s'.done, Mine(w));
  }

  /** Worker i moves on to `w`: the count is right again. */
  lemma {:induction false} Recounts(s: State, s': State, i: nat, w: Worker)
    requires i < |s.workers| && Balanced(s) && s'.workers == s.workers[i := w]
    requires s'.pending - |s'.bag| - Counts(w) == s.pending - |s.bag| - Counts(s.workers[i])
    ensures Balanced(s')
  {
    hide Counts, Sum;
    SumUpdate(Counts, s.workers, i, w);
  }

  /** What a worker has in hand was seen by this walk. */
  lemma {:induction false} InHand(base: set<Obj>, s: State, i: nat, o: Obj)
    requires i < |s.workers| && Placed(base, s) && o in Mine(s.workers[i])
    ensures o in s.seen - base
  {
    hide Mine, Gather;
    GatherMember(Mine, s.workers, i);
    assert o in multiset(s.seen - base);
  }

  /** Nobody has returned while somebody is reading: the count is not zero. */
  lemma {:induction false} StillCounted(s: State, i: nat)
    requires i < |s.workers| && Balanced(s)
    ensures s.pending >= Counts(s.workers[i])
  {
    SumMember(Counts, s.workers, i);
  }

  /** The other workers are as good as before: more is seen and noted, and the count moved only if none has returned. */
  lemma {:induction false} OthersOk(r: Repo, readable: set<Obj>, s: State, s': State, i: nat)
    requires AllOk(r, readable, s) && i < |s.workers| && |s'.workers| == |s.workers|
    requires s.seen <= s'.seen && s.bad <= s'.bad && (s'.pending == s.pending || s.pending > 0)
    requires forall j | 0 <= j < |s.workers| && j != i :: s'.workers[j] == s.workers[j]
    requires WorkerOk(r, readable, s', s'.workers[i])
    ensures AllOk(r, readable, s')
  {
    forall j | 0 <= j < |s'.workers|
      ensures WorkerOk(r, readable, s', s'.workers[j])
    {
      assert WorkerOk(r, readable, s, s.workers[j]);
    }
  }

  lemma AllOkAt(r: Repo, readable: set<Obj>, s: State, i: nat)
    requires AllOk(r, readable, s) && i < |s.workers|
    ensures WorkerOk(r, readable, s, s.workers[i])
  {
  }

  lemma InvAt(r: Repo, readable: set<Obj>, base: set<Obj>, start: set<Obj>, s: State, i: nat)
    requires r.Valid() && Inv(r, readable, base, start, s) && i < |s.workers|
    ensures WorkerOk(r, readable, s, s.workers[i]) && s.pending >= Counts(s.workers[i])
  {
    hide Placed, Balanced, AllOk, Known, Repo.Valid;
    StillCounted(s, i);
    AllOkAt(r, readable, s, i);
  }

  lemma {:induction false} ActInv(r: Repo, readable: set<Obj>, base: set<Obj>, start: set<Obj>, s: State, s': State,
                                  i: nat)
    requires r.Valid() && Inv(r, readable, base, start, s) && i < |s.workers| && Act(r, readable, s, s', i)
    ensures Inv(r, readable, base, start, s')
  {
    hide Placed, Balanced, AllOk, Known, Repo.Valid, Inv, LinksSeen, Read;
    InvAt(r, readable, base, start, s, i);
    match s.workers[i]
    case Looking =>
      if o :| Takes(s, s', i, o) {
        TakeInv(r, readable, base, start, s, s', i, o);
      } else {
        QuietInv(r, readable, base, start, s, s', i, s'.workers[i]);
      }
    case Missed => QuietInv(r, readable, base, start, s, s', i, s'.workers[i]);
    case Reading(_, _) => ReadInv(r, readable, base, start, s, s', i);
    case Added(_, _, _) => QuietInv(r, readable, base, start, s, s', i, s'.workers[i]);
    case Counted(_, _, _) => PushInv(r, readable, base, start, s, s', i);
    case Ending(_) => EndInv(r, readable, base, start, s, s', i);
    case Returned =>
  }

  /** Steps that move no object. */
  lemma {:induction false} QuietInv(r: Repo, readable: set<Obj>, base: set<Obj>, start: set<Obj>, s: State, s': State,
                                    i: nat, w: Worker)
    requires r.Valid() && Inv(r, readable, base, start, s) && i < |s.workers|
    requires s' == s.(workers := s.workers[i := w], pending := s'.pending) && Mine(w) == Mine(s.workers[i])
    requires s'.pending - Counts(w) == s.pending - Counts(s.workers[i])
    requires WorkerOk(r, readable, s', w) && (s'.pending == s.pending || s.pending > 0)
    ensures Inv(r, readable, base, start, s')
  {
    hide Placed, Balanced, AllOk, Known, Repo.Valid, Mine, Counts, WorkerOk;
    Moves(base, s, s', i, w, multiset{});
    Recounts(s, s', i, w);
    OthersOk(r, readable, s, s', i);
  }

  lemma {:induction false} TakeInv(r: Repo, readable: set<Obj>, base: set<Obj>, start: set<Obj>, s: State, s': State,
                                   i: nat, o: Obj)
    requires r.Valid() && Inv(r, readable, base, start, s) && i < |s.workers| && s.workers[i] == Looking
    requires Takes(s, s', i, o)
    ensures Inv(r, readable, base, start, s')
  {
    hide Placed, Balanced, AllOk, Known, Repo.Valid;
    assert s.bag == s'.bag + multiset{o};
    Moves(base, s, s', i, s'.workers[i], multiset{});
    Recounts(s, s', i, s'.workers[i]);
    OthersOk(r, readable, s, s', i);
  }

  lemma {:induction false} PushInv(r: Repo, readable: set<Obj>, base: set<Obj>, start: set<Obj>, s: State, s': State,
                                   i: nat)
    requires r.Valid() && Inv(r, readable, base, start, s) && i < |s.workers| && Act(r, readable, s, s', i)
    requires s.workers[i].Counted?
    ensures Inv(r, readable, base, start, s')
  {
    hide Placed, Balanced, AllOk, Known, Repo.Valid;
    AllOkAt(r, readable, s, i);
    Moves(base, s, s', i, s'.workers[i], multiset{});
    Recounts(s, s', i, s'.workers[i]);
    OthersOk(r, readable, s, s', i);
  }

  lemma {:induction false} EndInv(r: Repo, readable: set<Obj>, base: set<Obj>, start: set<Obj>, s: State, s': State,
                                  i: nat)
    requires r.Valid() && Inv(r, readable, base, start, s) && i < |s.workers| && Act(r, readable, s, s', i)
    requires s.workers[i].Ending?
    ensures Inv(r, readable, base, start, s')
  {
    hide Placed, Balanced, AllOk, Known, Read;
    StillCounted(s, i);
    AllOkAt(r, readable, s, i);
    KnownEnds(r, readable, base, start, s.seen, s.bad, s.done, s.workers[i].o);
    Moves(base, s, s', i, s'.workers[i], multiset{});
    Recounts(s, s', i, s'.workers[i]);
    OthersOk(r, readable, s, s', i);
  }

  lemma {:induction false} ReadInv(r: Repo, readable: set<Obj>, base: set<Obj>, start: set<Obj>, s: State, s': State,
                                   i: nat)
    requires r.Valid() && Inv(r, readable, base, start, s) && i < |s.workers| && Act(r, readable, s, s', i)
    requires s.workers[i].Reading?
    ensures Inv(r, readable, base, start, s')
  {
    hide Inv, Repo.Valid;
    var o, k := s.workers[i].o, s.workers[i].k;
    if o !in readable || o !in r.links {
      NoteInv(r, readable, base, start, s, s', i);
    } else if k < |r.links[o]| && r.links[o][k] !in s.seen {
      WantInv(r, readable, base, start, s, s', i);
    } else {
      PassInv(r, readable, base, start, s, s', i);
    }
  }

  /** An object that cannot be read, or points at nothing. */
  lemma {:induction false} NoteInv(r: Repo, readable: set<Obj>, base: set<Obj>, start: set<Obj>, s: State, s': State,
                                   i: nat)
    requires r.Valid() && Inv(r, readable, base, start, s) && i < |s.workers| && Act(r, readable, s, s', i)
    requires s.workers[i].Reading? && (s.workers[i].o !in readable || s.workers[i].o !in r.links)
    ensures Inv(r, readable, base, start, s')
  {
    hide Placed, Balanced, AllOk, Known, Closed, Repo.Valid;
    var o := s.workers[i].o;
    StillCounted(s, i);
    AllOkAt(r, readable, s, i);
    InHand(base, s, i, o);
    KnownNotes(r, readable, base, start, s.seen, s.bad, s.done, o);
    Moves(base, s, s', i, Ending(o), multiset{});
    Recounts(s, s', i, Ending(o));
    OthersOk(r, readable, s, s', i);
  }

  /** A link to an object that was not seen before. */
  lemma {:induction false} WantInv(r: Repo, readable: set<Obj>, base: set<Obj>, start: set<Obj>, s: State, s': State,
                                   i: nat)
    requires r.Valid() && Inv(r, readable, base, start, s) && i < |s.workers| && Act(r, readable, s, s', i)
    requires s.workers[i].Reading? && s.workers[i].o in readable && s.workers[i].o in r.links
    requires s.workers[i].k < |r.links[s.workers[i].o]| && r.links[s.workers[i].o][s.workers[i].k] !in s.seen
    ensures Inv(r, readable, base, start, s')
  {
    hide Placed, Balanced, AllOk, Known, Closed, Repo.Valid;
    var o, k := s.workers[i].o, s.workers[i].k;
    var t := r.links[o][k];
    StillCounted(s, i);
    AllOkAt(r, readable, s, i);
    InHand(base, s, i, o);
    SeenMore(base, s, t);
    KnownSees(r, readable, base, start, s.seen, s.bad, s.done, o, k);
    HoldsMore(s.bag, s.done, o, t);
    Moves(base, s, s', i, Added(o, k, t), multiset{t});
    Recounts(s, s', i, Added(o, k, t));
    OthersOk(r, readable, s, s', i);
  }

  /** A link to an object that was seen, or no further link. */
  lemma {:induction false} PassInv(r: Repo, readable: set<Obj>, base: set<Obj>, start: set<Obj>, s: State, s': State,
                                   i: nat)
    requires r.Valid() && Inv(r, readable, base, start, s) && i < |s.workers| && Act(r, readable, s, s', i)
    requires s.workers[i].Reading? && s.workers[i].o in readable && s.workers[i].o in r.links
    requires s.workers[i].k < |r.links[s.workers[i].o]| ==> r.links[s.workers[i].o][s.workers[i].k] in s.seen
    ensures Inv(r, readable, base, start, s')
  {
    hide Placed, Balanced, AllOk, Known, Closed, Repo.Valid;
    StillCounted(s, i);
    AllOkAt(r, readable, s, i);
    QuietInv(r, readable, base, start, s, s', i, s'.workers[i]);
  }

  lemma HoldsMore(bag: multiset<Obj>, done: multiset<Obj>, o: Obj, t: Obj)
    ensures bag + done + multiset{o, t} == bag + done + multiset{o} + multiset{t}
  {
  }

  lemma SeenMore(base: set<Obj>, s: State, t: Obj)
    requires Placed(base, s) && t !in s.seen
    ensures multiset(s.seen + {t} - base) == multiset(s.seen - base) + multiset{t}
  {
    assert s.seen + {t} - base == (s.seen - base) + {t};
  }

  lemma KnownEnds(r: Repo, readable: set<Obj>, base: set<Obj>, start: set<Obj>, seen: set<Obj>, bad: set<Obj>,
                  done: multiset<Obj>, o: Obj)
    requires r.Valid() && Known(r, readable, base, start, seen, bad, done) && Read(r, readable, seen, bad, o)
    ensures Known(r, readable, base, start, seen, bad, done + multiset{o})
  {
  }

  lemma KnownNotes(r: Repo, readable: set<Obj>, base: set<Obj>, start: set<Obj>, seen: set<Obj>, bad: set<Obj>,
                   done: multiset<Obj>, o: Obj)
    requires r.Valid() && Known(r, readable, base, start, seen, bad, done) && o in seen - base
    ensures Known(r, readable, base, start, seen, bad + ({o} - readable), done)
  {
  }

  /** A link of an object that every such walk reads is read by every such walk. */
  lemma KnownSees(r: Repo, readable: set<Obj>, base: set<Obj>, start: set<Obj>, seen: set<Obj>, bad: set<Obj>,
                  done: multiset<Obj>, o: Obj, k: nat)
    requires r.Valid() && Known(r, readable, base, start, seen, bad, done) && o in seen - base
    requires o in readable && o in r.links && k < |r.links[o]|
    ensures Known(r, readable, base, start, seen + {r.links[o][k]}, bad, done)
  {
    var t := r.links[o][k];
    assert t in r.links[o];
    forall c | start - base <= c && Closed(r, readable, base, c)
      ensures seen + {t} - base <= c
    {
      assert o in c;
    }
  }

  // ---------- the end of the walk ----------

  /** As soon as one worker has returned the walk is over: the bag is empty, nobody is reading, and what was seen and
      refused is what the walk was asked for, whatever the number of workers and the order of their steps. */
  lemma {:induction false} ReturnedMeansDone(r: Repo, readable: set<Obj>, base: set<Obj>, start: set<Obj>, s: State,
                                             i: nat)
    requires r.Valid() && Inv(r, readable, base, start, s) && i < |s.workers| && s.workers[i] == Returned
    ensures s.bag == multiset{} && (forall j | 0 <= j < |s.workers| :: Counts(s.workers[j]) == 0)
    ensures Walked(r, readable, base, start, s.seen - base) && s.bad == s.seen - base - readable
  {
    assert WorkerOk(r, readable, s, s.workers[i]);
    forall j | 0 <= j < |s.workers|
      ensures Counts(s.workers[j]) == 0 && Mine(s.workers[j]) == multiset{}
    {
      SumMember(Counts, s.workers, j);
    }
    GatherNothing(Mine, s.workers);
    assert |s.bag| == 0;
    assert multiset(s.seen - base) == s.done;
    assert forall o | o in s.seen - base :: o in s.done;
    assert s.seen - base - {} == s.seen - base;
    WalkEnds(r, readable, base, start, s.seen, s.bad);
  }

  // ---------- whole runs ----------

  ghost predicate Run(r: Repo, readable: set<Obj>, base: set<Obj>, start: set<Obj>, states: seq<State>)
  {
    && states != [] && Init(base, start, states[0])
    && forall n | 0 < n < |states| :: Step(r, readable, states[n - 1], states[n])
  }

  lemma {:induction false} RunsKeepInv(r: Repo, readable: set<Obj>, base: set<Obj>, start: set<Obj>, states: seq<State>)
    requires r.Valid() && start <= r.universe && Run(r, readable, base, start, states)
    ensures Inv(r, readable, base, start, states[|states| - 1])
    decreases |states|
  {
    hide Inv, Init, Act, Repo.Valid;
    var n := |states| - 1;
    if n == 0 {
      InitInv(r, readable, base, start, states[0]);
    } else {
      RunsKeepInv(r, readable, base, start, states[..n]);
      assert Step(r, readable, states[n - 1], states[n]);
      var i :| 0 <= i < |states[n - 1].workers| && Act(r, readable, states[n - 1], states[n], i);
      ActInv(r, readable, base, start, states[n - 1], states[n], i);
    }
  }

  /** Two walks of the same repository, with different numbers of workers and different schedules, find the same:
      what they saw and what they could not read do not depend on the run. */
  lemma {:induction false} RunsAgree(r: Repo, readable: set<Obj>, base: set<Obj>, start: set<Obj>, one: seq<State>,
                                     two: seq<State>)
    requires r.Valid() && start <= r.universe
    requires Run(r, readable, base, start, one) && Returned in one[|one| - 1].workers
    requires Run(r, readable, base, start, two) && Returned in two[|two| - 1].workers
    ensures one[|one| - 1].bad == two[|two| - 1].bad
    ensures one[|one| - 1].seen - base == two[|two| - 1].seen - base
  {
    hide Inv, Init, Act, Repo.Valid;
    var s, t := one[|one| - 1], two[|two| - 1];
    RunsKeepInv(r, readable, base, start, one);
    RunsKeepInv(r, readable, base, start, two);
    var i :| 0 <= i < |s.workers| && s.workers[i] == Returned;
    var j :| 0 <= j < |t.workers| && t.workers[j] == Returned;
    ReturnedMeansDone(r, readable, base, start, s, i);
    ReturnedMeansDone(r, readable, base, start, t, j);
  }

  // ---------- no walk hangs ----------

  /** A worker that has not returned can always take its next step: none ever waits for another. */
  lemma NeverBlocked(r: Repo, readable: set<Obj>, s: State, i: nat) returns (s': State)
    requires i < |s.workers| && s.workers[i] != Returned
    ensures Act(r, readable, s, s', i)
  {
    match s.workers[i]
    case Looking => s' := s.(workers := s.workers[i := Missed]);
    case Missed => s' := s.(workers := s.workers[i := if s.pending == 0 then Returned else Looking]);
    case Reading(o, k) =>
      if o !in readable || o !in r.links {
        s' := s.(bad := s.bad + ({o} - readable), workers := s.workers[i := Ending(o)]);
      } else if k < |r.links[o]| {
        var t := r.links[o][k];
        s' := if t in s.seen then s.(workers := s.workers[i := Reading(o, k + 1)])
              else s.(seen := s.seen + {t}, workers := s.workers[i := Added(o, k, t)]);
      } else {
        s' := s.(workers := s.workers[i := Ending(o)]);
      }
    case Added(o, k, t) => s' := s.(pending := s.pending + 1, workers := s.workers[i := Counted(o, k, t)]);
    case Counted(o, k, t) => s' := s.(bag := s.bag + multiset{t}, workers := s.workers[i := Reading(o, k + 1)]);
    case Ending(o) =>
      s' := s.(pending := s.pending - 1, done := s.done + multiset{o}, workers := s.workers[i := Looking]);
  }

  /** With nothing queued and nobody reading the count is zero, so whoever looks at it next returns. */
  lemma {:induction false} NothingPending(r: Repo, readable: set<Obj>, base: set<Obj>, start: set<Obj>, s: State)
    requires r.Valid() && Inv(r, readable, base, start, s) && s.bag == multiset{}
    requires forall j | 0 <= j < |s.workers| :: Counts(s.workers[j]) == 0
    ensures s.pending == 0
  {
    hide Placed, AllOk, Known, Repo.Valid, Counts;
    SumZero(Counts, s.workers);
  }

  /** Finding the bag empty, and finding that somebody is still reading: the two steps that a waiting worker repeats. */
  ghost predicate Spins(s: State, s': State, i: nat)
    requires i < |s.workers|
  {
    || (s.workers[i] == Looking && s' == s.(workers := s.workers[i := Missed]))
    || (s.workers[i] == Missed && s.pending != 0)
  }

  function InHands(w: Worker): nat
  {
    match w
    case Reading(_, _) => 1
    case Added(_, _, _) => 2
    case Counted(_, _, _) => 2
    case Ending(_) => 1
    case _ => 0
  }

  /** How far a worker is from queueing the object that it has just found. */
  function Carries(w: Worker): nat
  {
    match w
    case Added(_, _, _) => 2
    case Counted(_, _, _) => 1
    case _ => 0
  }

  ghost function LeftOf(r: Repo, w: Worker): nat
  {
    match w
    case Reading(o, k) => 2 + if o in r.links && k <= |r.links[o]| then |r.links[o]| - k else 0
    case Ending(_) => 1
    case Missed => 1
    case _ => 0
  }

  ghost function LeftIn(r: Repo): Worker -> nat
  {
    (w: Worker) => LeftOf(r, w)
  }

  ghost function Unseen(r: Repo, base: set<Obj>, s: State): nat
  {
    |r.universe - (s.seen - base)|
  }

  ghost function Unfinished(s: State): nat
  {
    |s.bag| + Sum(InHands, s.workers)
  }

  /** An object is seen; or else one is finished, or one is on its way into the bag, or one is taken out of it, or a
      worker comes nearer to the end of the one it reads. */
  ghost predicate Smaller(r: Repo, base: set<Obj>, s': State, s: State)
  {
    || Unseen(r, base, s') < Unseen(r, base, s)
    || (Unseen(r, base, s') == Unseen(r, base, s)
        && (|| Unfinished(s') < Unfinished(s)
            || (Unfinished(s') == Unfinished(s)
                && (|| Sum(Carries, s'.workers) < Sum(Carries, s.workers)
                    || (Sum(Carries, s'.workers) == Sum(Carries, s.workers)
                        && (|| |s'.bag| < |s.bag|
                            || (|s'.bag| == |s.bag| && Sum(LeftIn(r), s'.workers) < Sum(LeftIn(r), s.workers))))))))
  }

  /** Every step other than waiting makes progress, so only waiting can go on for ever; and there is nothing to wait for
      once nothing is pending. */
  lemma {:induction false} ActProgress(r: Repo, readable: set<Obj>, base: set<Obj>, start: set<Obj>, s: State,
                                       s': State, i: nat)
    requires r.Valid() && Inv(r, readable, base, start, s) && i < |s.workers| && Act(r, readable, s, s', i)
    requires !Spins(s, s', i)
    ensures Smaller(r, base, s', s)
  {
    hide Repo.Valid, Inv, Sum;
    InvAt(r, readable, base, start, s, i);
    SumUpdate(InHands, s.workers, i, s'.workers[i]);
    SumUpdate(Carries, s.workers, i, s'.workers[i]);
    SumUpdate(LeftIn(r), s.workers, i, s'.workers[i]);
    match s.workers[i]
    case Looking =>
      var o :| Takes(s, s', i, o);
      TakesOne(s, s', i, o);
    case Reading(o, k) =>
      if o in readable && o in r.links && k < |r.links[o]| && r.links[o][k] !in s.seen {
        SeesOne(r, readable, base, start, s, i);
      }
    case _ =>
  }

  lemma TakesOne(s: State, s': State, i: nat, o: Obj)
    requires i < |s.workers| && Takes(s, s', i, o)
    ensures s'.seen == s.seen && |s'.bag| == |s.bag| - 1 && s'.workers == s.workers[i := Reading(o, 0)]
  {
    assert s.bag == s'.bag + multiset{o};
  }

  lemma {:induction false} SeesOne(r: Repo, readable: set<Obj>, base: set<Obj>, start: set<Obj>, s: State, i: nat)
    requires r.Valid() && Inv(r, readable, base, start, s) && i < |s.workers| && s.workers[i].Reading?
    requires var o, k := s.workers[i].o, s.workers[i].k;
             o in r.links && k < |r.links[o]| && r.links[o][k] !in s.seen
    ensures var t := r.links[s.workers[i].o][s.workers[i].k];
            |r.universe - (s.seen + {t} - base)| < |r.universe - (s.seen - base)|
  {
    hide Balanced, AllOk, Gather, Closed;
    var o := s.workers[i].o;
    var t := r.links[o][s.workers[i].k];
    InHand(base, s, i, o);
    assert o in r.universe && t in r.links[o] && t in r.universe && t !in base;
    assert r.universe - (s.seen - base) == (r.universe - (s.seen + {t} - base)) + {t};
  }
}
