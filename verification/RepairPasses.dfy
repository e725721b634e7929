/** The object-recovery passes of internal/repair: a walk that carries what earlier walks read. */
module RepairPasses {

  type Obj = nat

  /** What objects point at, fixed by their names; `refs` are the names the references hold. */
  datatype Repo = Repo(universe: set<Obj>, links: map<Obj, seq<Obj>>, refs: set<Obj>)
  {
    ghost predicate Valid()
    {
      && refs <= universe && universe <= links.Keys
      && forall o | o in universe :: forall t | t in links[o] :: t in universe
    }
  }

  // ---------- what a walk finds ----------

  /** Everything a readable member of `s` points at is in `s` or was seen before. */
  ghost predicate Closed(r: Repo, readable: set<Obj>, seen: set<Obj>, s: set<Obj>)
    requires r.Valid()
  {
    forall o | o in s && o in readable && o in r.links :: forall t | t in r.links[o] :: t in s || t in seen
  }

  /** `visited` is what a walk reads that starts at `start` and passes over what was `seen`. */
  ghost predicate Walked(r: Repo, readable: set<Obj>, seen: set<Obj>, start: set<Obj>, visited: set<Obj>)
    requires r.Valid()
  {
    && visited !! seen && start - seen <= visited && Closed(r, readable, seen, visited)
    && forall s | start - seen <= s && Closed(r, readable, seen, s) :: visited <= s
  }

  /** What a walk from the references reads, starting from nothing. */
  ghost predicate FullWalk(r: Repo, readable: set<Obj>, reached: set<Obj>)
    requires r.Valid()
  {
    Walked(r, readable, {}, r.refs, reached)
  }

  /** A pass is exact: descending from what was put back, with the rest of what was seen passed over, reaches what a
      fresh walk would, and the damage is what it found with what was carried. A pass only makes objects readable,
      and only ones it put back. */
  lemma PassIsExact(r: Repo, before: set<Obj>, after: set<Obj>, reached: set<Obj>, back: set<Obj>, visited: set<Obj>)
    requires r.Valid() && FullWalk(r, before, reached)
    requires back <= reached - before && before <= after <= before + back
    requires Walked(r, after, reached - back, back, visited)
    ensures FullWalk(r, after, reached - back + visited)
    ensures (reached - back + visited) - after == (visited - after) + (reached - before - back)
  {
    var seen, now := reached - back, reached - back + visited;
    assert back - seen == back;
    assert r.refs - {} == r.refs;
    assert Closed(r, after, {}, now) by {
      forall o | o in now && o in after && o in r.links
        ensures forall t | t in r.links[o] :: t in now
      {
        assert o in visited || (o in reached && o in before);
      }
    }
    forall s | r.refs - {} <= s && Closed(r, after, {}, s)
      ensures now <= s
    {
      assert Closed(r, before, {}, s);
      assert Closed(r, after, seen, s);
    }
  }

  // ---------- a walk in progress ----------

  /** What a walk in progress has found: `seen` since `base`, `open` still to read, `bad` read and refused. */
  ghost predicate WalkInv(r: Repo, readable: set<Obj>, base: set<Obj>, start: set<Obj>, seen: set<Obj>, open: set<Obj>,
                          bad: set<Obj>)
    requires r.Valid()
  {
    var visited := seen - base;
    && base <= seen && start <= seen && visited <= r.universe && open <= visited
    && Followed(r, readable, visited - open, seen)
    && bad == visited - open - readable
    && forall s | start - base <= s && Closed(r, readable, base, s) :: visited <= s
  }

  /** Every link of every readable object of `s` has been seen. */
  ghost predicate Followed(r: Repo, readable: set<Obj>, s: set<Obj>, seen: set<Obj>)
  {
    forall o | o in s && o in readable && o in r.links :: forall t | t in r.links[o] :: t in seen
  }

  lemma WalkStarts(r: Repo, readable: set<Obj>, base: set<Obj>, start: set<Obj>)
    requires r.Valid() && start <= r.universe
    ensures WalkInv(r, readable, base, start, base + start, start - base, {})
  {
    assert base + start - base == start - base;
  }

  /** Reading one open object: it is refused, or everything it points at is seen from now on. */
  lemma WalkReads(r: Repo, readable: set<Obj>, base: set<Obj>, start: set<Obj>, seen: set<Obj>, open: set<Obj>,
                  bad: set<Obj>, o: Obj, targets: set<Obj>)
    requires r.Valid() && WalkInv(r, readable, base, start, seen, open, bad) && o in open
    requires targets == if o in readable && o in r.links then SetOf(r.links[o]) else {}
    ensures WalkInv(r, readable, base, start, seen + targets, open - {o} + (targets - seen),
                    if o in readable then bad else bad + {o})
  {
    var seen', open' := seen + targets, open - {o} + (targets - seen);
    var visited, visited' := seen - base, seen' - base;
    assert targets <= r.universe;
    assert visited' - open' == visited - open + {o};
    forall s | start - base <= s && Closed(r, readable, base, s)
      ensures visited' <= s
    {
      assert o in s;
    }
  }

  /** With nothing open the walk is the one that was asked for, and its refusals are what it could not read. */
  lemma WalkEnds(r: Repo, readable: set<Obj>, base: set<Obj>, start: set<Obj>, seen: set<Obj>, bad: set<Obj>)
    requires r.Valid() && WalkInv(r, readable, base, start, seen, {}, bad)
    ensures Walked(r, readable, base, start, seen - base) && bad == seen - base - readable
  {
    var visited := seen - base;
    assert visited - {} == visited;
  }

  // ---------- the scanner ----------

  ghost function SetOf(s: seq<Obj>): set<Obj>
  {
    set o | o in s
  }

  ghost predicate Distinct(s: seq<Obj>)
  {
    forall i, j | 0 <= i < j < |s| :: s[i] != s[j]
  }

  /** One scan's tables, read by one worker. `pending` counts what is queued and what is being read. */
  class Scanner {
    const repo: Repo
    const readable: set<Obj>
    /** Blobs in packs that were read end to end: nothing to read, nothing to follow. */
    const proven: set<Obj>
    var seen: set<Obj>
    var bad: set<Obj>
    var queue: seq<Obj>
    var pending: int

    constructor (repo: Repo, readable: set<Obj>, proven: set<Obj>, seen: set<Obj>)
      ensures this.repo == repo && this.readable == readable && this.proven == proven
      ensures this.seen == seen && bad == {} && queue == [] && pending == 0
    {
      this.repo, this.readable, this.proven := repo, readable, proven;
      this.seen, bad, queue, pending := seen, {}, [], 0;
    }

    ghost predicate Counted()
      reads this
    {
      pending == |queue| && Distinct(queue) && SetOf(queue) <= seen
    }

    method Want(o: Obj)
      requires Distinct(queue) && SetOf(queue) <= seen
      modifies this`seen, this`queue, this`pending
      ensures seen == old(seen) + {o} && SetOf(queue) == old(SetOf(queue)) + ({o} - old(seen))
      ensures Distinct(queue) && |queue| - pending == old(|queue| - pending)
      ensures queue == if o in old(seen) then old(queue) else old(queue) + [o]
    {
      if o in seen {
        return;
      }
      seen := seen + {o};
      pending := pending + 1;
      queue := queue + [o];
    }

    method WantAll(list: seq<Obj>)
      requires Distinct(queue) && SetOf(queue) <= seen
      modifies this`seen, this`queue, this`pending
      ensures seen == old(seen) + SetOf(list) && SetOf(queue) == old(SetOf(queue)) + (SetOf(list) - old(seen))
      ensures Distinct(queue) && |queue| - pending == old(|queue| - pending)
    {
      hide Distinct, SetOf;
      SetOfNothing();
      for k := 0 to |list|
        invariant seen == old(seen) + SetOf(list[..k])
        invariant SetOf(queue) == old(SetOf(queue)) + (SetOf(list[..k]) - old(seen))
        invariant Distinct(queue) && |queue| - pending == old(|queue| - pending)
      {
        SetOfNext(list, k);
        Want(list[k]);
        AddOne(old(SetOf(queue)), SetOf(list[..k]), old(seen), list[k]);
      }
      assert list[..|list|] == list;
    }

    /** A proven blob is a readable object that points at nothing. */
    ghost predicate Trusted()
    {
      forall o | o in proven :: o in readable && (o in repo.links ==> repo.links[o] == [])
    }

    /** The walk, from whatever is queued until nothing is pending. */
    method Walk(ghost base: set<Obj>, ghost start: set<Obj>)
      requires repo.Valid() && Trusted() && Counted()
      requires WalkInv(repo, readable, base, start, seen, SetOf(queue), bad)
      modifies this
      ensures WalkInv(repo, readable, base, start, seen, {}, bad) && pending == 0
    {
      while queue != []
        invariant Counted() && WalkInv(repo, readable, base, start, seen, SetOf(queue), bad)
        decreases Left(repo, base, seen, SetOf(queue))
      {
        ReadOne(base, start);
      }
    }

    /** Take one object off the bag, read it, and queue what it points at. */
    method ReadOne(ghost base: set<Obj>, ghost start: set<Obj>)
      requires repo.Valid() && Trusted() && Counted() && queue != []
      requires WalkInv(repo, readable, base, start, seen, SetOf(queue), bad)
      modifies this
      ensures Counted() && WalkInv(repo, readable, base, start, seen, SetOf(queue), bad)
      ensures Left(repo, base, seen, SetOf(queue)) < old(Left(repo, base, seen, SetOf(queue)))
    {
      hide WalkInv, SetOf, Distinct, Left;
      var o := queue[|queue| - 1];
      ghost var before, open, refused := seen, SetOf(queue), bad;
      ghost var targets := if o in readable && o in repo.links then SetOf(repo.links[o]) else {};
      TakeLast(queue);
      OpenIsKnown(repo, readable, base, start, seen, open, bad, o);
      WalkReads(repo, readable, base, start, seen, open, bad, o, targets);
      Measures(repo, readable, base, start, seen, open, o, targets, bad);
      queue := queue[..|queue| - 1];
      Follow(o);
      pending := pending - 1;
      assert SetOf(queue) == open - {o} + (targets - before);
    }

    /** What reading an object does to the tables. */
    method Follow(o: Obj)
      requires Trusted() && o in repo.links && Distinct(queue) && SetOf(queue) <= seen
      modifies this
      ensures var targets := if o in readable && o in repo.links then SetOf(repo.links[o]) else {};
              seen == old(seen) + targets && SetOf(queue) == old(SetOf(queue)) + (targets - old(seen))
      ensures bad == if o in readable then old(bad) else old(bad) + {o}
      ensures Distinct(queue) && |queue| - pending == old(|queue| - pending)
    {
      if o in proven {
        assert SetOf(repo.links[o]) == {};
      } else if o !in readable {
        bad := bad + {o};
      } else {
        WantAll(repo.links[o]);
      }
    }
  }

  /** Objects not yet seen count twice, open ones once. */
  ghost function Left(r: Repo, base: set<Obj>, seen: set<Obj>, open: set<Obj>): nat
  {
    2 * |r.universe - (seen - base)| + |open|
  }

  lemma SetOfNothing()
    ensures SetOf([]) == {}
  {
  }

  lemma SetOfNext(list: seq<Obj>, k: nat)
    requires k < |list|
    ensures SetOf(list[..k + 1]) == SetOf(list[..k]) + {list[k]}
  {
    assert list[..k + 1] == list[..k] + [list[k]];
  }

  lemma AddOne(q: set<Obj>, p: set<Obj>, s: set<Obj>, t: Obj)
    ensures q + (p - s) + ({t} - (s + p)) == q + (p + {t} - s)
  {
  }

  lemma TakeLast(queue: seq<Obj>)
    requires queue != [] && Distinct(queue)
    ensures var n := |queue| - 1;
            && Distinct(queue[..n]) && SetOf(queue[..n]) == SetOf(queue) - {queue[n]} && queue[n] in SetOf(queue)
  {
    var n := |queue| - 1;
    assert queue == queue[..n] + [queue[n]];
    assert forall i | 0 <= i < n :: queue[i] != queue[n];
  }

  lemma OpenIsKnown(r: Repo, readable: set<Obj>, base: set<Obj>, start: set<Obj>, seen: set<Obj>, open: set<Obj>,
                    bad: set<Obj>, o: Obj)
    requires r.Valid() && WalkInv(r, readable, base, start, seen, open, bad) && o in open
    ensures o in r.links && SetOf(r.links[o]) <= r.universe
  {
    assert o in r.universe;
  }

  /** Reading an object takes it out of the open ones, and each new one was not seen before. */
  lemma Measures(r: Repo, readable: set<Obj>, base: set<Obj>, start: set<Obj>, before: set<Obj>, open: set<Obj>, o: Obj,
                 targets: set<Obj>, bad: set<Obj>)
    requires r.Valid() && WalkInv(r, readable, base, start, before, open, bad) && o in open && targets <= r.universe
    ensures open - {o} + (targets - before) <= before + targets
    ensures Left(r, base, before + targets, open - {o} + (targets - before)) < Left(r, base, before, open)
  {
    var added := targets - before;
    assert r.universe - (before - base) == (r.universe - (before + targets - base)) + added;
    assert open == (open - {o}) + {o};
    SizeOfSum(open - {o}, added);
  }

  lemma SizeOfSum(a: set<Obj>, b: set<Obj>)
    ensures |a + b| <= |a| + |b|
  {
    assert a + b == a + (b - a) && b == (b - a) + (a * b);
  }

  // ---------- scans and passes ----------

  ghost predicate ProvenBlobs(repo: Repo, readable: set<Obj>, proven: set<Obj>)
  {
    forall o | o in proven :: o in readable && (o in repo.links ==> repo.links[o] == [])
  }

  /** A scan's damage as a list: each refused object once. */
  method Collect(bad: set<Obj>) returns (list: seq<Obj>)
    ensures Distinct(list) && SetOf(list) == bad
  {
    list := [];
    var left := bad;
    while left != {}
      invariant Distinct(list) && SetOf(list) !! left && SetOf(list) + left == bad
      decreases |left|
    {
      var o :| o in left;
      list := list + [o];
      left := left - {o};
    }
  }

  /** The first scan: a walk from the references with nothing seen. */
  method Scan(repo: Repo, readable: set<Obj>, proven: set<Obj>, refs: seq<Obj>)
    returns (objects: seq<Obj>, seen: set<Obj>)
    requires repo.Valid() && SetOf(refs) == repo.refs && ProvenBlobs(repo, readable, proven)
    ensures FullWalk(repo, readable, seen) && SetOf(objects) == seen - readable && Distinct(objects)
  {
    hide WalkInv, Walked;
    var s := new Scanner(repo, readable, proven, {});
    WalkStarts(repo, readable, {}, repo.refs);
    assert Distinct(s.queue) && SetOf(s.queue) == {};
    s.WantAll(refs);
    assert {} + repo.refs == s.seen && repo.refs - {} == SetOf(s.queue);
    s.Walk({}, repo.refs);
    WalkEnds(repo, readable, {}, repo.refs, s.seen, s.bad);
    seen := s.seen;
    assert seen - {} == seen;
    objects := Collect(s.bad);
  }

  /** The walk under what a pass put back. Each of those is forgotten and wanted again; the rest stays seen. */
  method Descend(repo: Repo, readable: set<Obj>, proven: set<Obj>, from: seq<Obj>, seen: set<Obj>)
    returns (objects: seq<Obj>, seen': set<Obj>)
    requires repo.Valid() && ProvenBlobs(repo, readable, proven)
    requires Distinct(from) && SetOf(from) <= seen && SetOf(from) <= repo.universe
    ensures seen <= seen'
    ensures Walked(repo, readable, seen - SetOf(from), SetOf(from), seen' - (seen - SetOf(from)))
    ensures SetOf(objects) == seen' - (seen - SetOf(from)) - readable && Distinct(objects)
  {
    hide WalkInv, Walked;
    var s := new Scanner(repo, readable, proven, seen);
    for k := 0 to |from|
      invariant fresh(s) && s.repo == repo && s.readable == readable && s.proven == proven && s.bad == {}
      invariant s.seen == seen && s.queue == from[..k] && s.pending == k
    {
      assert from[k] in from && from[k] !in from[..k];
      s.seen := s.seen - {from[k]};
      assert SetOf(s.queue) <= s.seen;
      s.Want(from[k]);
      assert from[..k + 1] == from[..k] + [from[k]];
    }
    assert from[..|from|] == from;
    ghost var base, start := seen - SetOf(from), SetOf(from);
    WalkStarts(repo, readable, base, start);
    assert base + start == seen && start - base == start;
    s.Walk(base, start);
    WalkEnds(repo, readable, base, start, s.seen, s.bad);
    seen' := s.seen;
    SeenGrows(repo, readable, base, start, s.seen, s.bad);
    objects := Collect(s.bad);
  }

  lemma SeenGrows(r: Repo, readable: set<Obj>, base: set<Obj>, start: set<Obj>, seen: set<Obj>, bad: set<Obj>)
    requires r.Valid() && WalkInv(r, readable, base, start, seen, {}, bad)
    ensures base + start <= seen
  {
  }

  /** stillBad: what this pass found, then what the last one could not put back, each object once. */
  method StillBad(found: seq<Obj>, carried: seq<Obj>) returns (out: seq<Obj>)
    ensures Distinct(out) && SetOf(out) == SetOf(found) + SetOf(carried)
  {
    out := [];
    var all := found + carried;
    for k := 0 to |all|
      invariant Distinct(out) && SetOf(out) == SetOf(all[..k])
    {
      SetOfNext(all, k);
      if all[k] !in out {
        out := out + [all[k]];
      }
    }
    assert all[..|all|] == all;
  }

  // ---------- the loop ----------

  /** The damage of a repository: what a fresh walk from the references could not read. */
  ghost predicate IsDamage(repo: Repo, readable: set<Obj>, seen: set<Obj>, objects: set<Obj>)
    requires repo.Valid()
  {
    FullWalk(repo, readable, seen) && objects == seen - readable
  }

  /** Go through the damaged objects once: an object is put back exactly when it was not put back before and a source
      has it; all others are stuck. A source that has it writes it, and it is readable then or is not. */
  method TryEach(todo: seq<Obj>, done0: set<Obj>, find: Obj -> bool, sticks: Obj -> bool)
    returns (done: set<Obj>, stuck: seq<Obj>, back: seq<Obj>, restored: set<Obj>)
    requires Distinct(todo)
    ensures Distinct(stuck) && Distinct(back)
    ensures SetOf(back) == Found(SetOf(todo), done0, find)
    ensures SetOf(stuck) == SetOf(todo) - Found(SetOf(todo), done0, find)
    ensures done == done0 + SetOf(back) && restored == Those(SetOf(back), sticks)
  {
    hide Distinct, SetOf, Found, Those;
    done, stuck, back, restored := done0, [], [], {};
    NothingTried(todo, done0, find, sticks);
    for k := 0 to |todo|
      invariant Tried(todo, k, done0, find, sticks, stuck, back, restored) && done == done0 + SetOf(back)
    {
      var bad := todo[k];
      TriedNext(todo, k, done0, find, sticks, stuck, back, restored);
      if bad in done {
        stuck := stuck + [bad];
      } else if !find(bad) {
        stuck := stuck + [bad];
      } else {
        if sticks(bad) {
          restored := restored + {bad};
        }
        done := done + {bad};
        back := back + [bad];
      }
    }
    assert todo[..|todo|] == todo;
  }

  /** What a source has of the damaged objects, but for those put back before. */
  ghost function Found(todo: set<Obj>, done0: set<Obj>, find: Obj -> bool): set<Obj>
  {
    set o | o in todo && o !in done0 && find(o)
  }

  ghost function Those(back: set<Obj>, sticks: Obj -> bool): set<Obj>
  {
    set o | o in back && sticks(o)
  }

  /** The first k objects were gone through. */
  ghost predicate Tried(todo: seq<Obj>, k: nat, done0: set<Obj>, find: Obj -> bool, sticks: Obj -> bool,
                        stuck: seq<Obj>, back: seq<Obj>, restored: set<Obj>)
    requires k <= |todo|
  {
    && Distinct(stuck) && Distinct(back)
    && SetOf(back) == Found(SetOf(todo[..k]), done0, find) && SetOf(stuck) == SetOf(todo[..k]) - SetOf(back)
    && restored == Those(SetOf(back), sticks)
  }

  lemma NothingTried(todo: seq<Obj>, done0: set<Obj>, find: Obj -> bool, sticks: Obj -> bool)
    ensures Tried(todo, 0, done0, find, sticks, [], [], {}) && SetOf([]) == {}
  {
  }

  /** One object more, whichever way it goes. */
  lemma TriedNext(todo: seq<Obj>, k: nat, done0: set<Obj>, find: Obj -> bool, sticks: Obj -> bool,
                  stuck: seq<Obj>, back: seq<Obj>, restored: set<Obj>)
    requires k < |todo| && Distinct(todo) && Tried(todo, k, done0, find, sticks, stuck, back, restored)
    ensures var o := todo[k];
            && SetOf(back + [o]) == SetOf(back) + {o} && (o in done0 + SetOf(back) <==> o in done0)
            && (o in done0 || !find(o) ==> Tried(todo, k + 1, done0, find, sticks, stuck + [o], back, restored))
            && (o !in done0 && find(o) ==>
                  Tried(todo, k + 1, done0, find, sticks, stuck, back + [o], restored + if sticks(o) then {o} else {}))
  {
    hide Distinct;
    var o, seen := todo[k], SetOf(todo[..k]);
    SetOfNext(todo, k);
    NotBefore(todo, k);
    Snoc(stuck, o);
    Snoc(back, o);
    assert Found(seen + {o}, done0, find) == Found(seen, done0, find) + if o !in done0 && find(o) then {o} else {};
    assert Those(SetOf(back) + {o}, sticks) == Those(SetOf(back), sticks) + if sticks(o) then {o} else {};
  }

  lemma NotBefore(todo: seq<Obj>, k: nat)
    requires k < |todo| && Distinct(todo)
    ensures todo[k] !in SetOf(todo[..k])
  {
  }

  lemma Snoc(list: seq<Obj>, o: Obj)
    ensures SetOf(list + [o]) == SetOf(list) + {o}
    ensures Distinct(list) && o !in SetOf(list) ==> Distinct(list + [o])
  {
  }

  lemma DistinctNothing()
    ensures Distinct([])
  {
  }

  // ---------- a run of passes ----------

  /** How something answers in one pass. */
  function InPass(f: (nat, Obj) -> bool, pass: nat): Obj -> bool
  {
    (o: Obj) => f(pass, o)
  }

  /** What the objects put back before pass n have made readable; `at` says in which pass each was put back. */
  ghost function ReadableBy(readable0: set<Obj>, at: map<Obj, nat>, sticks: (nat, Obj) -> bool, n: nat): set<Obj>
  {
    readable0 + set o | o in at && at[o] < n && sticks(at[o], o)
  }

  /** Some fresh walk finds exactly this damage. */
  ghost predicate DamageNow(repo: Repo, readable: set<Obj>, objects: set<Obj>)
    requires repo.Valid()
  {
    exists seen :: IsDamage(repo, readable, seen, objects)
  }

  /** Pass k went through the damage there was, and put back exactly what a source had and no earlier pass put back. */
  ghost predicate PassDone(repo: Repo, readable0: set<Obj>, find: (nat, Obj) -> bool, sticks: (nat, Obj) -> bool,
                           damages: seq<set<Obj>>, at: map<Obj, nat>, k: nat)
    requires repo.Valid() && k < |damages|
  {
    && DamageNow(repo, ReadableBy(readable0, at, sticks, k), damages[k])
    && forall o :: (o in at && at[o] == k) <==> (o in damages[k] && !(o in at && at[o] < k) && find(k, o))
  }

  ghost predicate Passes(repo: Repo, readable0: set<Obj>, find: (nat, Obj) -> bool, sticks: (nat, Obj) -> bool,
                         damages: seq<set<Obj>>, at: map<Obj, nat>)
    requires repo.Valid()
  {
    && (forall k | 0 <= k < |damages| :: PassDone(repo, readable0, find, sticks, damages, at, k))
    && forall o | o in at :: at[o] < |damages|
  }

  /** Pass k put something back. */
  ghost predicate Productive(at: map<Obj, nat>, k: nat)
  {
    exists o :: o in at && at[o] == k
  }

  ghost function PutAt(at: map<Obj, nat>, back: set<Obj>, n: nat): map<Obj, nat>
  {
    map o | o in at.Keys + back :: if o in at then at[o] else n
  }

  /** One pass more. */
  lemma PassesNext(repo: Repo, readable0: set<Obj>, find: (nat, Obj) -> bool, sticks: (nat, Obj) -> bool,
                   damages: seq<set<Obj>>, at: map<Obj, nat>, todo: set<Obj>, back: set<Obj>, restored: set<Obj>)
    requires repo.Valid() && Passes(repo, readable0, find, sticks, damages, at)
    requires DamageNow(repo, ReadableBy(readable0, at, sticks, |damages|), todo)
    requires back == Found(todo, at.Keys, InPass(find, |damages|))
    requires restored == Those(back, InPass(sticks, |damages|))
    ensures var n, at' := |damages|, PutAt(at, back, |damages|);
            && Passes(repo, readable0, find, sticks, damages + [todo], at') && at'.Keys == at.Keys + back
            && ReadableBy(readable0, at', sticks, n + 1) == ReadableBy(readable0, at, sticks, n) + restored
            && (forall k | 0 <= k < n :: Productive(at, k) ==> Productive(at', k))
            && (back != {} <==> Productive(at', n))
  {
    hide IsDamage, DamageNow, Repo.Valid;
    var n, at' := |damages|, PutAt(at, back, |damages|);
    forall k | 0 <= k < n + 1
      ensures PassDone(repo, readable0, find, sticks, damages + [todo], at', k)
    {
      assert ReadableBy(readable0, at', sticks, k) == ReadableBy(readable0, at, sticks, k);
      if k < n {
        assert PassDone(repo, readable0, find, sticks, damages, at, k);
      }
    }
    forall k | 0 <= k < n && Productive(at, k)
      ensures Productive(at', k)
    {
      var o :| o in at && at[o] == k;
      assert at'[o] == k;
    }
    if o :| o in back {
      assert at'[o] == n;
    }
  }

  /** The recovery loop. Every pass goes through the damage that a fresh walk would find at that time, and puts back
      exactly what some source has and no earlier pass put back; every pass but the last puts something back. What is
      left unrecovered at the end is exactly what a fresh walk of the repository as it then stands could not read. The
      last pass went through all of it and put nothing back: what was never put back was refused. */
  method RecoverObjects(repo: Repo, readable0: set<Obj>, proven: set<Obj>, refs: seq<Obj>,
                        find: (nat, Obj) -> bool, sticks: (nat, Obj) -> bool)
    returns (unrecovered: seq<Obj>, recovered: seq<Obj>, readable: set<Obj>, ghost reached: set<Obj>,
             ghost damages: seq<set<Obj>>, ghost at: map<Obj, nat>)
    requires repo.Valid() && SetOf(refs) == repo.refs && ProvenBlobs(repo, readable0, proven)
    ensures IsDamage(repo, readable, reached, SetOf(unrecovered)) && Distinct(recovered)
    ensures at.Keys == SetOf(recovered) && readable == ReadableBy(readable0, at, sticks, |damages|)
    ensures Passes(repo, readable0, find, sticks, damages, at)
    ensures forall k | 0 <= k < |damages| - 1 :: Productive(at, k)
    ensures unrecovered != [] ==> damages != [] && SetOf(unrecovered) == damages[|damages| - 1]
    ensures unrecovered != [] ==> !Productive(at, |damages| - 1)
    ensures forall o | o in unrecovered && o !in recovered :: !find(|damages| - 1, o)
  {
    hide IsDamage, SetOf, Distinct, Remaining, FullWalk, Walked, ProvenBlobs, Found, Those, Passes, ReadableBy, PutAt;
    hide Productive, DamageNow;
    readable, recovered := readable0, [];
    unrecovered := [];
    damages, at := [], map[];
    SetOfNothing();
    DistinctNothing();
    NoPasses(repo, readable0, find, sticks);
    var objects, seen := Scan(repo, readable, proven, refs);
    var stuck: seq<Obj> := [];
    var todo := StillBad(objects, stuck);
    var done: set<Obj> := {};
    FirstDamage(repo, readable, seen, SetOf(objects), SetOf(todo));
    var pass: nat := 0;
    while todo != []
      invariant IsDamage(repo, readable, seen, SetOf(todo)) && Distinct(todo) && (todo == [] ==> unrecovered == [])
      invariant done == SetOf(recovered) == at.Keys && Distinct(recovered) && done <= repo.universe
      invariant readable == ReadableBy(readable0, at, sticks, pass) && pass == |damages|
      invariant Passes(repo, readable0, find, sticks, damages, at)
      invariant forall k | 0 <= k < pass :: Productive(at, k)
      invariant ProvenBlobs(repo, readable, proven)
      decreases Remaining(repo.universe, done)
    {
      var back, restored;
      ghost var before, was := readable, done;
      DamageInUniverse(repo, readable, seen, SetOf(todo));
      DamageSeen(repo, readable, seen, SetOf(todo));
      done, stuck, back, restored := TryEach(todo, done, InPass(find, pass), InPass(sticks, pass));
      FoundIs(SetOf(todo), was, InPass(find, pass), InPass(sticks, pass));
      PassesNext(repo, readable0, find, sticks, damages, at, SetOf(todo), SetOf(back), restored);
      EmptySet(back);
      damages, at := damages + [SetOf(todo)], PutAt(at, SetOf(back), pass);
      unrecovered := stuck;
      Appended(recovered, back);
      recovered := recovered + back;
      ProvenStays(repo, readable, proven, restored);
      readable := readable + restored;
      pass := pass + 1;
      if back == [] {
        NothingBack(SetOf(todo), was, InPass(find, pass - 1), InPass(sticks, pass - 1));
        assert readable == before && SetOf(unrecovered) == SetOf(todo);
        InSet(unrecovered);
        InSet(recovered);
        break;
      }
      Shrinks(repo.universe, was, done, back);
      var found, seen' := Descend(repo, readable, proven, back, seen);
      ghost var todo0 := SetOf(todo);
      todo := StillBad(found, stuck);
      PassStep(repo, before, readable, seen, todo0, SetOf(stuck), SetOf(back), seen', SetOf(todo));
      StuckStays(stuck, found, todo);
      seen := seen';
    }
    reached := seen;
    EmptySet(todo);
  }

  lemma NoPasses(repo: Repo, readable0: set<Obj>, find: (nat, Obj) -> bool, sticks: (nat, Obj) -> bool)
    requires repo.Valid()
    ensures Passes(repo, readable0, find, sticks, [], map[]) && ReadableBy(readable0, map[], sticks, 0) == readable0
  {
    var none: map<Obj, nat> := map[];
    assert (set o | o in none && none[o] < 0 && sticks(none[o], o)) == {};
  }

  lemma DamageSeen(repo: Repo, readable: set<Obj>, seen: set<Obj>, todo: set<Obj>)
    requires repo.Valid() && IsDamage(repo, readable, seen, todo)
    ensures DamageNow(repo, readable, todo)
  {
  }

  lemma FoundIs(todo: set<Obj>, done0: set<Obj>, find: Obj -> bool, sticks: Obj -> bool)
    ensures Found(todo, done0, find) <= todo && Found(todo, done0, find) !! done0
    ensures Those(Found(todo, done0, find), sticks) <= Found(todo, done0, find)
  {
  }

  /** Nothing was put back: the damage is as it was, and all of it was put back before or refused. */
  lemma NothingBack(todo: set<Obj>, done0: set<Obj>, find: Obj -> bool, sticks: Obj -> bool)
    ensures Found(todo, done0, find) == {} ==> Those(Found(todo, done0, find), sticks) == {}
    ensures Found(todo, done0, find) == {} ==> forall o | o in todo && o !in done0 :: !find(o)
  {
    forall o | o in todo && o !in done0 && find(o)
      ensures o in Found(todo, done0, find)
    {
    }
  }

  lemma InSet(list: seq<Obj>)
    ensures forall o :: o in list <==> o in SetOf(list)
  {
  }

  lemma StuckStays(stuck: seq<Obj>, found: seq<Obj>, todo: seq<Obj>)
    requires SetOf(todo) == SetOf(found) + SetOf(stuck)
    ensures todo == [] ==> stuck == []
  {
    if stuck != [] {
      assert stuck[0] in SetOf(stuck);
    }
  }

  ghost function Remaining(universe: set<Obj>, done: set<Obj>): nat { |universe - done| }

  lemma ProvenStays(repo: Repo, readable: set<Obj>, proven: set<Obj>, more: set<Obj>)
    requires ProvenBlobs(repo, readable, proven)
    ensures ProvenBlobs(repo, readable + more, proven)
  {
  }

  lemma EmptySet(todo: seq<Obj>)
    ensures todo == [] <==> SetOf(todo) == {}
  {
    assert todo != [] ==> todo[0] in SetOf(todo);
  }

  lemma FirstDamage(repo: Repo, readable: set<Obj>, seen: set<Obj>, objects: set<Obj>, todo: set<Obj>)
    requires repo.Valid() && FullWalk(repo, readable, seen) && objects == seen - readable && todo == objects + {}
    ensures IsDamage(repo, readable, seen, todo)
  {
  }

  lemma DamageInUniverse(repo: Repo, readable: set<Obj>, seen: set<Obj>, todo: set<Obj>)
    requires repo.Valid() && IsDamage(repo, readable, seen, todo)
    ensures todo <= repo.universe && todo <= seen && todo !! readable
  {
    assert Closed(repo, readable, {}, repo.universe) && repo.refs - {} <= repo.universe;
  }

  lemma Appended(recovered: seq<Obj>, back: seq<Obj>)
    requires Distinct(recovered) && Distinct(back) && SetOf(recovered) !! SetOf(back)
    ensures Distinct(recovered + back) && SetOf(recovered + back) == SetOf(recovered) + SetOf(back)
  {
    assert forall i | 0 <= i < |recovered| :: recovered[i] in SetOf(recovered);
    assert forall i | 0 <= i < |back| :: back[i] in SetOf(back);
  }

  lemma Shrinks(universe: set<Obj>, was: set<Obj>, done: set<Obj>, back: seq<Obj>)
    requires back != [] && done == was + SetOf(back) && was !! SetOf(back) && SetOf(back) <= universe
    ensures Remaining(universe, done) < Remaining(universe, was)
  {
    assert back[0] in SetOf(back);
    assert universe - was == (universe - done) + SetOf(back);
  }

  /** After a pass, what it found and what it carried are again the damage of the repository. */
  lemma PassStep(repo: Repo, before: set<Obj>, after: set<Obj>, seen: set<Obj>, todo: set<Obj>, stuck: set<Obj>,
                 back: set<Obj>, seen': set<Obj>, todo': set<Obj>)
    requires repo.Valid() && IsDamage(repo, before, seen, todo)
    requires stuck + back == todo && stuck !! back && before <= after <= before + back
    requires seen <= seen' && Walked(repo, after, seen - back, back, seen' - (seen - back))
    requires todo' == (seen' - (seen - back) - after) + stuck
    ensures IsDamage(repo, after, seen', todo')
  {
    var visited := seen' - (seen - back);
    PassIsExact(repo, before, after, seen, back, visited);
    assert seen - back + visited == seen';
    assert stuck == seen - before - back;
  }
}
