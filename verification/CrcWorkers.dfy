/** The workers of checkCRCs (internal/odb/verify.go): batches drawn from one counter, scanned side by side. */
module CrcWorkers {
  import opened Sums
  import opened DeltaSpec
  import opened PackMeaning
  import opened PackVerify
  import PackWorkers

  const Batch: nat := 512

  datatype Worker = Resting | Scanning(at: nat, last: nat) | Home

  /** `done` is every entry that was scanned, `found` every one whose checksum is wrong. */
  datatype State = State(next: nat, done: multiset<nat>, found: multiset<nat>, workers: seq<Worker>)

  function Min(a: nat, b: nat): nat { if a < b then a else b }

  /** One atomic step of worker i: draw a batch, or scan one entry. */
  function Act(w: World, k: Checksums, s: State, i: nat): State
    requires i < |s.workers| && WorkerOk(|w.l.ents|, s.next, s.workers[i])
  {
    match s.workers[i]
    case Home => s
    case Resting =>
      var start, n := s.next, |w.l.ents|;
      s.(next := start + Batch,
         workers := s.workers[i := if start >= n then Home else Scanning(start, Min(start + Batch, n))])
    case Scanning(at, last) =>
      if at >= last then s.(workers := s.workers[i := Resting])
      else State(s.next, s.done + multiset{at}, s.found + (if Mismatch(w, k, at) then multiset{at} else multiset{}),
                 s.workers[i := Scanning(at + 1, last)])
  }

  predicate WorkerOk(n: nat, next: nat, x: Worker)
  {
    match x
    case Resting => true
    case Scanning(at, last) => at <= last <= n
    case Home => next >= n
  }

  ghost function Range(a: nat, b: nat): multiset<nat>
    decreases b
  {
    if a >= b then multiset{} else Range(a, b - 1) + multiset{b - 1}
  }

  ghost function HeldBy(x: Worker): multiset<nat>
  {
    if x.Scanning? then Range(x.at, x.last) else multiset{}
  }

  ghost predicate AllOk(n: nat, s: State)
  {
    forall i | 0 <= i < |s.workers| :: WorkerOk(n, s.next, s.workers[i])
  }

  /** Every entry of the batches drawn so far was scanned once, or is in one worker's hands. */
  ghost predicate Shared(n: nat, s: State)
  {
    s.done + Gather(HeldBy, s.workers) == Range(0, Min(s.next, n))
  }

  /** Of the entries scanned, exactly the wrong ones were found. */
  ghost predicate Found(w: World, k: Checksums, s: State)
  {
    forall i: nat :: s.found[i] == if i < |w.l.ents| && Mismatch(w, k, i) then s.done[i] else 0
  }

  ghost predicate Inv(w: World, k: Checksums, s: State)
  {
    AllOk(|w.l.ents|, s) && Shared(|w.l.ents|, s) && Found(w, k, s)
  }

  ghost predicate Init(s: State)
  {
    && s.next == 0 && s.done == multiset{} && s.found == multiset{}
    && forall i | 0 <= i < |s.workers| :: s.workers[i] == Resting
  }

  lemma InitInv(w: World, k: Checksums, s: State)
    requires Init(s)
    ensures Inv(w, k, s)
  {
    hide Mismatch;
    GatherNothing(HeldBy, s.workers);
  }

  lemma {:induction false} RangeSplits(a: nat, b: nat, c: nat)
    requires a <= b <= c
    ensures Range(a, c) == Range(a, b) + Range(b, c)
    decreases c
  {
    hide Range;
    RangeStep(a, c);
    RangeStep(b, c);
    if b < c {
      RangeSplits(a, b, c - 1);
      PackWorkers.Associate(Range(a, b), Range(b, c - 1), multiset{c - 1});
    }
  }

  lemma RangeStep(a: nat, b: nat)
    ensures a < b ==> Range(a, b) == Range(a, b - 1) + multiset{b - 1}
    ensures a >= b ==> Range(a, b) == multiset{}
  {
  }

  lemma {:induction false} RangeHas(a: nat, b: nat, i: nat)
    ensures Range(a, b)[i] == if a <= i < b then 1 else 0
    decreases b
  {
    hide Range;
    RangeStep(a, b);
    if a < b {
      RangeHas(a, b - 1, i);
    }
  }

  lemma OneEntry(a: nat)
    ensures Range(a, a + 1) == multiset{a} && Range(a, a) == multiset{}
  {
    assert Range(a, a) == multiset{};
  }

  lemma AllOkWith(n: nat, s: State, s': State, i: nat)
    requires AllOk(n, s) && i < |s.workers| == |s'.workers| && s.next <= s'.next
    requires s'.workers == s.workers[i := s'.workers[i]] && WorkerOk(n, s'.next, s'.workers[i])
    ensures AllOk(n, s')
  {
    forall j | 0 <= j < |s'.workers|
      ensures WorkerOk(n, s'.next, s'.workers[j])
    {
      assert WorkerOk(n, s.next, s.workers[j]);
    }
  }

  /** Worker i becomes x: what was scanned and what it has still to scan is what it had, and what was drawn. */
  lemma SharedWith(n: nat, s: State, s': State, i: nat, x: Worker, more: multiset<nat>)
    requires Shared(n, s) && i < |s.workers| && s'.workers == s.workers[i := x]
    requires s'.done + HeldBy(x) == s.done + HeldBy(s.workers[i]) + more
    requires Range(0, Min(s'.next, n)) == Range(0, Min(s.next, n)) + more
    ensures Shared(n, s')
  {
    hide HeldBy, Range, Gather;
    GatherUpdate(HeldBy, s.workers, i, x);
    PackWorkers.Shift(s.done, Gather(HeldBy, s.workers), Range(0, Min(s.next, n)), more, s'.done,
                      Gather(HeldBy, s'.workers), HeldBy(s.workers[i]), HeldBy(x));
  }

  lemma {:induction false} ActInv(w: World, k: Checksums, s: State, i: nat)
    requires Inv(w, k, s) && i < |s.workers|
    ensures WorkerOk(|w.l.ents|, s.next, s.workers[i]) && Inv(w, k, Act(w, k, s, i))
  {
    hide Range, Mismatch, Gather, Shared, Found, AllOk, Act;
    OkAt(|w.l.ents|, s, i);
    match s.workers[i]
    case Home => StayInv(w, k, s, i);
    case Resting => BatchInv(w, k, s, i);
    case Scanning(at, last) =>
      if at < last {
        EntryInv(w, k, s, i);
      } else {
        StayInv(w, k, s, i);
      }
  }

  lemma OkAt(n: nat, s: State, i: nat)
    requires AllOk(n, s) && i < |s.workers|
    ensures WorkerOk(n, s.next, s.workers[i])
  {
  }

  /** A worker that is home, or whose batch is done. */
  lemma {:induction false} StayInv(w: World, k: Checksums, s: State, i: nat)
    requires Inv(w, k, s) && i < |s.workers| && WorkerOk(|w.l.ents|, s.next, s.workers[i])
    requires s.workers[i] == Home || (s.workers[i].Scanning? && s.workers[i].at >= s.workers[i].last)
    ensures Inv(w, k, Act(w, k, s, i))
  {
    hide Range, Mismatch, Gather, Shared, AllOk;
    var n, s' := |w.l.ents|, Act(w, k, s, i);
    if s.workers[i] != Home {
      AllOkWith(n, s, s', i);
      OneEntry(s.workers[i].at);
      SharedWith(n, s, s', i, Resting, multiset{});
    }
  }

  lemma {:induction false} BatchInv(w: World, k: Checksums, s: State, i: nat)
    requires Inv(w, k, s) && i < |s.workers| && s.workers[i] == Resting
    ensures Inv(w, k, Act(w, k, s, i))
  {
    hide Range, Mismatch, Gather, Shared, AllOk;
    var n, s' := |w.l.ents|, Act(w, k, s, i);
    AllOkWith(n, s, s', i);
    if s.next < n {
      RangeSplits(0, s.next, Min(s'.next, n));
      SharedWith(n, s, s', i, s'.workers[i], Range(s.next, Min(s'.next, n)));
    } else {
      SharedWith(n, s, s', i, Home, multiset{});
    }
  }

  lemma {:induction false} EntryInv(w: World, k: Checksums, s: State, i: nat)
    requires Inv(w, k, s) && i < |s.workers| && s.workers[i].Scanning? && WorkerOk(|w.l.ents|, s.next, s.workers[i])
    requires s.workers[i].at < s.workers[i].last
    ensures Inv(w, k, Act(w, k, s, i))
  {
    hide Range, Mismatch, Gather, Shared, AllOk;
    var n, s' := |w.l.ents|, Act(w, k, s, i);
    var at, last := s.workers[i].at, s.workers[i].last;
    AllOkWith(n, s, s', i);
    RangeSplits(at, at + 1, last);
    OneEntry(at);
    SharedWith(n, s, s', i, Scanning(at + 1, last), multiset{});
  }

  ghost function Left(x: Worker): nat
  {
    if x.Scanning? && x.at <= x.last then x.last - x.at + 1 else 0
  }

  ghost function Active(x: Worker): nat { if x == Home then 0 else 1 }

  /** Every step draws a batch, sends one worker home, or leaves it less to scan. */
  lemma {:induction false} ActProgress(w: World, k: Checksums, s: State, i: nat)
    requires i < |s.workers| && WorkerOk(|w.l.ents|, s.next, s.workers[i]) && s.workers[i] != Home
    ensures var n, s' := |w.l.ents|, Act(w, k, s, i);
            || Min(s'.next, n) > Min(s.next, n)
            || (s'.next >= s.next && Sum(Active, s'.workers) < Sum(Active, s.workers))
            || (s'.next >= s.next && Sum(Active, s'.workers) == Sum(Active, s.workers)
                && Sum(Left, s'.workers) < Sum(Left, s.workers))
  {
    hide Mismatch, Sum;
    SumUpdate(Active, s.workers, i, Act(w, k, s, i).workers[i]);
    SumUpdate(Left, s.workers, i, Act(w, k, s, i).workers[i]);
  }

  ghost predicate Step(w: World, k: Checksums, s: State, s': State)
    requires AllOk(|w.l.ents|, s)
  {
    exists i: nat :: Acts(w, k, s, s', i)
  }

  ghost predicate Acts(w: World, k: Checksums, s: State, s': State, i: nat)
    requires AllOk(|w.l.ents|, s)
  {
    i < |s.workers| && s.workers[i] != Home && s' == Act(w, k, s, i)
  }

  /** No schedule runs for ever. */
  lemma {:induction false} RunsEnd(w: World, k: Checksums, run: nat -> State, m: nat) returns (e: nat)
    requires Inv(w, k, run(m))
    ensures e >= m && Inv(w, k, run(e)) && !Step(w, k, run(e), run(e + 1))
    decreases |w.l.ents| - Min(run(m).next, |w.l.ents|), Sum(Active, run(m).workers), Sum(Left, run(m).workers)
  {
    hide Act, Sum, Shared, Found;
    if Step(w, k, run(m), run(m + 1)) {
      var i: nat :| Acts(w, k, run(m), run(m + 1), i);
      ActInv(w, k, run(m), i);
      ActProgress(w, k, run(m), i);
      e := RunsEnd(w, k, run, m + 1);
    } else {
      e := m;
    }
  }

  ghost predicate Run(w: World, k: Checksums, states: seq<State>)
    ensures Run(w, k, states) ==> states != []
  {
    && states != [] && Init(states[0])
    && forall m | 0 < m < |states| :: RunStep(w, k, states, m)
  }

  ghost predicate RunStep(w: World, k: Checksums, states: seq<State>, m: nat)
    requires 0 < m < |states|
  {
    AllOk(|w.l.ents|, states[m - 1]) && Step(w, k, states[m - 1], states[m])
  }

  lemma {:induction false} RunsKeepInv(w: World, k: Checksums, states: seq<State>)
    requires Run(w, k, states)
    ensures Inv(w, k, states[|states| - 1])
    decreases |states|
  {
    hide Act, Init, Inv, AllOk;
    var m := |states| - 1;
    if m == 0 {
      InitInv(w, k, states[0]);
    } else {
      assert forall j | 0 < j < m :: RunStep(w, k, states, j) ==> RunStep(w, k, states[..m], j);
      RunsKeepInv(w, k, states[..m]);
      assert RunStep(w, k, states, m);
      var i: nat :| Acts(w, k, states[m - 1], states[m], i);
      ActInv(w, k, states[m - 1], i);
    }
  }

  ghost predicate AllHome(s: State)
  {
    s.workers != [] && forall i | 0 <= i < |s.workers| :: s.workers[i] == Home
  }

  /** When all the workers are home, each entry was scanned once and each wrong one was found once, however the batches
      were shared out. */
  lemma {:induction false} ScanIsExact(w: World, k: Checksums, states: seq<State>, i: nat)
    requires Run(w, k, states) && AllHome(states[|states| - 1])
    ensures var s := states[|states| - 1];
            && s.done[i] == (if i < |w.l.ents| then 1 else 0)
            && s.found[i] == (if i < |w.l.ents| && Mismatch(w, k, i) then 1 else 0)
  {
    hide Mismatch, Range, Run;
    RunsKeepInv(w, k, states);
    var s := states[|states| - 1];
    assert WorkerOk(|w.l.ents|, s.next, s.workers[0]);
    GatherNothing(HeldBy, s.workers);
    RangeHas(0, |w.l.ents|, i);
  }

  /** Nothing is found exactly when nothing is wrong. */
  lemma {:induction false} NothingFound(w: World, k: Checksums, states: seq<State>)
    requires Run(w, k, states) && AllHome(states[|states| - 1])
    ensures states[|states| - 1].found == multiset{} <==> forall i | 0 <= i < |w.l.ents| :: !Mismatch(w, k, i)
  {
    hide Mismatch, Run, AllHome;
    var found := states[|states| - 1].found;
    forall i: nat
      ensures i in found <==> i < |w.l.ents| && Mismatch(w, k, i)
    {
      ScanIsExact(w, k, states, i);
    }
    assert found == multiset{} <==> forall i: nat :: i !in found;
  }

  /** verifyObjects with any number of workers and any schedules of both passes: nothing is complained of exactly when,
      place by place of the index, the bytes hold an object that hashes to the name that stands there, if their bases
      come to an end, and, where the index has checksums, the one that stands there is theirs. */
  lemma {:induction false} CheckIsExact(w: World, k: Checksums, base: seq<Event>, initial: nat, scan: seq<State>,
                                        walk: seq<PackWorkers.State>)
    requires w.Valid() && multiset(base) == BadSum(w, |w.l.bad|)
    requires k.version > 1 ==> Run(w, k, scan) && AllHome(scan[|scan| - 1])
    requires PackWorkers.Run(w, base, initial, walk) && walk[|walk| - 1].workers != []
    requires PackWorkers.AllReturned(walk[|walk| - 1])
    ensures w.p.Valid()
    ensures Fine(walk[|walk| - 1].log) && (k.version > 1 ==> scan[|scan| - 1].found == multiset{})
            <==>
            && (forall n | 0 <= n < |w.p.oids| && Hangs(w.p, w.p.offsets[n]) :: Told(w, n).Object?)
            && (k.version > 1 ==>
                  forall n | 0 <= n < |w.p.oids| :: !SumWrong(w.p, w.l.ents, k.crcs, k.crc, n, EntryOf(w, n)))
  {
    hide Told, Hangs, SumWrong, EntryOf;
    PackIsValid(w);
    SoundIsTold(w);
    SumsByPlace(w, k);
    hide World.Valid, BadSum, Mismatch, Fine, AllSound, PackWorkers.Run, PackWorkers.AllReturned, Run, AllHome;
    PackWorkers.WorkersAreExact(w, base, initial, walk);
    if k.version > 1 {
      NothingFound(w, k, scan);
    }
  }
}
