/** One worker's dealings with the shared byte budget of the delta walk (internal/odb/deltawalk.go). */
module ChainBudget {

  /** What a worker did to the shared counter: a reservation, a refusal, or a reservation handed back. */
  datatype Op = Took(n: nat) | Refused(n: nat) | Gave(n: nat)

  function Effect(op: Op): int
  {
    match op
    case Took(n) => n as int
    case Refused(_) => 0
    case Gave(n) => 0 - n
  }

  /** How much the worker behind this trace holds. */
  function Net(ops: seq<Op>): int
  {
    if ops == [] then 0 else Net(ops[..|ops| - 1]) + Effect(ops[|ops| - 1])
  }

  /** At no point did the worker hand back more than it held. */
  ghost predicate Covered(ops: seq<Op>)
  {
    forall k | 0 <= k <= |ops| :: Net(ops[..k]) >= 0
  }

  lemma CoveredSnoc(ops: seq<Op>, op: Op)
    requires Covered(ops) && Net(ops) + Effect(op) >= 0
    ensures Net(ops + [op]) == Net(ops) + Effect(op) && Covered(ops + [op])
  {
    var all := ops + [op];
    assert all[..|ops|] == ops;
    forall k | 0 <= k <= |all|
      ensures Net(all[..k]) >= 0
    {
      if k <= |ops| {
        assert all[..k] == ops[..k];
      } else {
        assert all[..k] == all;
      }
    }
  }

  lemma CoveredIsNonNegative(ops: seq<Op>)
    requires Covered(ops)
    ensures Net(ops) >= 0
  {
    assert ops[..|ops|] == ops;
  }
}
