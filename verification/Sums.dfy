/** Sums over a sequence of workers, for counting arguments about a protocol. */
module Sums {

  function Sum<T>(f: T -> nat, s: seq<T>): nat
  {
    if s == [] then 0 else Sum(f, s[..|s| - 1]) + f(s[|s| - 1])
  }

  lemma {:induction false} SumUpdate<T>(f: T -> nat, s: seq<T>, i: nat, x: T)
    requires i < |s|
    ensures Sum(f, s[i := x]) + f(s[i]) == Sum(f, s) + f(x)
    decreases |s|
  {
    var n := |s| - 1;
    if i < n {
      SumUpdate(f, s[..n], i, x);
      assert s[i := x][..n] == s[..n][i := x];
    } else {
      assert s[i := x][..n] == s[..n];
    }
  }

  lemma {:induction false} SumMember<T>(f: T -> nat, s: seq<T>, i: nat)
    requires i < |s|
    ensures Sum(f, s) >= f(s[i])
    decreases |s|
  {
    if i < |s| - 1 {
      SumMember(f, s[..|s| - 1], i);
    }
  }

  lemma {:induction false} SumPositive<T>(f: T -> nat, s: seq<T>) returns (i: nat)
    requires Sum(f, s) > 0
    ensures i < |s| && f(s[i]) > 0
    decreases |s|
  {
    var n := |s| - 1;
    if f(s[n]) > 0 {
      i := n;
    } else {
      i := SumPositive(f, s[..n]);
    }
  }

  lemma {:induction false} SumZero<T>(f: T -> nat, s: seq<T>)
    requires forall i | 0 <= i < |s| :: f(s[i]) == 0
    ensures Sum(f, s) == 0
    decreases |s|
  {
    if s != [] {
      SumZero(f, s[..|s| - 1]);
    }
  }

  /** Everything the members have, together. */
  function Gather<T, U(==)>(f: T -> multiset<U>, s: seq<T>): multiset<U>
  {
    if s == [] then multiset{} else Gather(f, s[..|s| - 1]) + f(s[|s| - 1])
  }

  lemma {:induction false} GatherUpdate<T, U>(f: T -> multiset<U>, s: seq<T>, i: nat, x: T)
    requires i < |s|
    ensures Gather(f, s[i := x]) + f(s[i]) == Gather(f, s) + f(x)
    decreases |s|
  {
    var n := |s| - 1;
    if i < n {
      GatherUpdate(f, s[..n], i, x);
      assert s[i := x][..n] == s[..n][i := x];
      AddBoth(Gather(f, s[..n][i := x]), f(s[i]), Gather(f, s[..n]), f(x), f(s[n]));
    } else {
      assert s[i := x][..n] == s[..n];
    }
  }

  lemma AddBoth<U>(a: multiset<U>, b: multiset<U>, c: multiset<U>, d: multiset<U>, x: multiset<U>)
    requires a + b == c + d
    ensures (a + x) + b == (c + x) + d
  {
    assert (a + x) + b == (a + b) + x;
  }

  lemma {:induction false} GatherMember<T, U>(f: T -> multiset<U>, s: seq<T>, i: nat)
    requires i < |s|
    ensures f(s[i]) <= Gather(f, s)
    decreases |s|
  {
    if i < |s| - 1 {
      GatherMember(f, s[..|s| - 1], i);
    }
  }

  lemma {:induction false} GatherTwo<T, U>(f: T -> multiset<U>, s: seq<T>, i: nat, j: nat)
    requires i < j < |s|
    ensures f(s[i]) + f(s[j]) <= Gather(f, s)
    decreases |s|
  {
    var n := |s| - 1;
    if j < n {
      GatherTwo(f, s[..n], i, j);
    } else {
      GatherMember(f, s[..n], i);
    }
  }

  /** What the members have together, one of them has. */
  lemma {:induction false} GatherSource<T, U>(f: T -> multiset<U>, s: seq<T>, u: U) returns (i: nat)
    requires u in Gather(f, s)
    ensures i < |s| && u in f(s[i])
    decreases |s|
  {
    var n := |s| - 1;
    if u in f(s[n]) {
      i := n;
    } else {
      i := GatherSource(f, s[..n], u);
    }
  }

  lemma {:induction false} GatherNothing<T, U>(f: T -> multiset<U>, s: seq<T>)
    requires forall i | 0 <= i < |s| :: f(s[i]) == multiset{}
    ensures Gather(f, s) == multiset{}
    decreases |s|
  {
    if s != [] {
      GatherNothing(f, s[..|s| - 1]);
    }
  }

  /** One member moves on: what it had, what was waiting and what was done is shared out again with what is new. */
  lemma ShareOut<U>(all: multiset<U>, more: multiset<U>, waiting: multiset<U>, held: multiset<U>, done: multiset<U>,
                    had: multiset<U>, waiting': multiset<U>, held': multiset<U>, done': multiset<U>, has: multiset<U>)
    requires all == waiting + held + done && held' + had == held + has
    requires waiting' + done' + has == waiting + done + had + more
    ensures all + more == waiting' + held' + done'
  {
    forall x
      ensures (all + more)[x] == (waiting' + held' + done')[x]
    {
      assert (held' + had)[x] == (held + has)[x];
      assert (waiting' + done' + has)[x] == (waiting + done + had + more)[x];
    }
  }
}
