/** Open addressing with linear probing, as the shards of internal/fsckcmd/objtable.go use it. */
module Probing {

  /** A place in a shard: the hash of a name and one more than its index, or an index of zero for an empty place. */
  datatype Slot = Slot(key: nat, idx: nat)

  const Empty := Slot(0, 0)

  predicate Used(s: Slot) { s.idx != 0 }

  /** What the slots hold, without its places. */
  ghost function Items(slots: seq<Slot>): multiset<Slot>
  {
    if slots == [] then multiset{}
    else Items(slots[..|slots| - 1]) + Item(slots[|slots| - 1])
  }

  ghost function Item(s: Slot): multiset<Slot>
  {
    if Used(s) then multiset{s} else multiset{}
  }

  /** How far ahead of place a the place b is, going around. */
  function Ahead(a: nat, b: nat, n: nat): (d: nat)
    requires a < n && b < n
    ensures d < n && (a + d) % n == b
  {
    if b >= a then b - a
    else
      WrapOnce(b, n);
      b - a + n
  }

  lemma WrapOnce(b: nat, n: nat)
    requires b < n
    ensures (b + n) % n == b
  {
  }

  lemma AheadIs(a: nat, d: nat, n: nat)
    requires a < n && d < n
    ensures (a + d) % n == (if a + d < n then a + d else a + d - n) && Ahead(a, (a + d) % n, n) == d
  {
    if a + d >= n {
      WrapOnce(a + d - n, n);
    }
  }

  /** The place d probes after the one that the key names. */
  function Place(key: nat, d: nat, n: nat): (i: nat)
    requires n > 0
    ensures i < n
  {
    (key % n + d) % n
  }

  lemma FirstPlace(key: nat, n: nat)
    requires n > 0
    ensures Place(key, 0, n) == key % n
  {
  }

  lemma NextPlace(key: nat, d: nat, n: nat)
    requires d + 1 < n
    ensures Place(key, d + 1, n) == if Place(key, d, n) + 1 == n then 0 else Place(key, d, n) + 1
  {
    AheadIs(key % n, d, n);
    AheadIs(key % n, d + 1, n);
  }

  /** A used slot is reached from where its key starts, without an empty place on the way. */
  ghost predicate Reached(slots: seq<Slot>, j: nat)
    requires j < |slots|
  {
    var n := |slots|;
    forall d | 0 <= d < Ahead(slots[j].key % n, j, n) :: Used(slots[Place(slots[j].key, d, n)])
  }

  ghost predicate Chained(slots: seq<Slot>)
  {
    forall j | 0 <= j < |slots| && Used(slots[j]) :: Reached(slots, j)
  }

  // ---------- what the slots hold ----------

  lemma {:induction false} ItemsMember(slots: seq<Slot>, x: Slot)
    ensures x in Items(slots) <==> Used(x) && x in slots
    decreases |slots|
  {
    if slots != [] {
      var n := |slots| - 1;
      ItemsMember(slots[..n], x);
      assert slots == slots[..n] + [slots[n]];
    }
  }

  lemma {:induction false} ItemsPut(slots: seq<Slot>, i: nat, x: Slot)
    requires i < |slots| && !Used(slots[i])
    ensures Items(slots[i := x]) == Items(slots) + Item(x)
    decreases |slots|
  {
    var n := |slots| - 1;
    if i < n {
      ItemsPut(slots[..n], i, x);
      assert slots[i := x][..n] == slots[..n][i := x];
      assert Items(slots[i := x]) == Items(slots[..n]) + Item(x) + Item(slots[n]);
    } else {
      assert slots[i := x][..n] == slots[..n];
    }
  }

  lemma {:induction false} ItemsOfEmpty(slots: seq<Slot>)
    requires forall i | 0 <= i < |slots| :: !Used(slots[i])
    ensures Items(slots) == multiset{}
    decreases |slots|
  {
    if slots != [] {
      ItemsOfEmpty(slots[..|slots| - 1]);
    }
  }

  ghost function Size(slots: seq<Slot>): nat { |Items(slots)| }

  /** A table that is not full has an empty place. */
  lemma {:induction false} HasEmpty(slots: seq<Slot>) returns (i: nat)
    requires Size(slots) < |slots|
    ensures i < |slots| && !Used(slots[i])
    decreases |slots|
  {
    var n := |slots| - 1;
    if Used(slots[n]) {
      i := HasEmpty(slots[..n]);
    } else {
      i := n;
    }
  }

  // ---------- probing ----------

  /** From the place the key names, no empty place and none of `those` within d probes. */
  ghost predicate Passed(slots: seq<Slot>, key: nat, those: set<nat>, d: nat)
    requires |slots| > 0
  {
    forall e | 0 <= e < d :: var s := slots[Place(key, e, |slots|)]; Used(s) && !(s.key == key && s.idx in those)
  }

  /** A probe that comes to an empty place has shown that the shard does not hold what it looks for. */
  lemma NotHeld(slots: seq<Slot>, key: nat, those: set<nat>, d: nat, x: Slot)
    requires |slots| > d && Chained(slots) && Passed(slots, key, those, d) && !Used(slots[Place(key, d, |slots|)])
    requires x.key == key && x.idx in those
    ensures x !in Items(slots)
  {
    hide Items;
    ItemsMember(slots, x);
    var n := |slots|;
    if x in slots && Used(x) {
      var j :| 0 <= j < n && slots[j] == x;
      Overtaken(slots, key, d, j);
    }
  }

  /** A slot with this key comes before the first empty place on its way. */
  lemma Overtaken(slots: seq<Slot>, key: nat, d: nat, j: nat)
    requires |slots| > d && Chained(slots) && !Used(slots[Place(key, d, |slots|)])
    requires j < |slots| && Used(slots[j]) && slots[j].key == key
    ensures Ahead(key % |slots|, j, |slots|) < d && Place(key, Ahead(key % |slots|, j, |slots|), |slots|) == j
  {
    assert Reached(slots, j);
  }

  /** Filling the empty place that a probe came to keeps every slot within reach. */
  lemma PutChained(slots: seq<Slot>, d: nat, x: Slot)
    requires |slots| > d && Chained(slots) && Used(x) && Passed(slots, x.key, {}, d)
    requires !Used(slots[Place(x.key, d, |slots|)])
    ensures Chained(slots[Place(x.key, d, |slots|) := x])
  {
    var n := |slots|;
    var i := Place(x.key, d, n);
    var slots' := slots[i := x];
    AheadIs(x.key % n, d, n);
    forall j | 0 <= j < n && Used(slots'[j])
      ensures Reached(slots', j)
    {
      if j != i {
        assert Reached(slots, j);
      }
    }
  }

  /** Probe from the key's place up to an empty place or a slot with the key and one of `those` indexes. The walk ends
      because there is an empty place. */
  method Probe(slots: seq<Slot>, key: nat, wanted: nat -> bool, ghost those: set<nat>) returns (i: nat, ghost d: nat)
    requires Size(slots) < |slots| && forall idx: nat | idx > 0 :: wanted(idx) <==> idx in those
    ensures d < |slots| && i == Place(key, d, |slots|) && Passed(slots, key, those, d)
    ensures Used(slots[i]) ==> slots[i].key == key && slots[i].idx in those
  {
    hide Items;
    ghost var hole := HasEmpty(slots);
    var n := |slots|;
    ghost var e := Ahead(key % n, hole, n);
    assert Place(key, e, n) == hole;
    i, d := key % n, 0;
    FirstPlace(key, n);
    hide Place;
    while Used(slots[i]) && !(slots[i].key == key && wanted(slots[i].idx))
      invariant 0 <= d <= e && i == Place(key, d, n) && Passed(slots, key, those, d)
      decreases e - d
    {
      NextPlace(key, d, n);
      i := if i + 1 == n then 0 else i + 1;
      d := d + 1;
    }
  }

  // ---------- growing ----------

  /** grow: twice the places, and everything that was held is held. */
  method Grow(before: seq<Slot>) returns (slots: seq<Slot>)
    requires |before| > 0
    ensures |slots| == 2 * |before| && Chained(slots) && Items(slots) == Items(before)
  {
    slots := seq(2 * |before|, _ => Empty);
    ItemsOfEmpty(slots);
    for k := 0 to |before|
      invariant |slots| == 2 * |before| && Chained(slots) && Items(slots) == Items(before[..k])
    {
      var sl := before[k];
      ItemsStep(before, k);
      if sl.idx == 0 {
        continue;
      }
      FewItems(before[..k]);
      var i, d := Probe(slots, sl.key, _ => false, {});
      PutChained(slots, d, sl);
      ItemsPut(slots, i, sl);
      slots := slots[i := sl];
    }
    assert before[..|before|] == before;
  }

  lemma ItemsStep(slots: seq<Slot>, k: nat)
    requires k < |slots|
    ensures Items(slots[..k + 1]) == Items(slots[..k]) + Item(slots[k])
  {
    assert slots[..k + 1][..k] == slots[..k];
  }

  lemma {:induction false} FewItems(slots: seq<Slot>)
    ensures Size(slots) <= |slots|
    decreases |slots|
  {
    if slots != [] {
      FewItems(slots[..|slots| - 1]);
    }
  }
}
