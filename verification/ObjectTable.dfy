/** The object table of internal/fsckcmd/objtable.go: sharded slots over slabs of entries, refining a list of names. */
module ObjectTable {
  import opened Bytes
  import opened Powers
  import opened Probing

  /** An object's name: at least eight bytes of hash. */
  type Oid = n: Name | |n| >= 8 witness seq(8, _ => 0)

  const TypeNone: int := 0
  const TypeAny: int := -2
  const SlabSize: nat := 4096
  const ShardMin: nat := 8
  const MaxIndex: nat := 0x7fff_ffff

  datatype Entry = Entry(hash: Name, typ: int)

  // ---------- the table as a list ----------

  /** The table as its callers see it: distinct names in the order they came, each with a type. */
  datatype Known = Known(names: seq<Oid>, types: seq<int>)
  {
    ghost predicate Valid()
    {
      |names| == |types| && forall i, j | 0 <= i < j < |names| :: names[i] != names[j]
    }

    ghost predicate Has(oid: Oid) { oid in names }

    ghost function Index(oid: Oid): (i: nat)
      requires Has(oid)
      ensures i < |names| && names[i] == oid
    {
      var i :| 0 <= i < |names| && names[i] == oid; i
    }
  }

  /** What a lookup answers: the object's index, or a type that contradicts the one it has. */
  datatype Answer = Resolved(idx: nat) | Refused

  ghost function Looked(k: Known, oid: Oid, want: int): (Known, Answer)
    requires k.Valid()
  {
    if !k.Has(oid) then
      (Known(k.names + [oid], k.types + [if want == TypeAny then TypeNone else want]), Resolved(|k.names|))
    else
      var i := k.Index(oid);
      if want == TypeAny then (k, Resolved(i))
      else if k.types[i] == TypeNone then (k.(types := k.types[i := want]), Resolved(i))
      else if k.types[i] != want then (k, Refused)
      else (k, Resolved(i))
  }

  /** A known name is refused exactly when its type is set and is not the one that was asked for; otherwise the answer
      is where it stands, and the only change is a type that was missing. A new name takes the next index. */
  lemma LookedMeans(k: Known, oid: Oid, want: int)
    requires k.Valid()
    ensures var (k', a) := Looked(k, oid, want);
            && (oid !in k.names ==> a == Resolved(|k.names|) && k'.names == k.names + [oid]
                                    && k'.types == k.types + [if want == -2 then 0 else want])
            && forall i | 0 <= i < |k.names| && k.names[i] == oid ::
                 && (a == Refused <==> want != -2 && k.types[i] != 0 && k.types[i] != want)
                 && (a != Refused ==> a == Resolved(i)) && k'.names == k.names
                 && k'.types == if want != -2 && k.types[i] == 0 then k.types[i := want] else k.types
  {
  }

  lemma LookedIsValid(k: Known, oid: Oid, want: int)
    requires k.Valid()
    ensures Looked(k, oid, want).0.Valid()
  {
  }

  // ---------- where names go ----------

  function SlotKey(oid: Oid): nat
  {
    var a: nat, b: nat, c: nat, d: nat := oid[4], oid[5], oid[6], oid[7];
    a + 256 * b + 65536 * c + 16777216 * d
  }

  function ShardOf(oid: Oid, shards: nat): (s: nat)
    requires shards > 0
    ensures s < shards
  {
    var a: nat, b: nat := oid[0], oid[1];
    (256 * a + b) % shards
  }

  /** The slots that the names of one shard take. */
  ghost function Belongs(names: seq<Oid>, shards: nat, s: nat): multiset<Slot>
    requires shards > 0
  {
    if names == [] then multiset{}
    else
      var n := |names| - 1;
      Belongs(names[..n], shards, s)
      + if ShardOf(names[n], shards) == s then multiset{Slot(SlotKey(names[n]), n + 1)} else multiset{}
  }

  lemma {:induction false} BelongsMember(names: seq<Oid>, shards: nat, s: nat, x: Slot)
    requires shards > 0
    ensures x in Belongs(names, shards, s) <==>
            1 <= x.idx <= |names| && ShardOf(names[x.idx - 1], shards) == s && x.key == SlotKey(names[x.idx - 1])
    decreases |names|
  {
    if names != [] {
      BelongsMember(names[..|names| - 1], shards, s, x);
    }
  }

  datatype Shard = Shard(slots: seq<Slot>, used: nat)

  /** One shard: nothing made yet, or a table under half full that holds the shard's names and no others. */
  ghost predicate ShardOk(sh: Shard, names: seq<Oid>, shards: nat, s: nat)
    requires shards > 0
  {
    && Items(sh.slots) == Belongs(names, shards, s) && sh.used == Size(sh.slots) && Chained(sh.slots)
    && (sh.slots == [] || (sh.used * 2 < |sh.slots| && |sh.slots| >= ShardMin && PowerOfTwo(|sh.slots|)))
  }

  /** Sizes that a mask can address. */
  ghost predicate PowerOfTwo(n: nat)
  {
    exists e: nat :: n == Pow2(e)
  }

  lemma DoubleIsPower(n: nat)
    requires PowerOfTwo(n)
    ensures PowerOfTwo(2 * n)
  {
    var e: nat :| n == Pow2(e);
    assert 2 * n == Pow2(e + 1);
  }

  // ---------- slabs ----------

  /** Whole slabs, with room for n entries; those not given out yet have no type. */
  ghost predicate Laid(slabs: seq<seq<Entry>>, n: nat)
  {
    && Square(slabs) && n <= SlabSize * |slabs|
    && (forall i | 0 <= i < n :: |EntryAt(slabs, i).hash| >= 8)
    && forall i | n <= i < SlabSize * |slabs| :: EntryAt(slabs, i).typ == TypeNone
  }

  predicate Square(slabs: seq<seq<Entry>>)
  {
    forall k | 0 <= k < |slabs| :: |slabs[k]| == SlabSize
  }

  function EntryAt(slabs: seq<seq<Entry>>, i: nat): Entry
    requires Square(slabs) && i < SlabSize * |slabs|
  {
    slabs[i / SlabSize][i % SlabSize]
  }

  function Put(slabs: seq<seq<Entry>>, i: nat, e: Entry): (r: seq<seq<Entry>>)
    requires Square(slabs) && i < SlabSize * |slabs|
    ensures |r| == |slabs| && Square(r)
  {
    slabs[i / SlabSize := slabs[i / SlabSize][i % SlabSize := e]]
  }

  lemma PutAt(slabs: seq<seq<Entry>>, i: nat, e: Entry, j: nat)
    requires Square(slabs) && i < SlabSize * |slabs| && j < SlabSize * |slabs|
    ensures EntryAt(Put(slabs, i, e), j) == if j == i then e else EntryAt(slabs, j)
  {
    assert i == SlabSize * (i / SlabSize) + i % SlabSize && j == SlabSize * (j / SlabSize) + j % SlabSize;
  }

  /** Adding slabs moves no entry. */
  lemma Extended(slabs: seq<seq<Entry>>, more: seq<seq<Entry>>, j: nat)
    requires Square(slabs) && Square(more) && j < SlabSize * |slabs|
    ensures Square(slabs + more) && EntryAt(slabs + more, j) == EntryAt(slabs, j)
  {
  }

  /** The first n entries as a list. */
  ghost function Listed(slabs: seq<seq<Entry>>, n: nat): (k: Known)
    requires Laid(slabs, n)
    ensures |k.names| == n && |k.types| == n
  {
    Known(seq(n, i requires 0 <= i < n => EntryAt(slabs, i).hash),
          seq(n, i requires 0 <= i < n => EntryAt(slabs, i).typ))
  }

  lemma ListedTyped(slabs: seq<seq<Entry>>, n: nat, i: nat, t: int)
    requires Laid(slabs, n) && i < n
    ensures var slabs' := Put(slabs, i, EntryAt(slabs, i).(typ := t));
            && Laid(slabs', n)
            && Listed(slabs', n) == Known(Listed(slabs, n).names, Listed(slabs, n).types[i := t])
  {
    var e := EntryAt(slabs, i).(typ := t);
    forall j | 0 <= j < SlabSize * |slabs|
      ensures EntryAt(Put(slabs, i, e), j) == if j == i then e else EntryAt(slabs, j)
    {
      PutAt(slabs, i, e, j);
    }
  }

  lemma ListedNew(slabs: seq<seq<Entry>>, n: nat, oid: Oid)
    requires Laid(slabs, n) && n < SlabSize * |slabs|
    ensures var slabs' := Put(slabs, n, EntryAt(slabs, n).(hash := oid));
            && Laid(slabs', n + 1)
            && Listed(slabs', n + 1) == Known(Listed(slabs, n).names + [oid], Listed(slabs, n).types + [TypeNone])
  {
    var e := EntryAt(slabs, n).(hash := oid);
    forall j | 0 <= j < SlabSize * |slabs|
      ensures EntryAt(Put(slabs, n, e), j) == if j == n then e else EntryAt(slabs, j)
    {
      PutAt(slabs, n, e, j);
    }
  }

  lemma ListedGrown(slabs: seq<seq<Entry>>, n: nat, slab: seq<Entry>)
    requires Laid(slabs, n) && |slab| == SlabSize && forall i | 0 <= i < SlabSize :: slab[i].typ == TypeNone
    ensures Laid(slabs + [slab], n) && Listed(slabs + [slab], n) == Listed(slabs, n)
  {
    forall j | 0 <= j < SlabSize * |slabs|
      ensures Square(slabs + [slab]) && EntryAt(slabs + [slab], j) == EntryAt(slabs, j)
    {
      Extended(slabs, [slab], j);
    }
    assert Square(slabs + [slab]);
    forall j | SlabSize * |slabs| <= j < SlabSize * (|slabs| + 1)
      ensures EntryAt(slabs + [slab], j).typ == TypeNone
    {
      assert j / SlabSize == |slabs|;
    }
  }

  // ---------- the table ----------

  class Table {
    var shards: seq<Shard>
    const start: nat
    var slabs: seq<seq<Entry>>
    var created: nat

    constructor (shardCount: nat, expected: nat)
      requires shardCount > 0
      ensures Valid() && View() == Known([], []) && |shards| == shardCount
    {
      shards := seq(shardCount, _ => Shard([], 0));
      slabs, created := [], 0;
      var n := ShardMin;
      assert ShardMin == Pow2(3) by { assert Pow2(3) == 2 * Pow2(2) == 4 * Pow2(1) == 8; }
      var want := 2 * (expected / shardCount + 1);
      while n < want && n < 0x100_0000
        invariant n >= ShardMin && PowerOfTwo(n)
      {
        DoubleIsPower(n);
        n := 2 * n;
      }
      start := n;
    }

    ghost function View(): Known
      requires Laid(slabs, created)
      reads this
    {
      Listed(slabs, created)
    }

    ghost predicate ShardsOk(names: seq<Oid>)
      reads this
    {
      |shards| > 0 && forall s | 0 <= s < |shards| :: ShardOk(shards[s], names, |shards|, s)
    }

    ghost predicate Valid()
      reads this
    {
      && start >= ShardMin && PowerOfTwo(start) && created <= MaxIndex + 1
      && Laid(slabs, created) && View().Valid() && ShardsOk(View().names)
    }

    /** The type of the entry at an index. */
    method TypeAt(i: nat) returns (t: int)
      requires Valid() && i < |View().types|
      ensures t == View().types[i]
    {
      hide ShardOk, PowerOfTwo;
      LaidAt(slabs, created, i);
      return EntryAt(slabs, i).typ;
    }

    /** SetType: the type that was there first stays. */
    method SetType(i: nat, t: int)
      requires Valid() && i < created
      modifies this`slabs
      ensures Valid() && created == old(created)
      ensures View() == old(if View().types[i] == TypeNone then Known(View().names, View().types[i := t]) else View())
    {
      hide ShardOk, Laid, PowerOfTwo;
      LaidAt(slabs, created, i);
      var e := EntryAt(slabs, i);
      if e.typ != TypeNone {
        return;
      }
      ListedTyped(slabs, created, i, t);
      slabs := Put(slabs, i, e.(typ := t));
    }

    /** newEntry and growSlabs: the next index, with slabs added until they cover it. */
    method NewEntry(oid: Oid) returns (idx: nat)
      requires Laid(slabs, created)
      modifies this`slabs, this`created
      ensures Laid(slabs, created) && idx == old(created) && created == old(created) + 1
      ensures View() == Known(old(View().names) + [oid], old(View().types) + [TypeNone])
    {
      idx := created;
      while idx / SlabSize >= |slabs|
        invariant Laid(slabs, created) && created == idx == old(created) && View() == old(View())
        decreases idx / SlabSize - |slabs|
      {
        var slab := seq(SlabSize, _ => Entry([], TypeNone));
        ListedGrown(slabs, created, slab);
        slabs := slabs + [slab];
      }
      ListedNew(slabs, created, oid);
      slabs := Put(slabs, idx, EntryAt(slabs, idx).(hash := oid));
      created := created + 1;
    }

    /** The place where a probe for the name ends: its own slot, or an empty one. */
    method Seek(sh: Shard, oid: Oid) returns (i: nat, ghost d: nat)
      requires Valid() && ShardOk(sh, View().names, |shards|, ShardOf(oid, |shards|)) && sh.slots != []
      ensures d < |sh.slots| && i == Place(SlotKey(oid), d, |sh.slots|)
      ensures Passed(sh.slots, SlotKey(oid), Numbers(View().names, oid), d)
      ensures Used(sh.slots[i]) ==> sh.slots[i].idx <= created && View().names[sh.slots[i].idx - 1] == oid
      ensures !Used(sh.slots[i]) ==> !View().Has(oid)
    {
      hide Laid, Items, Belongs, Chained, Passed, PowerOfTwo;
      ghost var names := View().names;
      var ents, n := slabs, created;
      forall j | 0 <= j < n
        ensures Square(ents) && j < SlabSize * |ents| && names[j] == EntryAt(ents, j).hash
      {
        LaidAt(ents, n, j);
      }
      LaidSquare(ents, n);
      i, d := Probe(sh.slots, SlotKey(oid), idx => 1 <= idx <= n && EntryAt(ents, idx - 1).hash == oid,
                    Numbers(names, oid));
      if !Used(sh.slots[i]) {
        NotKnown(sh, names, |shards|, oid, d);
      }
    }

    /** Get: the index of a name the table knows, or nothing. */
    method Get(oid: Oid) returns (r: Option<nat>)
      requires Valid()
      ensures r.Some? <==> View().Has(oid)
      ensures r.Some? ==> r.value == View().Index(oid)
    {
      hide Laid, ShardOk;
      var sh := shards[ShardOf(oid, |shards|)];
      if sh.slots == [] {
        NothingKnown(sh, View().names, |shards|, oid);
        return None;
      }
      var i, d := Seek(sh, oid);
      return if Used(sh.slots[i]) then Some(sh.slots[i].idx - 1) else None;
    }

    /** Lookup: find the name or make it, and settle its type. Nothing is answered when there are too many names. */
    method Lookup(oid: Oid, want: int) returns (a: Option<Answer>)
      requires Valid()
      modifies this
      ensures Valid() && |shards| == old(|shards|)
      ensures a.None? <==> oid !in old(View().names) && old(created) > 0x7fff_ffff
      ensures a.None? ==> View() == old(View())
      ensures a.Some? ==> (View(), a.value) == old(Looked(View(), oid, want))
      ensures a.Some? && oid !in old(View().names) ==>
                && a.value == Resolved(old(created)) && View().names == old(View().names) + [oid]
                && View().types == old(View().types) + [if want == TypeAny then TypeNone else want]
      ensures forall i | 0 <= i < |old(View().names)| && old(View().names)[i] == oid ::
                var typ := old(View().types)[i];
                && a == Some(if want != TypeAny && typ != TypeNone && typ != want then Refused else Resolved(i))
                && View().names == old(View().names)
                && View().types == if want != TypeAny && typ == TypeNone then old(View().types)[i := want]
                                   else old(View().types)
    {
      hide Laid, ShardOk, PowerOfTwo;
      LookedMeans(View(), oid, want);
      var s := ShardOf(oid, |shards|);
      var sh := shards[s];
      ghost var was := View();
      if sh.slots == [] {
        MadeOk(sh, was.names, |shards|, s, start);
        sh := Shard(seq(start, _ => Empty), sh.used);
        shards := shards[s := sh];
      }
      var i, d := Seek(sh, oid);
      if Used(sh.slots[i]) {
        var idx := sh.slots[i].idx - 1;
        var ans := Reconcile(idx, want);
        return Some(ans);
      }
      if created > MaxIndex {
        return None;
      }
      Create(s, sh, i, d, oid);
      assert (was.types + [TypeNone])[|was.types| := want] == was.types + [want];
      if want != TypeAny {
        SetType(created - 1, want);
      }
      return Some(Resolved(created - 1));
    }

    /** reconcile: the type a reference implies, against the one that the entry has. */
    method Reconcile(idx: nat, want: int) returns (a: Answer)
      requires Valid() && idx < created
      modifies this`slabs
      ensures Valid() && created == old(created)
      ensures (View(), a) == old(Looked(View(), View().names[idx], want))
    {
      hide Laid, ShardOk, PowerOfTwo;
      if want == TypeAny {
        return Resolved(idx);
      }
      LaidAt(slabs, created, idx);
      var cur := EntryAt(slabs, idx).typ;
      if cur == TypeNone {
        SetType(idx, want);
        return Resolved(idx);
      }
      return if cur != want then Refused else Resolved(idx);
    }

    /** A new entry, and a slot for it where the probe ended. */
    method Create(s: nat, sh: Shard, i: nat, ghost d: nat, oid: Oid)
      requires Valid() && s == ShardOf(oid, |shards|) && sh == shards[s] && !View().Has(oid) && created <= MaxIndex
      requires d < |sh.slots| && i == Place(SlotKey(oid), d, |sh.slots|) && !Used(sh.slots[i])
      requires Passed(sh.slots, SlotKey(oid), Numbers(View().names, oid), d)
      modifies this
      ensures Valid() && |shards| == old(|shards|) && created == old(created) + 1
      ensures View() == Known(old(View().names) + [oid], old(View().types) + [TypeNone])
    {
      hide Laid, PowerOfTwo, Items, Chained, Belongs, Passed;
      ghost var names := View().names;
      PassedAny(sh.slots, SlotKey(oid), Numbers(names, oid), d);
      var idx := NewEntry(oid);
      var sh' := Insert(sh, i, d, SlotKey(oid), idx + 1);
      ghost var was := shards;
      shards := shards[s := sh'];
      forall t | 0 <= t < |shards|
        ensures ShardOk(shards[t], names + [oid], |shards|, t)
      {
        BelongsNew(names, |shards|, t, oid);
        assert ShardOk(was[t], names, |shards|, t);
      }
    }
  }

  lemma PassedAny(slots: seq<Slot>, key: nat, those: set<nat>, d: nat)
    requires |slots| > 0 && Passed(slots, key, those, d)
    ensures Passed(slots, key, {}, d)
  {
  }

  lemma LaidSquare(slabs: seq<seq<Entry>>, n: nat)
    requires Laid(slabs, n)
    ensures Square(slabs) && n <= SlabSize * |slabs|
  {
  }

  /** The slots' own numbers for a name: one, or none. */
  ghost function Numbers(names: seq<Oid>, oid: Oid): set<nat>
  {
    set idx: nat | idx <= |names| && IsNumber(names, oid, idx)
  }

  ghost predicate IsNumber(names: seq<Oid>, oid: Oid, idx: nat)
  {
    1 <= idx <= |names| && names[idx - 1] == oid
  }

  /** A shard with an empty place where a probe for the name ended does not know the name. */
  lemma NotKnown(sh: Shard, names: seq<Oid>, shards: nat, oid: Oid, d: nat)
    requires shards > 0 && ShardOk(sh, names, shards, ShardOf(oid, shards)) && d < |sh.slots|
    requires Passed(sh.slots, SlotKey(oid), Numbers(names, oid), d)
             && !Used(sh.slots[Place(SlotKey(oid), d, |sh.slots|)])
    ensures oid !in names
  {
    hide Belongs, Items, Chained, Passed;
    if i :| 0 <= i < |names| && names[i] == oid {
      var x := Slot(SlotKey(oid), i + 1);
      BelongsMember(names, shards, ShardOf(oid, shards), x);
      NotHeld(sh.slots, SlotKey(oid), Numbers(names, oid), d, x);
    }
  }

  lemma NothingKnown(sh: Shard, names: seq<Oid>, shards: nat, oid: Oid)
    requires shards > 0 && ShardOk(sh, names, shards, ShardOf(oid, shards)) && sh.slots == []
    ensures oid !in names
  {
    hide Belongs;
    if i :| 0 <= i < |names| && names[i] == oid {
      BelongsMember(names, shards, ShardOf(oid, shards), Slot(SlotKey(oid), i + 1));
    }
  }

  /** Making a shard's slots leaves it as it was. */
  lemma MadeOk(sh: Shard, names: seq<Oid>, shards: nat, s: nat, start: nat)
    requires shards > 0 && ShardOk(sh, names, shards, s) && sh.slots == [] && start >= ShardMin && PowerOfTwo(start)
    ensures ShardOk(Shard(seq(start, _ => Empty), sh.used), names, shards, s)
  {
    ItemsOfEmpty(seq(start, _ => Empty));
  }

  /** A new name takes one slot in its own shard and none elsewhere. */
  lemma BelongsNew(names: seq<Oid>, shards: nat, s: nat, oid: Oid)
    requires shards > 0
    ensures Belongs(names + [oid], shards, s) == Belongs(names, shards, s)
            + if ShardOf(oid, shards) == s then multiset{Slot(SlotKey(oid), |names| + 1)} else multiset{}
  {
    assert (names + [oid])[..|names|] == names;
  }

  /** Fill the place where the probe ended, and double the shard when that makes it half full. */
  method Insert(sh: Shard, i: nat, ghost d: nat, key: nat, idx: nat) returns (r: Shard)
    requires d < |sh.slots| && i == Place(key, d, |sh.slots|) && Passed(sh.slots, key, {}, d) && !Used(sh.slots[i])
    requires Chained(sh.slots) && sh.used == Size(sh.slots) && sh.used * 2 < |sh.slots| && PowerOfTwo(|sh.slots|)
    requires idx > 0 && |sh.slots| >= ShardMin
    ensures Items(r.slots) == Items(sh.slots) + multiset{Slot(key, idx)} && Chained(r.slots) && r.used == Size(r.slots)
    ensures r.used * 2 < |r.slots| && |r.slots| >= ShardMin && PowerOfTwo(|r.slots|)
  {
    hide Items, Chained, Passed, PowerOfTwo;
    var x := Slot(key, idx);
    PutChained(sh.slots, d, x);
    ItemsPut(sh.slots, i, x);
    var slots := sh.slots[i := x];
    var used := sh.used + 1;
    if used * 2 >= |slots| {
      DoubleIsPower(|slots|);
      slots := Grow(slots);
    }
    return Shard(slots, used);
  }

  lemma LaidAt(slabs: seq<seq<Entry>>, n: nat, i: nat)
    requires Laid(slabs, n) && i < n
    ensures Square(slabs) && i < SlabSize * |slabs|
    ensures Listed(slabs, n).names[i] == EntryAt(slabs, i).hash && Listed(slabs, n).types[i] == EntryAt(slabs, i).typ
  {
  }
}
