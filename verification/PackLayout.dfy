/** The delta forest of a pack: buildLayout and parentOf of internal/odb/verify.go, Find of internal/odb/pack.go. */
module PackLayout {
  import opened Bytes
  import opened PackHeader

  type OID = seq<Byte>

  /** A pack with its index: names and offsets in index order, and the fan-out table over first bytes. */
  datatype Pack = Pack(data: seq<Byte>, rawsz: nat, oids: seq<OID>, offsets: seq<int>, fanout: seq<nat>)
  {
    /** What parseIdx checks before a pack is used. */
    ghost predicate Valid()
    {
      && 0 < rawsz <= 32
      && |oids| == |offsets| && (forall i | 0 <= i < |oids| :: |oids[i]| == rawsz)
      && |fanout| == 256 && fanout[255] == |oids|
      && (forall i, j | 0 <= i <= j < 256 :: fanout[i] <= fanout[j])
    }
  }

  const MaxHeader := 1 + 9 + 32

  datatype PackEntry = PackEntry(off: int, size: nat, idx: nat, hdr: nat, typ: ObjType, root: bool)
  {
    function DataOff(): int { off + hdr }
  }

  datatype Layout = Layout(ents: seq<PackEntry>, childStart: seq<nat>, childList: seq<nat>, bad: seq<nat>, trailer: int)
  {
    predicate Shaped()
    {
      |childStart| == |ents| + 1 && Rising() && InRange()
    }

    /** The parts of the child list follow one another. */
    predicate Rising()
      requires |childStart| == |ents| + 1
    {
      forall i, j | 0 <= i <= j <= |ents| :: childStart[i] <= childStart[j] <= |childList|
    }

    predicate InRange()
    {
      forall k | 0 <= k < |childList| :: childList[k] < |ents|
    }

    function Children(i: nat): seq<nat>
      requires Shaped() && i < |ents|
    {
      childList[childStart[i]..childStart[i + 1]]
    }

    /** Where an entry's bytes stop. */
    function End(i: nat): int
    {
      if i + 1 < |ents| then ents[i + 1].off else trailer
    }
  }

  // ---------- finding a name and an offset ----------

  /** The binary search inside a bucket. */
  function SearchName(oids: seq<OID>, oid: OID, lo: nat, hi: nat): (r: Option<nat>)
    requires hi <= |oids|
    ensures r.Some? ==> lo <= r.value < hi && oids[r.value] == oid
    decreases hi - lo
  {
    if lo >= hi then None
    else
      var mid := lo + (hi - lo) / 2;
      if Less(oids[mid], oid) then SearchName(oids, oid, mid + 1, hi)
      else if oids[mid] == oid then Some(mid)
      else SearchName(oids, oid, lo, mid)
  }

  function FindName(p: Pack, oid: OID): (r: Option<nat>)
    requires p.Valid() && |oid| == p.rawsz
    ensures r.Some? ==> r.value < |p.oids| && p.oids[r.value] == oid
  {
    if |p.oids| == 0 then None
    else SearchName(p.oids, oid, if oid[0] > 0 then p.fanout[oid[0] - 1] else 0, p.fanout[oid[0]])
  }

  method Find(p: Pack, oid: OID) returns (r: Option<nat>)
    requires p.Valid() && |oid| == p.rawsz
    ensures r == FindName(p, oid)
  {
    hide Less;
    if |p.oids| == 0 {
      return None;
    }
    var lo: nat := if oid[0] > 0 then p.fanout[oid[0] - 1] else 0;
    var hi: nat := p.fanout[oid[0]];
    while lo < hi
      invariant hi <= |p.oids|
      invariant FindName(p, oid) == SearchName(p.oids, oid, lo, hi)
      decreases hi - lo
    {
      var mid := lo + (hi - lo) / 2;
      if Less(p.oids[mid], oid) {
        lo := mid + 1;
      } else if p.oids[mid] == oid {
        return Some(mid);
      } else {
        hi := mid;
      }
    }
    return None;
  }

  /** An index in order: the names increase and the fan-out counts the names up to each first byte. */
  ghost predicate Ordered(p: Pack)
    requires p.Valid()
  {
    && (forall i, j | 0 <= i < j < |p.oids| :: Less(p.oids[i], p.oids[j]))
    && (forall b, i | 0 <= b < 256 && 0 <= i < |p.oids| :: i < p.fanout[b] <==> p.oids[i][0] <= b)
  }

  /** In an ordered index Find answers exactly where the name is, and nothing for a name that is not there. */
  lemma FindIsExact(p: Pack, oid: OID, i: nat)
    requires p.Valid() && Ordered(p) && |oid| == p.rawsz && i < |p.oids|
    ensures p.oids[i] == oid <==> FindName(p, oid) == Some(i)
  {
    if p.oids[i] == oid {
      var lo := if oid[0] > 0 then p.fanout[oid[0] - 1] else 0;
      SearchFinds(p.oids, oid, lo, p.fanout[oid[0]], i);
    }
  }

  lemma {:induction false} SearchFinds(oids: seq<OID>, oid: OID, lo: nat, hi: nat, i: nat)
    requires lo <= i < hi <= |oids| && oids[i] == oid
    requires forall a, b | 0 <= a < b < |oids| :: Less(oids[a], oids[b])
    ensures SearchName(oids, oid, lo, hi) == Some(i)
    decreases hi - lo
  {
    hide Less;
    LessIrreflexive(oid);
    var mid := lo + (hi - lo) / 2;
    if mid < i {
      assert Less(oids[mid], oids[i]);
      SearchFinds(oids, oid, mid + 1, hi, i);
    } else if i < mid {
      assert Less(oids[i], oids[mid]);
      LessTotal(oids[i], oids[mid]);
      SearchFinds(oids, oid, lo, mid, i);
    }
  }

  predicate Sorted(offs: seq<int>) { forall i, j | 0 <= i < j < |offs| :: offs[i] <= offs[j] }

  /** The first entry at an offset, or -1. */
  function PosAt(offs: seq<int>, off: int): (r: int)
    ensures -1 <= r < |offs|
    ensures r >= 0 ==> offs[r] == off && off !in offs[..r]
    ensures r < 0 ==> off !in offs
  {
    if offs == [] then -1
    else if offs[0] == off then 0
    else
      var r := PosAt(offs[1..], off);
      assert r >= 0 ==> offs[..r + 1] == [offs[0]] + offs[1..][..r];
      if r < 0 then -1 else r + 1
  }

  /** sort.Search over the sorted offsets, then the test for an exact hit. */
  method FindPos(offs: seq<int>, off: int) returns (r: int)
    requires Sorted(offs)
    ensures r == PosAt(offs, off)
  {
    var i, j := 0, |offs|;
    while i < j
      invariant 0 <= i <= j <= |offs|
      invariant forall k | 0 <= k < i :: offs[k] < off
      invariant forall k | j <= k < |offs| :: offs[k] >= off
    {
      var h := (i + j) / 2;
      if offs[h] >= off { j := h; } else { i := h + 1; }
    }
    ghost var p := PosAt(offs, off);
    assert p >= 0 ==> forall k | 0 <= k < p :: offs[..p][k] == offs[k] && offs[k] != off;
    r := if i < |offs| && offs[i] == off then i else -1;
  }

  // ---------- what an entry is and what it stands on ----------

  /** An entry's type after buildLayout, and its parent's position or -1. */
  function Linkage(p: Pack, offs: seq<int>, i: nat): (r: (ObjType, int))
    requires p.Valid() && i < |offs|
    ensures -1 <= r.1 < |offs|
  {
    var h := HeaderAt(p.data, p.rawsz, offs[i]);
    if h.None? || h.value.dataOff - offs[i] > MaxHeader then (Bad, -1)
    else if !h.value.typ.IsDelta() then (h.value.typ, -1)
    else
      var pos := BasePos(p, offs, h.value);
      (if pos >= 0 then h.value.typ else Bad, pos)
  }

  /** Where a delta's base stands, or -1. */
  function BasePos(p: Pack, offs: seq<int>, h: ObjHeader): (r: int)
    requires p.Valid()
    ensures -1 <= r < |offs|
  {
    if h.typ == OfsDelta then PosAt(offs, h.baseOff)
    else if h.typ == RefDelta && |h.baseOID| == p.rawsz && FindName(p, h.baseOID).Some? then
      PosAt(offs, p.offsets[FindName(p, h.baseOID).value])
    else -1
  }

  lemma RefBaseIsWhole(p: Pack, off: int)
    ensures var h := HeaderAt(p.data, p.rawsz, off);
            h.Some? && h.value.typ == RefDelta ==> |h.value.baseOID| == p.rawsz
  {
  }

  /** The parent links of a pack whose entries lie at `offs`. */
  ghost function Parents(p: Pack, offs: seq<int>): (r: seq<int>)
    requires p.Valid()
    ensures |r| == |offs|
    ensures forall i | 0 <= i < |offs| :: r[i] == Linkage(p, offs, i).1
  {
    seq(|offs|, i requires 0 <= i < |offs| => Linkage(p, offs, i).1)
  }

  /** parentOf: the base read back off the packfile. */
  method ParentOf(p: Pack, offs: seq<int>, i: nat) returns (r: int)
    requires p.Valid() && Sorted(offs) && i < |offs|
    ensures Linkage(p, offs, i).0 != Bad ==> r == Linkage(p, offs, i).1
  {
    var h := ReadHeader(p.data, p.rawsz, offs[i]);
    RefBaseIsWhole(p, offs[i]);
    r := -1;
    if h.Some? {
      if h.value.typ == OfsDelta {
        r := FindPos(offs, h.value.baseOff);
      } else if h.value.typ == RefDelta {
        var bi := Find(p, h.value.baseOID);
        if bi.Some? {
          r := FindPos(offs, p.offsets[bi.value]);
        }
      }
    }
  }

  /** Bad entries are roots, and among the good ones exactly the deltas have a parent. */
  lemma LinkageShape(p: Pack, offs: seq<int>, i: nat)
    requires p.Valid() && i < |offs|
    ensures var (typ, parent) := Linkage(p, offs, i);
            && (typ == Bad ==> parent == -1)
            && (typ != Bad ==> (typ.IsDelta() <==> parent >= 0))
  {
  }

  /** An offset-delta stands on an earlier entry. */
  lemma OfsParentIsEarlier(p: Pack, offs: seq<int>, i: nat)
    requires p.Valid() && Sorted(offs) && i < |offs| && Linkage(p, offs, i).0 == OfsDelta
    ensures 0 <= Linkage(p, offs, i).1 < i && offs[Linkage(p, offs, i).1] < offs[i]
  {
  }

  // ---------- child lists ----------

  /** The entries below `k` whose parent is `v`, in order. */
  function Kids(parent: seq<int>, v: int, k: nat): seq<nat>
    requires k <= |parent|
  {
    if k == 0 then []
    else if parent[k - 1] == v then Kids(parent, v, k - 1) + [k - 1]
    else Kids(parent, v, k - 1)
  }

  /** Each child once, in order, and nothing else. */
  lemma {:induction false} KidsAreExact(parent: seq<int>, v: int, k: nat)
    requires k <= |parent|
    ensures var r := Kids(parent, v, k);
            && (forall i :: i in r <==> 0 <= i < k && parent[i] == v)
            && (forall a, b | 0 <= a < b < |r| :: r[a] < r[b])
  {
    if k > 0 {
      KidsAreExact(parent, v, k - 1);
      var r := Kids(parent, v, k - 1);
      assert forall a | 0 <= a < |r| :: r[a] in r;
    }
  }

  lemma KidsGrow(parent: seq<int>, v: int, i: nat, k: nat)
    requires i <= k <= |parent|
    ensures Kids(parent, v, i) <= Kids(parent, v, k)
    decreases k
  {
    if i < k {
      KidsGrow(parent, v, i, k - 1);
    }
  }

  /** How many entries have a parent below `v`: where v's children start. */
  function Start(parent: seq<int>, v: nat): nat
  {
    if v == 0 then 0 else Start(parent, v - 1) + |Kids(parent, v - 1, |parent|)|
  }

  lemma StartSteps(parent: seq<int>, v: nat)
    ensures Start(parent, v) == if v == 0 then 0 else Start(parent, v - 1) + |Kids(parent, v - 1, |parent|)|
  {
  }

  lemma StartMonotone(parent: seq<int>, u: nat, v: nat)
    requires u <= v
    ensures Start(parent, u) <= Start(parent, v)
    decreases v
  {
    if u < v {
      StartMonotone(parent, u, v - 1);
    }
  }

  ghost predicate InRange(parent: seq<int>)
  {
    forall i | 0 <= i < |parent| :: -1 <= parent[i] < |parent|
  }

  /** The child arrays hold each entry's children, in order, side by side. */
  ghost predicate ChildArrays(parent: seq<int>, childStart: seq<nat>, childList: seq<nat>)
  {
    && |childStart| == |parent| + 1
    && (forall v | 0 <= v <= |parent| :: childStart[v] == Start(parent, v))
    && |childList| == Start(parent, |parent|)
    && AllFilled(parent, childList, |parent|)
  }

  ghost predicate AllFilled(parent: seq<int>, childList: seq<nat>, k: nat)
    requires k <= |parent|
  {
    forall v | 0 <= v < |parent| :: Filled(parent, childList, v, k)
  }

  /** The write position of each part once the entries below `k` are placed. */
  ghost predicate FillAt(parent: seq<int>, fill: seq<nat>, k: nat)
    requires k <= |parent|
  {
    |fill| == |parent| && forall v | 0 <= v < |parent| :: fill[v] == Start(parent, v) + |Kids(parent, v, k)|
  }

  /** v's part of the child list holds its children below `k`. */
  ghost predicate Filled(parent: seq<int>, childList: seq<nat>, v: nat, k: nat)
    requires v < |parent| && k <= |parent|
  {
    var kids := Kids(parent, v, k);
    && Start(parent, v) + |kids| <= |childList|
    && childList[Start(parent, v)..Start(parent, v) + |kids|] == kids
  }

  /** The counting sort of buildLayout: count, sum, then place each entry in its parent's part. */
  method CountingSort(parent: seq<int>) returns (childStart: seq<nat>, childList: seq<nat>)
    requires InRange(parent)
    ensures ChildArrays(parent, childStart, childList)
  {
    childStart := CountAndSum(parent);
    childList := Place(parent, childStart);
  }

  method CountAndSum(parent: seq<int>) returns (r: seq<nat>)
    requires InRange(parent)
    ensures |r| == |parent| + 1 && forall v | 0 <= v <= |parent| :: r[v] == Start(parent, v)
  {
    hide Kids, Start;
    StartSteps(parent, 0);
    var n := |parent|;
    var starts := Count(parent);
    for i := 1 to n + 1
      invariant starts.Length == n + 1
      invariant forall v | 0 <= v < i :: starts[v] == Start(parent, v)
      invariant forall v | i <= v <= n :: starts[v] == |Kids(parent, v - 1, n)|
    {
      StartSteps(parent, i);
      starts[i] := starts[i] + starts[i - 1];
    }
    return starts[..];
  }

  method Count(parent: seq<int>) returns (starts: array<nat>)
    requires InRange(parent)
    ensures fresh(starts) && starts.Length == |parent| + 1 && starts[0] == 0
    ensures forall v | 1 <= v <= |parent| :: starts[v] == |Kids(parent, v - 1, |parent|)|
  {
    var n := |parent|;
    starts := new nat[n + 1](_ => 0);
    for i := 0 to n
      invariant starts.Length == n + 1 && starts[0] == 0
      invariant forall v | 1 <= v <= n :: starts[v] == |Kids(parent, v - 1, i)|
    {
      if parent[i] >= 0 {
        starts[parent[i] + 1] := starts[parent[i] + 1] + 1;
      }
    }
  }

  method Place(parent: seq<int>, starts: seq<nat>) returns (r: seq<nat>)
    requires InRange(parent)
    requires |starts| == |parent| + 1 && forall v | 0 <= v <= |parent| :: starts[v] == Start(parent, v)
    ensures |r| == Start(parent, |parent|)
    ensures AllFilled(parent, r, |parent|)
  {
    hide Filled, Kids, Start, AllFilled, FillAt;
    var n := |parent|;
    var fill := new nat[n](i requires 0 <= i < n => starts[i]);
    var list := new nat[starts[n]](_ => 0);
    FillStarts(parent, fill[..]);
    NothingPlaced(parent, list[..]);
    for i := 0 to n
      invariant fill.Length == n && list.Length == Start(parent, n)
      invariant FillAt(parent, fill[..], i)
      invariant AllFilled(parent, list[..], i)
    {
      var p := parent[i];
      ghost var before, was := list[..], fill[..];
      if p >= 0 {
        RoomLeft(parent, p, i);
        FillIs(parent, was, i, p);
        list[fill[p]] := i;
        fill[p] := fill[p] + 1;
        assert list[..] == before[was[p] := i];
        assert fill[..] == was[p := was[p] + 1];
      }
      PlaceAll(parent, before, list[..], i);
      FillAdvances(parent, was, fill[..], i);
    }
    return list[..];
  }

  lemma NothingPlaced(parent: seq<int>, list: seq<nat>)
    requires |list| == Start(parent, |parent|)
    ensures AllFilled(parent, list, 0)
  {
    forall v | 0 <= v < |parent|
      ensures Filled(parent, list, v, 0)
    {
      StartMonotone(parent, v, |parent|);
    }
  }

  lemma FillStarts(parent: seq<int>, fill: seq<nat>)
    requires |fill| == |parent| && forall v | 0 <= v < |parent| :: fill[v] == Start(parent, v)
    ensures FillAt(parent, fill, 0)
  {
    hide Start;
  }

  lemma FillIs(parent: seq<int>, fill: seq<nat>, k: nat, v: nat)
    requires k <= |parent| && FillAt(parent, fill, k) && v < |parent|
    ensures |fill| == |parent| && fill[v] == Start(parent, v) + |Kids(parent, v, k)|
  {
  }

  lemma FillAdvances(parent: seq<int>, was: seq<nat>, fill: seq<nat>, i: nat)
    requires i < |parent| && InRange(parent) && FillAt(parent, was, i)
    requires fill == if parent[i] < 0 then was else was[parent[i] := was[parent[i]] + 1]
    ensures FillAt(parent, fill, i + 1)
  {
    hide Start;
  }

  lemma RoomLeft(parent: seq<int>, p: nat, i: nat)
    requires InRange(parent) && i < |parent| && p == parent[i]
    ensures Start(parent, p) + |Kids(parent, p, i)| < Start(parent, p + 1) <= Start(parent, |parent|)
  {
    KidsGrow(parent, p, i + 1, |parent|);
    StartMonotone(parent, p + 1, |parent|);
  }

  lemma PlaceAll(parent: seq<int>, before: seq<nat>, after: seq<nat>, i: nat)
    requires InRange(parent) && i < |parent| && |before| == Start(parent, |parent|)
    requires AllFilled(parent, before, i)
    requires parent[i] < 0 ==> after == before
    requires parent[i] >= 0 ==>
      var at := Start(parent, parent[i]) + |Kids(parent, parent[i], i)|; at < |before| && after == before[at := i]
    ensures AllFilled(parent, after, i + 1)
  {
    hide Filled;
    var k := i + 1;
    forall v | 0 <= v < |parent|
      ensures Filled(parent, after, v, k)
    {
      PlaceOne(parent, before, after, v, i);
    }
  }

  /** Placing entry i leaves every part filled up to i. */
  lemma PlaceOne(parent: seq<int>, before: seq<nat>, after: seq<nat>, v: nat, i: nat)
    requires InRange(parent) && i < |parent| && v < |parent| && |before| == Start(parent, |parent|)
    requires Filled(parent, before, v, i)
    requires parent[i] < 0 ==> after == before
    requires parent[i] >= 0 ==>
      var at := Start(parent, parent[i]) + |Kids(parent, parent[i], i)|; at < |before| && after == before[at := i]
    ensures Filled(parent, after, v, i + 1)
  {
    hide Start;
    var p := parent[i];
    var s, len := Start(parent, v), |Kids(parent, v, i)|;
    if p >= 0 {
      var at := Start(parent, p) + |Kids(parent, p, i)|;
      if v != p {
        PartsApart(parent, v, p, i);
      }
      SliceUpdate(before, at, i, s, len);
    }
  }

  lemma SliceUpdate(a: seq<nat>, at: nat, x: nat, s: nat, len: nat)
    requires at < |a| && s + len <= |a|
    ensures at == s + len ==> a[at := x][s..s + len + 1] == a[s..s + len] + [x]
    ensures !(s <= at < s + len) ==> a[at := x][s..s + len] == a[s..s + len]
  {
  }

  lemma PartsApart(parent: seq<int>, v: nat, p: nat, i: nat)
    requires InRange(parent) && i < |parent| && v < |parent| && p == parent[i] && v != p
    ensures var at, s := Start(parent, p) + |Kids(parent, p, i)|, Start(parent, v);
            !(s <= at < s + |Kids(parent, v, i)|)
  {
    hide Kids;
    RoomLeft(parent, p, i);
    KidsGrow(parent, v, i, |parent|);
    if v < p { StartMonotone(parent, v + 1, p); } else { StartMonotone(parent, p + 1, v); }
  }

  // ---------- the layout ----------

  function Offs(ents: seq<PackEntry>): (r: seq<int>)
    ensures |r| == |ents| && forall i | 0 <= i < |ents| :: r[i] == ents[i].off
  {
    seq(|ents|, i requires 0 <= i < |ents| => ents[i].off)
  }

  /** Where an entry is and which index position names it. */
  function Places(ents: seq<PackEntry>): (r: seq<(int, nat)>)
    ensures |r| == |ents| && forall i | 0 <= i < |ents| :: r[i] == (ents[i].off, ents[i].idx)
  {
    seq(|ents|, i requires 0 <= i < |ents| => (ents[i].off, ents[i].idx))
  }

  function IndexPlaces(p: Pack): seq<(int, nat)>
    requires p.Valid()
  {
    seq(|p.offsets|, i requires 0 <= i < |p.offsets| => (p.offsets[i], i))
  }

  /** An entry carries its type, its root mark and what its header says. */
  ghost predicate EntryRead(p: Pack, offs: seq<int>, i: nat, e: PackEntry)
    requires p.Valid() && i < |offs|
  {
    var (typ, parent) := Linkage(p, offs, i);
    var h := HeaderAt(p.data, p.rawsz, offs[i]);
    && e.off == offs[i] && e.typ == typ
    && (typ != Bad ==> h.Some? && e.size == h.value.size && e.DataOff() == h.value.dataOff)
  }

  /** What buildLayout promises: every indexed entry once, in offset order, read off its header, and linked. */
  ghost predicate Built(p: Pack, l: Layout)
    requires p.Valid()
  {
    var offs := Offs(l.ents);
    && l.Shaped()
    && Sorted(offs)
    && multiset(Places(l.ents)) == multiset(IndexPlaces(p))
    && (forall i | 0 <= i < |l.ents| :: EntryRead(p, offs, i, l.ents[i]))
    && (forall i | 0 <= i < |l.ents| :: l.ents[i].root <==> Linkage(p, offs, i).1 < 0)
    && (forall i | 0 <= i < |l.ents| :: l.Children(i) == Kids(Parents(p, offs), i, |offs|))
    && l.bad == BadOnes(l.ents, |l.ents|)
    && l.trailer == |p.data| - p.rawsz
  }

  function BadOnes(ents: seq<PackEntry>, k: nat): seq<nat>
    requires k <= |ents|
  {
    if k == 0 then []
    else if ents[k - 1].typ == Bad then BadOnes(ents, k - 1) + [k - 1]
    else BadOnes(ents, k - 1)
  }

  /** The entries in offset order. The library sort promises order and permutation, nothing about equal offsets. */
  method SortedEntries(p: Pack) returns (ents: seq<PackEntry>)
    requires p.Valid()
    ensures Sorted(Offs(ents))
    ensures multiset(Places(ents)) == multiset(IndexPlaces(p))
  {
    ents := [];
    var all := IndexPlaces(p);
    for i := 0 to |p.offsets|
      invariant Sorted(Offs(ents))
      invariant multiset(Places(ents)) == multiset(all[..i])
    {
      assert all[..i + 1] == all[..i] + [all[i]];
      ents := Insert(ents, PackEntry(p.offsets[i], 0, i, 0, Bad, false));
    }
    assert all[..|all|] == all;
  }

  method Insert(ents: seq<PackEntry>, e: PackEntry) returns (r: seq<PackEntry>)
    requires Sorted(Offs(ents))
    ensures Sorted(Offs(r))
    ensures multiset(Places(r)) == multiset(Places(ents)) + multiset{(e.off, e.idx)}
  {
    var k := |ents|;
    while k > 0 && ents[k - 1].off > e.off
      invariant 0 <= k <= |ents|
      invariant forall j | k <= j < |ents| :: ents[j].off > e.off
    {
      k := k - 1;
    }
    r := ents[..k] + [e] + ents[k..];
    InsertSorts(ents, e, k);
    InsertPermutes(ents, e, k);
  }

  lemma InsertSorts(ents: seq<PackEntry>, e: PackEntry, k: nat)
    requires Sorted(Offs(ents)) && k <= |ents|
    requires k > 0 ==> ents[k - 1].off <= e.off
    requires forall j | k <= j < |ents| :: ents[j].off > e.off
    ensures Sorted(Offs(ents[..k] + [e] + ents[k..]))
  {
    hide Sorted;
    var offs := Offs(ents);
    SortedInsert(offs, e.off, k);
    assert Offs(ents[..k] + [e] + ents[k..]) == offs[..k] + [e.off] + offs[k..];
  }

  lemma SortedInsert(offs: seq<int>, x: int, k: nat)
    requires Sorted(offs) && k <= |offs| && (k > 0 ==> offs[k - 1] <= x) && (k < |offs| ==> x <= offs[k])
    ensures Sorted(offs[..k] + [x] + offs[k..])
  {
    assert forall j | 0 <= j < k :: offs[j] <= x;
    assert forall j | k <= j < |offs| :: x <= offs[j];
  }

  lemma InsertPermutes(ents: seq<PackEntry>, e: PackEntry, k: nat)
    requires k <= |ents|
    ensures multiset(Places(ents[..k] + [e] + ents[k..])) == multiset(Places(ents)) + multiset{(e.off, e.idx)}
  {
    var at := Places(ents);
    assert Places(ents[..k] + [e] + ents[k..]) == at[..k] + [(e.off, e.idx)] + at[k..];
    assert at == at[..k] + at[k..];
  }

  /** The header pass: type, size and parent of each entry. */
  method ReadEntries(p: Pack, ents: seq<PackEntry>) returns (r: seq<PackEntry>, parent: seq<int>, bad: seq<nat>)
    requires p.Valid() && Sorted(Offs(ents))
    ensures Places(r) == Places(ents)
    ensures forall i | 0 <= i < |r| :: EntryRead(p, Offs(ents), i, r[i])
    ensures |parent| == |ents| && forall i | 0 <= i < |ents| :: parent[i] == Linkage(p, Offs(ents), i).1
    ensures bad == BadOnes(r, |r|)
  {
    hide Linkage;
    var offs := Offs(ents);
    r, parent, bad := [], [], [];
    for i := 0 to |ents|
      invariant |r| == |parent| == i
      invariant forall k | 0 <= k < i ::
                  (r[k].off, r[k].idx) == (ents[k].off, ents[k].idx) && EntryRead(p, offs, k, r[k])
      invariant forall k | 0 <= k < i :: parent[k] == Linkage(p, offs, k).1
      invariant bad == BadOnes(r, i)
    {
      var e, pos := ReadEntry(p, offs, i, ents[i]);
      BadOnesPrefix(r, e);
      if e.typ == Bad {
        bad := bad + [i];
      }
      r, parent := r + [e], parent + [pos];
    }
    assert Places(r) == Places(ents);
  }

  lemma BadOnesPrefix(ents: seq<PackEntry>, e: PackEntry)
    ensures BadOnes(ents + [e], |ents|) == BadOnes(ents, |ents|)
  {
    BadOnesAgree(ents + [e], ents, |ents|);
  }

  lemma BadOnesAgree(a: seq<PackEntry>, b: seq<PackEntry>, k: nat)
    requires k <= |a| && k <= |b| && forall i | 0 <= i < k :: a[i].typ == b[i].typ
    ensures BadOnes(a, k) == BadOnes(b, k)
  {
  }

  method ReadEntry(p: Pack, offs: seq<int>, i: nat, e: PackEntry) returns (r: PackEntry, parent: int)
    requires p.Valid() && Sorted(offs) && i < |offs| && e.off == offs[i]
    ensures EntryRead(p, offs, i, r) && r.idx == e.idx
    ensures parent == Linkage(p, offs, i).1
  {
    r, parent := e, -1;
    var h := ReadHeader(p.data, p.rawsz, e.off);
    RefBaseIsWhole(p, e.off);
    if h.None? || h.value.dataOff - e.off > MaxHeader {
      r := r.(typ := Bad);
      return;
    }
    r := r.(typ := h.value.typ, size := h.value.size, hdr := h.value.dataOff - e.off);
    if h.value.typ == OfsDelta {
      parent := FindPos(offs, h.value.baseOff);
    } else if h.value.typ == RefDelta {
      var bi := Find(p, h.value.baseOID);
      if bi.Some? {
        parent := FindPos(offs, p.offsets[bi.value]);
      }
    }
    if h.value.typ.IsDelta() && parent < 0 {
      r := r.(typ := Bad);
    }
  }

  method MarkRoots(ents: seq<PackEntry>, parent: seq<int>) returns (r: seq<PackEntry>)
    requires |ents| == |parent|
    ensures |r| == |ents| && forall i | 0 <= i < |r| :: r[i] == ents[i].(root := parent[i] < 0)
  {
    r := [];
    for i := 0 to |ents|
      invariant |r| == i && forall k | 0 <= k < i :: r[k] == ents[k].(root := parent[k] < 0)
    {
      r := r + [ents[i].(root := parent[i] < 0)];
    }
  }

  lemma StartsShaped(parent: seq<int>, starts: seq<nat>, list: seq<nat>)
    requires ChildArrays(parent, starts, list)
    ensures forall i, j | 0 <= i <= j <= |parent| :: starts[i] <= starts[j] <= |list|
    ensures forall k | 0 <= k < |list| :: list[k] < |parent|
  {
    forall i, j | 0 <= i <= j <= |parent|
      ensures starts[i] <= starts[j] <= |list|
    {
      StartMonotone(parent, i, j);
      StartMonotone(parent, j, |parent|);
    }
    forall k | 0 <= k < |list|
      ensures list[k] < |parent|
    {
      var v := PartHolding(parent, |parent|, k);
      var s := Start(parent, v);
      var kids := Kids(parent, v, |parent|);
      KidsAreExact(parent, v, |parent|);
      assert Filled(parent, list, v, |parent|);
      assert list[k] == list[s..s + |kids|][k - s] == kids[k - s];
      assert kids[k - s] in kids;
    }
  }

  /** Every place of the child list lies in somebody's part. */
  lemma PartHolding(parent: seq<int>, n: nat, k: nat) returns (v: nat)
    requires n <= |parent| && k < Start(parent, n)
    ensures v < n && Start(parent, v) <= k < Start(parent, v) + |Kids(parent, v, |parent|)|
  {
    if k >= Start(parent, n - 1) {
      v := n - 1;
    } else {
      v := PartHolding(parent, n - 1, k);
    }
  }

  method BuildLayout(p: Pack) returns (l: Layout)
    requires p.Valid()
    ensures Built(p, l)
  {
    hide Linkage, HeaderAt, Kids, Sorted, ChildArrays;
    var sorted := SortedEntries(p);
    var read, parent, bad := ReadEntries(p, sorted);
    var starts, list := CountingSort(parent);
    var ents := MarkRoots(read, parent);
    l := Layout(ents, starts, list, bad, |p.data| - p.rawsz);
    ghost var offs := Offs(sorted);
    assert Offs(ents) == offs by {
      assert forall i | 0 <= i < |ents| :: Places(read)[i] == Places(sorted)[i];
    }
    assert Places(ents) == Places(read);
    assert parent == Parents(p, offs);
    BadOnesAgree(ents, read, |ents|);
    StartsShaped(parent, starts, list);
    ChildrenLinked(l, parent);
  }

  lemma ChildrenLinked(l: Layout, parent: seq<int>)
    requires l.Shaped() && |parent| == |l.ents| && ChildArrays(parent, l.childStart, l.childList)
    ensures forall i | 0 <= i < |l.ents| :: l.Children(i) == Kids(parent, i, |parent|)
  {
    forall i | 0 <= i < |l.ents|
      ensures l.Children(i) == Kids(parent, i, |parent|)
    {
      assert Filled(parent, l.childList, i, |parent|);
      StartSteps(parent, i + 1);
    }
  }
}
