/** The arena of recorded edges (internal/fsckcmd/edgearena.go). */
module EdgeArena {
  import opened Bytes

  const SlabSize: nat := 8192
  const Half: nat := 0x1_0000_0000

  type Edge = nat

  /** A run of edges: the slab in the high half of `ref`, the place in it in the low half. */
  datatype Span = Span(ref: nat, n: nat)

  function SlabOf(s: Span): nat { s.ref / Half }
  function PosOf(s: Span): nat { s.ref % Half }

  /** The part of a slab a worker hands out from. */
  datatype Chunk = Chunk(slab: nat, used: nat)

  ghost predicate Within(s: Span, slabs: seq<seq<Edge>>)
  {
    SlabOf(s) < |slabs| && PosOf(s) + s.n <= |slabs[SlabOf(s)]|
  }

  /** No edge belongs to both. */
  ghost predicate Apart(s: Span, t: Span)
  {
    s.n == 0 || t.n == 0 || SlabOf(s) != SlabOf(t) || PosOf(s) + s.n <= PosOf(t) || PosOf(t) + t.n <= PosOf(s)
  }

  /** What a span names in these slabs. */
  function Read(s: Span, slabs: seq<seq<Edge>>): (r: seq<Edge>)
    requires s.n > 0 ==> Within(s, slabs)
    ensures |r| == s.n
  {
    if s.n == 0 then [] else slabs[SlabOf(s)][PosOf(s)..PosOf(s) + s.n]
  }

  /** A chunk hands out only what no span has yet. */
  ghost predicate Ahead(c: Chunk, slabs: seq<seq<Edge>>, given: seq<Span>)
  {
    && c.slab < |slabs| && c.used <= |slabs[c.slab]| == SlabSize
    && forall i | 0 <= i < |given| && given[i].n > 0 && SlabOf(given[i]) == c.slab ::
         PosOf(given[i]) + given[i].n <= c.used
  }

  ghost predicate AllApart(given: seq<Span>)
  {
    forall i, j | 0 <= i < j < |given| :: Apart(given[i], given[j])
  }

  ghost predicate AllWithin(given: seq<Span>, slabs: seq<seq<Edge>>)
  {
    forall i | 0 <= i < |given| && given[i].n > 0 :: Within(given[i], slabs)
  }

  ghost predicate Sound(slabs: seq<seq<Edge>>, pool: seq<Chunk>, given: seq<Span>)
  {
    && AllWithin(given, slabs) && AllApart(given)
    && (forall i | 0 <= i < |pool| :: Ahead(pool[i], slabs, given))
    && forall i, j | 0 <= i < j < |pool| :: pool[i].slab != pool[j].slab
  }

  lemma Parts(slab: nat, pos: nat, n: nat)
    requires pos < Half
    ensures SlabOf(Span(slab * Half + pos, n)) == slab && PosOf(Span(slab * Half + pos, n)) == pos
  {
  }

  lemma GiveNothing(slabs: seq<seq<Edge>>, pool: seq<Chunk>, given: seq<Span>, s: Span)
    requires Sound(slabs, pool, given) && s.n == 0
    ensures Sound(slabs, pool, given + [s]) && forall t | t in given :: Apart(s, t)
  {
  }

  /** A span over a slab of its own. */
  lemma GiveNew(before: seq<seq<Edge>>, slabs: seq<seq<Edge>>, pool: seq<Chunk>, given: seq<Span>, s: Span)
    requires Sound(slabs, pool, given) && AllWithin(given, before) && |slabs| == |before| + 1
    requires s == Span(|before| * Half, s.n) && |slabs[|before|]| == s.n && s.n > SlabSize
    ensures Sound(slabs, pool, given + [s]) && forall t | t in given :: Apart(s, t)
  {
    Parts(|before|, 0, s.n);
    forall t | t in given
      ensures Apart(s, t)
    {
      assert t.n > 0 ==> Within(t, before);
    }
  }

  /** A span at the front of what a chunk has left. */
  lemma GiveFrom(slabs: seq<seq<Edge>>, pool: seq<Chunk>, given: seq<Span>, c: Chunk, s: Span)
    requires Sound(slabs, pool, given) && Ahead(c, slabs, given) && c.used + s.n <= SlabSize
    requires s == Span(c.slab * Half + c.used, s.n) && forall i | 0 <= i < |pool| :: pool[i].slab != c.slab
    ensures Sound(slabs, pool + [c.(used := c.used + s.n)], given + [s]) && forall t | t in given :: Apart(s, t)
  {
    Parts(c.slab, c.used, s.n);
  }

  /** A span is read as before however many slabs were added, and a new one is none of the old ones. */
  lemma Survives(before: seq<seq<Edge>>, slabs: seq<seq<Edge>>, given: seq<Span>, given': seq<Span>, s: Span)
    requires before <= slabs && AllWithin(given, before) && given' == given + [s] && AllWithin(given', slabs)
    requires forall t | t in given :: Apart(s, t)
    ensures forall t | t in given ::
              (t.n > 0 ==> Within(t, before) && Within(t, slabs)) && Read(t, slabs) == Read(t, before)
    ensures s.n > 0 ==> s !in given && Within(s, slabs)
  {
    assert given'[|given|] == s;
  }

  /** A span that was given out, or the front of one. */
  ghost predicate CutOf(s: Span, given: seq<Span>)
  {
    exists g :: g in given && g.ref == s.ref && s.n <= g.n
  }

  lemma CutWithin(s: Span, given: seq<Span>, slabs: seq<seq<Edge>>)
    requires CutOf(s, given) && AllWithin(given, slabs)
    ensures s.n > 0 ==> Within(s, slabs)
  {
    var g :| g in given && g.ref == s.ref && s.n <= g.n;
    var i :| 0 <= i < |given| && given[i] == g;
  }

  lemma CutReads(g: Span, m: nat, slabs: seq<seq<Edge>>)
    requires m <= g.n && (g.n > 0 ==> Within(g, slabs))
    ensures (m > 0 ==> Within(g.(n := m), slabs)) && Read(g.(n := m), slabs) == Read(g, slabs)[..m]
  {
    if m > 0 {
      Front(slabs[SlabOf(g)], PosOf(g), g.n, m);
    }
  }

  lemma Front(slab: seq<Edge>, pos: nat, n: nat, m: nat)
    requires m <= n && pos + n <= |slab|
    ensures slab[pos..pos + n][..m] == slab[pos..pos + m]
  {
  }

  class Arena {
    var slabs: seq<seq<Edge>>
    /** Chunks waiting to be used again. */
    var pool: seq<Chunk>
    /** Every span that was ever given out. */
    ghost var given: seq<Span>

    constructor ()
      ensures Valid() && slabs == [] && pool == [] && given == []
    {
      slabs, pool, given := [], [], [];
    }

    ghost predicate Valid()
      reads this
    {
      Sound(slabs, pool, given)
    }

    /** at: the edges of a span that was given out, cut to what was recorded in it. */
    method At(s: Span) returns (edges: seq<Edge>)
      requires Valid() && CutOf(s, given)
      ensures s.n > 0 ==> Within(s, slabs)
      ensures edges == Read(s, slabs)
    {
      CutWithin(s, given, slabs);
      return if s.n == 0 then [] else slabs[SlabOf(s)][PosOf(s)..PosOf(s) + s.n];
    }

    /** newSlab: one more slab, and every slab there was stays where it was. */
    method NewSlab(n: nat) returns (k: nat)
      requires Valid()
      modifies this`slabs
      ensures Valid() && k == |old(slabs)| && |slabs| == k + 1 && slabs[..k] == old(slabs) && |slabs[k]| == n
    {
      hide Apart;
      k := |slabs|;
      slabs := slabs + [seq(n, _ => 0)];
    }

    /** A chunk with room for n edges: the one the pool gave back, or the start of a new slab. What is left of a chunk
        that is too small is dropped. */
    method NextChunk(n: nat, pick: Option<nat>) returns (c: Chunk)
      requires Valid() && n <= SlabSize && (pick.Some? ==> pick.value < |pool|)
      modifies this`slabs, this`pool
      ensures Valid() && Ahead(c, slabs, given) && c.used + n <= SlabSize && old(slabs) <= slabs
      ensures |slabs| <= |old(slabs)| + 1 && forall i | 0 <= i < |pool| :: pool[i].slab != c.slab
    {
      hide Apart;
      if pick.Some? {
        c := pool[pick.value];
        pool := pool[..pick.value] + pool[pick.value + 1..];
        if SlabSize - c.used >= n {
          return;
        }
      }
      assert AllWithin(given, slabs);
      var k := NewSlab(SlabSize);
      c := Chunk(k, 0);
    }

    /** alloc: room that no other span has. The pool may give back any chunk it holds, or none. */
    method Alloc(n: nat, pick: Option<nat>) returns (s: Span)
      requires Valid() && (pick.Some? ==> pick.value < |pool|)
      modifies this
      ensures Valid() && given == old(given) + [s] && s.n == n
      ensures old(slabs) <= slabs
      ensures forall t | t in old(given) :: Apart(s, t)
      ensures n > 0 ==> s !in old(given) && Within(s, slabs)
      ensures forall t | t in old(given) :: Read(t, slabs) == old(Read(t, slabs))
    {
      hide Apart, AllApart, AllWithin, Ahead;
      if n == 0 {
        s := Span(0, 0);
        GiveNothing(slabs, pool, given, s);
        given := given + [s];
        Survives(slabs, slabs, old(given), given, s);
        return;
      }
      if n > SlabSize {
        ghost var before := slabs;
        assert AllWithin(given, slabs);
        var k := NewSlab(n);
        s := Span(k * Half, n);
        GiveNew(before, slabs, pool, given, s);
        given := given + [s];
        Survives(old(slabs), slabs, old(given), given, s);
        return;
      }
      var c := NextChunk(n, pick);
      s := Span(c.slab * Half + c.used, n);
      GiveFrom(slabs, pool, given, c, s);
      given := given + [s];
      pool := pool + [c.(used := c.used + n)];
      Survives(old(slabs), slabs, old(given), given, s);
    }

    /** Writing the i-th edge of a span changes no other span. */
    method Write(s: Span, i: nat, e: Edge)
      requires Valid() && s in given && i < s.n
      modifies this`slabs
      ensures Valid() && |slabs| == |old(slabs)| && Within(s, slabs)
      ensures Read(s, slabs) == old(Read(s, slabs))[i := e]
      ensures forall t | t in given && t != s :: Read(t, slabs) == old(Read(t, slabs))
    {
      var k, at := SlabOf(s), PosOf(s) + i;
      var slab: seq<Edge> := slabs[k][at := e];
      slabs := slabs[k := slab];
    }
  }
}
