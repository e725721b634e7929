/** Edges recorded once stand in for reading an object again (objcheck.go, walk.go and connectivity.go of
    internal/fsckcmd). */
module EdgeCache {
  import opened Bytes
  import opened ObjectTable
  import opened EdgeArena

  const Unresolved: nat := 0x8000_0000

  /** What an object points at. The link walk knows commits, trees, blobs and tags only. */
  datatype Link = Link(oid: Oid, typ: int)
  {
    predicate Valid() { 1 <= typ <= 4 }
  }

  function MakeEdge(target: nat, resolved: bool, typ: int): Edge
  {
    if !resolved then Unresolved + typ % 16 else target
  }

  predicate EdgeOk(e: Edge) { e / Unresolved % 2 == 0 }

  function EdgeType(e: Edge): int { e % 16 }

  function EdgeOf(a: Answer, l: Link): Edge
  {
    match a
    case Resolved(idx) => MakeEdge(idx, true, l.typ)
    case Refused => MakeEdge(0, false, l.typ)
  }

  // ---------- how a table may change ----------

  /** Names are only added, and a type once set stays. */
  ghost predicate Grew(k: Known, k': Known)
  {
    && k.Valid() && k'.Valid() && k.names <= k'.names
    && forall i | 0 <= i < |k.types| && k.types[i] != TypeNone :: k'.types[i] == k.types[i]
  }

  /** One step of any worker: a lookup of any name, or a type set on any entry. */
  ghost predicate Step(k: Known, k': Known)
    requires k.Valid()
  {
    || (exists oid: Oid, want: int :: k' == Looked(k, oid, want).0)
    || (exists i: nat, t: int :: i < |k.types| && k' == Typed(k, i, t))
  }

  ghost function Typed(k: Known, i: nat, t: int): Known
    requires i < |k.types|
  {
    if k.types[i] == TypeNone then k.(types := k.types[i := t]) else k
  }

  lemma StepGrows(k: Known, k': Known)
    requires k.Valid() && Step(k, k')
    ensures Grew(k, k')
  {
    if oid: Oid, want: int :| k' == Looked(k, oid, want).0 {
      LookedGrows(k, oid, want);
    }
  }

  lemma LookedGrows(k: Known, oid: Oid, want: int)
    requires k.Valid()
    ensures Grew(k, Looked(k, oid, want).0)
  {
  }

  lemma GrewTransitive(a: Known, b: Known, c: Known)
    requires Grew(a, b) && Grew(b, c)
    ensures Grew(a, c)
  {
    assert forall i | 0 <= i < |a.types| && a.types[i] != TypeNone :: b.types[i] == a.types[i];
  }

  /** Whatever the workers do, in any order, the table only grows. */
  lemma {:induction false} RunGrows(run: seq<Known>)
    requires run != [] && run[0].Valid()
    requires forall n | 0 < n < |run| :: run[n - 1].Valid() ==> Step(run[n - 1], run[n])
    ensures Grew(run[0], run[|run| - 1])
    decreases |run|
  {
    var n := |run| - 1;
    if n > 0 {
      RunGrows(run[..n]);
      StepGrows(run[n - 1], run[n]);
      GrewTransitive(run[0], run[n - 1], run[n]);
    }
  }

  // ---------- an edge says what a lookup would ----------

  /** Replaying the edge and looking the link up again come to the same, and the lookup changes nothing: the same
      target, with the type the link implies, or the same refusal of the same type. */
  ghost predicate Agrees(k: Known, l: Link, e: Edge)
  {
    && k.Valid()
    && Looked(k, l.oid, l.typ) == (k, if EdgeOk(e) then Resolved(e) else Refused)
    && if EdgeOk(e) then e < |k.names| && k.names[e] == l.oid && k.types[e] == l.typ else EdgeType(e) == l.typ
  }

  /** The edge that a lookup records agrees with the table from then on. */
  lemma RecordedAgrees(k: Known, l: Link)
    requires k.Valid() && l.Valid() && |k.names| <= MaxIndex + 1 && (k.Has(l.oid) || |k.names| <= MaxIndex)
    ensures var (k', a) := Looked(k, l.oid, l.typ);
            Agrees(k', l, EdgeOf(a, l))
  {
  }

  lemma AgreesLater(k: Known, k': Known, l: Link, e: Edge)
    requires l.Valid() && Agrees(k, l, e) && Grew(k, k')
    ensures Agrees(k', l, e)
  {
  }

  /** Record an edge, let any workers do anything, and replay it: it says what a lookup would say then. */
  lemma ReplayIsExact(k: Known, l: Link, run: seq<Known>)
    requires k.Valid() && l.Valid() && |k.names| <= MaxIndex + 1 && (k.Has(l.oid) || |k.names| <= MaxIndex)
    requires run != [] && run[0] == Looked(k, l.oid, l.typ).0
    requires forall n | 0 < n < |run| :: run[n - 1].Valid() ==> Step(run[n - 1], run[n])
    ensures Agrees(run[|run| - 1], l, EdgeOf(Looked(k, l.oid, l.typ).1, l))
  {
    hide Looked, Step, EdgeOf, Agrees, Grew;
    LookedIsValid(k, l.oid, l.typ);
    RecordedAgrees(k, l);
    RunGrows(run);
    AgreesLater(run[0], run[|run| - 1], l, EdgeOf(Looked(k, l.oid, l.typ).1, l));
  }

  ghost predicate AllAgree(k: Known, links: seq<Link>, edges: seq<Edge>)
  {
    |edges| <= |links| && forall i | 0 <= i < |edges| :: Agrees(k, links[i], edges[i])
  }

  lemma AllAgreeNext(k: Known, k': Known, links: seq<Link>, edges: seq<Edge>, e: Edge)
    requires AllAgree(k, links, edges) && Grew(k, k') && forall i | 0 <= i < |links| :: links[i].Valid()
    requires |edges| < |links| && Agrees(k', links[|edges|], e)
    ensures AllAgree(k', links, edges + [e])
  {
    hide Agrees, Grew;
    AllAgreeLater(k, k', links, edges);
  }

  lemma AllAgreeLater(k: Known, k': Known, links: seq<Link>, edges: seq<Edge>)
    requires AllAgree(k, links, edges) && Grew(k, k') && forall i | 0 <= i < |links| :: links[i].Valid()
    ensures AllAgree(k', links, edges)
  {
    hide Agrees, Grew;
    forall i | 0 <= i < |edges|
      ensures Agrees(k', links[i], edges[i])
    {
      AgreesLater(k, k', links[i], edges[i]);
    }
  }

  /** The table after looking up every link in turn. */
  ghost function AllLooked(k: Known, links: seq<Link>): (r: Known)
    requires k.Valid()
    ensures r.Valid()
  {
    if links == [] then k
    else
      var l := links[|links| - 1];
      var before := AllLooked(k, links[..|links| - 1]);
      LookedIsValid(before, l.oid, l.typ);
      Looked(before, l.oid, l.typ).0
  }

  lemma AllLookedStep(k: Known, links: seq<Link>, i: nat)
    requires k.Valid() && i < |links|
    ensures AllLooked(k, links[..i + 1]) == Looked(AllLooked(k, links[..i]), links[i].oid, links[i].typ).0
  {
    hide Looked;
    assert links[..i + 1][..i] == links[..i];
  }

  /** Look one link up and write its edge into the i-th place of a span. It fails only when the table is full. */
  method RecordOne(t: Table, a: Arena, full: Span, i: nat, l: Link) returns (e: Edge, ok: bool)
    requires t.Valid() && a.Valid() && full in a.given && i < full.n && l.Valid()
    modifies t, a`slabs
    ensures t.Valid() && a.Valid() && Within(full, a.slabs)
    ensures Grew(old(t.View()), t.View()) && (ok ==> Agrees(t.View(), l, e))
    ensures ok <==> old(t.View().Has(l.oid)) || old(t.created) <= MaxIndex
    ensures !ok ==> t.View() == old(t.View()) && t.created > MaxIndex
    ensures ok ==> t.View() == old(Looked(t.View(), l.oid, l.typ).0)
    ensures ok ==> Read(full, a.slabs) == old(Read(full, a.slabs))[i := e]
    ensures !ok ==> a.slabs == old(a.slabs)
    ensures forall s | s in a.given && s != full :: Read(s, a.slabs) == old(Read(s, a.slabs))
  {
    hide Looked, Agrees, Grew, Apart;
    ghost var k := t.View();
    e := 0;
    GrewFrom(k);
    var ans := t.Lookup(l.oid, l.typ);
    ok := ans.Some?;
    if ok {
      RecordedAgrees(k, l);
      LookedGrows(k, l.oid, l.typ);
      e := EdgeOf(ans.value, l);
      a.Write(full, i, e);
    }
  }

  /** The edge recording of checkObject and treeEdges: room for `room` edges, a lookup for every link, and a span cut
      to what was recorded. It fails only when the table is full. Afterwards the span reads as edges that agree with the
      table, link by link; the table holds what the links looked up; and every span given out before reads as it did. */
  method RecordEdges(t: Table, a: Arena, links: seq<Link>, room: nat, pick: Option<nat>)
    returns (span: Span, broken: bool, ok: bool)
    requires t.Valid() && a.Valid() && |links| <= room && forall i | 0 <= i < |links| :: links[i].Valid()
    requires pick.Some? ==> pick.value < |a.pool|
    modifies t, a
    ensures t.Valid() && a.Valid() && Grew(old(t.View()), t.View())
    ensures forall s | s in old(a.given) :: s in a.given && Read(s, a.slabs) == old(Read(s, a.slabs))
    ensures CutOf(span, a.given) && (span.n > 0 ==> Within(span, a.slabs))
    ensures !ok ==> t.created > MaxIndex
    ensures ok ==> t.View() == AllLooked(old(t.View()), links)
    ensures ok ==> span.n == |links| && AllAgree(t.View(), links, Read(span, a.slabs))
    ensures ok ==> (broken <==> exists i :: 0 <= i < |links| && !EdgeOk(Read(span, a.slabs)[i]))
  {
    hide Agrees, Grew, Known.Valid, Looked, Apart, AllApart, Ahead, ShardOk, Laid, EdgeOk, PowerOfTwo;
    hide AllLooked, AllAgree;
    var full := a.Alloc(room, pick);
    ghost var slabs := a.slabs;
    broken, ok := RecordInto(t, a, full, links);
    FrontWithin(old(a.given), full, slabs);
    FrontWithin(old(a.given), full, a.slabs);
    KeptBefore(old(a.slabs), slabs, a.slabs, old(a.given), full);
    if !ok {
      return full, broken, false;
    }
    CutReads(full, |links|, a.slabs);
    return full.(n := |links|), broken, true;
  }

  lemma FrontWithin(given: seq<Span>, full: Span, slabs: seq<seq<Edge>>)
    requires AllWithin(given + [full], slabs)
    ensures AllWithin(given, slabs)
  {
    assert forall i | 0 <= i < |given| :: (given + [full])[i] == given[i];
  }

  /** Spans that were there before the room was given out read as before. */
  lemma KeptBefore(slabs0: seq<seq<Edge>>, slabs1: seq<seq<Edge>>, slabs2: seq<seq<Edge>>, given: seq<Span>, full: Span)
    requires AllWithin(given, slabs0) && AllWithin(given, slabs1) && AllWithin(given, slabs2)
    requires forall s | s in given :: Read(s, slabs1) == Read(s, slabs0)
    requires forall s | s in given && s != full :: Read(s, slabs2) == Read(s, slabs1)
    requires full.n > 0 ==> full !in given
    ensures forall s | s in given :: Read(s, slabs2) == Read(s, slabs0)
  {
  }

  /** A lookup and an edge for every link, one after another, into the front of a span. */
  method RecordInto(t: Table, a: Arena, full: Span, links: seq<Link>) returns (broken: bool, ok: bool)
    requires t.Valid() && a.Valid() && full in a.given && |links| <= full.n
    requires forall i | 0 <= i < |links| :: links[i].Valid()
    modifies t, a`slabs
    ensures t.Valid() && a.Valid() && (full.n > 0 ==> Within(full, a.slabs)) && Grew(old(t.View()), t.View())
    ensures forall s | s in a.given && s != full :: Read(s, a.slabs) == old(Read(s, a.slabs))
    ensures !ok ==> t.created > MaxIndex
    ensures ok ==> t.View() == AllLooked(old(t.View()), links)
    ensures ok ==> AllAgree(t.View(), links, Read(full, a.slabs)[..|links|])
    ensures ok ==> (broken <==> exists i :: 0 <= i < |links| && !EdgeOk(Read(full, a.slabs)[i]))
  {
    hide Agrees, Grew, Known.Valid, Looked, Apart, AllApart, Ahead, ShardOk, Laid, EdgeOk, PowerOfTwo;
    hide AllLooked, Within;
    ghost var k0 := t.View();
    GrewFrom(k0);
    NoneLooked(k0);
    broken := false;
    ghost var edges: seq<Edge> := [];
    for i := 0 to |links|
      invariant t.Valid() && a.Valid() && Grew(k0, t.View()) && t.View() == AllLooked(k0, links[..i])
      invariant |edges| == i && AllAgree(t.View(), links, edges)
      invariant (full.n > 0 ==> Within(full, a.slabs)) && Read(full, a.slabs)[..i] == edges
      invariant forall s | s in a.given && s != full :: Read(s, a.slabs) == old(Read(s, a.slabs))
      invariant broken <==> exists j :: 0 <= j < i && !EdgeOk(edges[j])
    {
      ghost var k := t.View();
      var e;
      e, ok := RecordOne(t, a, full, i, links[i]);
      GrewTransitive(k0, k, t.View());
      if !ok {
        return broken, false;
      }
      AllAgreeNext(k, t.View(), links, edges, e);
      AllLookedStep(k0, links, i);
      edges := edges + [e];
      broken := broken || !EdgeOk(e);
    }
    assert links[..|links|] == links;
    return broken, true;
  }

  lemma NoneLooked(k: Known)
    requires k.Valid()
    ensures AllLooked(k, []) == k
  {
  }

  lemma GrewSize(k: Known, k': Known)
    requires Grew(k, k')
    ensures |k.names| <= |k'.names|
  {
  }

  lemma GrewFrom(k: Known)
    requires k.Valid()
    ensures Grew(k, k)
  {
  }
}
