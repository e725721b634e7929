/** The whole object pass as its workers interleave: recording edges, looking names up and settling types in any order,
    and reading any recorded span back afterwards (internal/fsckcmd: objcheck.go, walk.go, connectivity.go). */
module EdgeHistory {
  import opened Bytes
  import opened ObjectTable
  import opened EdgeArena
  import opened EdgeCache

  /** An object whose edges are being recorded: its room in the arena and the links recorded so far. */
  datatype Recorded = Recorded(room: Span, links: seq<Link>)
  {
    /** What recordEdges keeps: the room, cut to what is in it. */
    function Span(): Span { room.(n := |links|) }
  }

  /** One step of some worker: a lookup for its own purposes, a type set on an entry, the start of an object's edges,
      or the next link of an object that was started. */
  datatype Task =
    | Look(oid: Oid, want: int)
    | Settle(i: nat, typ: int)
    | Begin(n: nat, pick: Option<nat>)
    | Record(obj: nat, link: Link)

  /** The object's span is in the arena, and its edges agree with the table as it stands. */
  ghost predicate ObjectOk(k: Known, slabs: seq<seq<Edge>>, given: seq<Span>, r: Recorded)
  {
    && r.room in given && |r.links| <= r.room.n && (r.room.n > 0 ==> Within(r.room, slabs))
    && (forall i | 0 <= i < |r.links| :: r.links[i].Valid())
    && AllAgree(k, r.links, Read(r.room, slabs)[..|r.links|])
  }

  /** Every object is in order, and no two share their room. */
  ghost predicate AllObjects(k: Known, slabs: seq<seq<Edge>>, given: seq<Span>, objects: seq<Recorded>)
  {
    && (forall j | 0 <= j < |objects| :: ObjectOk(k, slabs, given, objects[j]))
    && forall i, j | 0 <= i < j < |objects| && objects[i].room.n > 0 :: objects[i].room != objects[j].room
  }

  /** An object stays in order while the table grows and its room is left alone. */
  lemma ObjectStays(k: Known, k': Known, slabs: seq<seq<Edge>>, slabs': seq<seq<Edge>>, given: seq<Span>,
                    given': seq<Span>, r: Recorded)
    requires ObjectOk(k, slabs, given, r) && Grew(k, k') && given <= given'
    requires r.room.n > 0 ==> Within(r.room, slabs')
    requires Read(r.room, slabs') == Read(r.room, slabs)
    ensures ObjectOk(k', slabs', given', r)
  {
    hide Agrees, Grew, Within, Read;
    AllAgreeLater(k, k', r.links, Read(r.room, slabs)[..|r.links|]);
  }

  /** Steps that write no edge. */
  lemma AllStay(k: Known, k': Known, slabs: seq<seq<Edge>>, slabs': seq<seq<Edge>>, given: seq<Span>,
                given': seq<Span>, objects: seq<Recorded>)
    requires AllObjects(k, slabs, given, objects) && Grew(k, k') && given <= given'
    requires AllWithin(given, slabs) && AllWithin(given', slabs')
    requires forall s | s in given :: Read(s, slabs') == Read(s, slabs)
    ensures AllObjects(k', slabs', given', objects)
  {
    hide ObjectOk, Grew, Read;
    forall j | 0 <= j < |objects|
      ensures ObjectOk(k', slabs', given', objects[j])
    {
      RoomGiven(k, slabs, given, objects[j]);
      ObjectStays(k, k', slabs, slabs', given, given', objects[j]);
    }
  }

  lemma RoomGiven(k: Known, slabs: seq<seq<Edge>>, given: seq<Span>, r: Recorded)
    requires ObjectOk(k, slabs, given, r)
    ensures r.room in given && |r.links| <= r.room.n
  {
  }

  /** One more link of object j, written into its own room: the other objects' rooms read as before. */
  lemma OneMore(k: Known, k': Known, slabs: seq<seq<Edge>>, slabs': seq<seq<Edge>>, given: seq<Span>,
                objects: seq<Recorded>, j: nat, l: Link, e: Edge)
    requires AllObjects(k, slabs, given, objects) && Grew(k, k') && j < |objects| && l.Valid()
    requires AllWithin(given, slabs) && AllWithin(given, slabs')
    requires |objects[j].links| < objects[j].room.n && objects[j].room in given
    requires Read(objects[j].room, slabs') == Read(objects[j].room, slabs)[|objects[j].links| := e] && Agrees(k', l, e)
    requires forall s | s in given && s != objects[j].room :: Read(s, slabs') == Read(s, slabs)
    ensures AllObjects(k', slabs', given, objects[j := objects[j].(links := objects[j].links + [l])])
  {
    hide Agrees, Grew, Read, Within, ObjectOk;
    var r' := objects[j].(links := objects[j].links + [l]);
    var objects' := objects[j := r'];
    forall i | 0 <= i < |objects'|
      ensures ObjectOk(k', slabs', given, objects'[i])
    {
      assert ObjectOk(k, slabs, given, objects[i]);
      RoomGiven(k, slabs, given, objects[i]);
      if i == j {
        ObjectGrows(k, k', slabs, slabs', given, objects[j], l, e);
      } else {
        assert objects[i].room.n > 0 ==> objects[i].room != objects[j].room;
        NoRoom(objects[i].room, slabs, slabs');
        ObjectStays(k, k', slabs, slabs', given, given, objects[i]);
      }
    }
  }

  lemma NoRoom(s: Span, slabs: seq<seq<Edge>>, slabs': seq<seq<Edge>>)
    ensures s.n == 0 ==> Read(s, slabs) == Read(s, slabs')
  {
  }

  lemma ObjectGrows(k: Known, k': Known, slabs: seq<seq<Edge>>, slabs': seq<seq<Edge>>, given: seq<Span>, r: Recorded,
                    l: Link, e: Edge)
    requires ObjectOk(k, slabs, given, r) && Grew(k, k') && l.Valid() && |r.links| < r.room.n
    requires Within(r.room, slabs') && Read(r.room, slabs') == Read(r.room, slabs)[|r.links| := e] && Agrees(k', l, e)
    ensures ObjectOk(k', slabs', given, r.(links := r.links + [l]))
  {
    hide Agrees, Grew, Within;
    var edges := Read(r.room, slabs)[..|r.links|];
    AllAgreeLater(k, k', r.links, edges);
    assert Read(r.room, slabs')[..|r.links| + 1] == edges + [e];
  }

  // ---------- what the tasks ask for ----------

  /** The room and the links of one object, in order. */
  datatype Plan = Plan(n: nat, links: seq<Link>)

  /** The table and the objects, without the places that the arena found for them. */
  datatype Ran = Ran(table: Known, plans: seq<Plan>)

  ghost function Plans(objects: seq<Recorded>): (r: seq<Plan>)
    ensures |r| == |objects|
  {
    seq(|objects|, i requires 0 <= i < |objects| => Plan(objects[i].room.n, objects[i].links))
  }

  /** Whether a link can be recorded: the object was started, the link is one, and there is room left. */
  ghost predicate Takes(plans: seq<Plan>, obj: nat, l: Link)
  {
    obj < |plans| && l.Valid() && |plans[obj].links| < plans[obj].n
  }

  ghost function Next(r: Ran, task: Task): (r': Ran)
    requires r.table.Valid()
    ensures r'.table.Valid()
  {
    match task
    case Look(oid, want) =>
      LookedIsValid(r.table, oid, want);
      r.(table := Looked(r.table, oid, want).0)
    case Settle(i, typ) => if i < |r.table.types| then r.(table := Typed(r.table, i, typ)) else r
    case Begin(n, _) => r.(plans := r.plans + [Plan(n, [])])
    case Record(obj, l) =>
      if Takes(r.plans, obj, l) then
        LookedIsValid(r.table, l.oid, l.typ);
        Ran(Looked(r.table, l.oid, l.typ).0,
            r.plans[obj := r.plans[obj].(links := r.plans[obj].links + [l])])
      else r
  }

  /** Every task in turn. */
  ghost function RanAll(k: Known, tasks: seq<Task>): (r: Ran)
    requires k.Valid()
    ensures r.table.Valid()
  {
    if tasks == [] then Ran(k, []) else Next(RanAll(k, tasks[..|tasks| - 1]), tasks[|tasks| - 1])
  }

  /** How many objects were started. */
  ghost function Begun(tasks: seq<Task>): nat
  {
    if tasks == [] then 0
    else Begun(tasks[..|tasks| - 1]) + if tasks[|tasks| - 1].Begin? then 1 else 0
  }

  /** The links that were sent for object j once it was started, in order. */
  ghost function Sent(tasks: seq<Task>, j: nat): seq<Link>
  {
    if tasks == [] then []
    else
      var front, last := tasks[..|tasks| - 1], tasks[|tasks| - 1];
      Sent(front, j)
      + if last.Record? && last.obj == j && j < Begun(front) && last.link.Valid() then [last.link] else []
  }

  function Front(links: seq<Link>, n: nat): seq<Link> { if |links| <= n then links else links[..n] }

  /** The objects are those that were started, with the links that were sent for each, as many as its room takes. */
  lemma {:induction false} PlansAreSent(k: Known, tasks: seq<Task>)
    requires k.Valid()
    ensures var plans := RanAll(k, tasks).plans;
            && |plans| == Begun(tasks)
            && forall j | 0 <= j < |plans| :: plans[j].links == Front(Sent(tasks, j), plans[j].n)
    decreases |tasks|
  {
    hide Known.Valid, Looked;
    if tasks != [] {
      var m := |tasks| - 1;
      PlansAreSent(k, tasks[..m]);
      if tasks[m].Begin? {
        NoneSentBefore(tasks[..m], Begun(tasks[..m]));
      }
    }
  }

  /** Each object keeps the room that it was started with. */
  lemma {:induction false} RoomIsAsked(k: Known, tasks: seq<Task>, i: nat)
    requires k.Valid() && i < |tasks| && tasks[i].Begin?
    ensures var plans, j := RanAll(k, tasks).plans, Begun(tasks[..i]); j < |plans| && plans[j].n == tasks[i].n
    decreases |tasks|
  {
    hide Known.Valid, Looked;
    var m := |tasks| - 1;
    if i < m {
      RoomIsAsked(k, tasks[..m], i);
      assert tasks[..m][..i] == tasks[..i];
    } else {
      PlansAreSent(k, tasks[..m]);
    }
  }

  lemma {:induction false} NoneSentBefore(tasks: seq<Task>, j: nat)
    requires Begun(tasks) <= j
    ensures Sent(tasks, j) == []
    decreases |tasks|
  {
    if tasks != [] {
      NoneSentBefore(tasks[..|tasks| - 1], j);
    }
  }

  /** A task names an object: it looks the name up, or it records a link to it. */
  ghost predicate Names(plans: seq<Plan>, task: Task, oid: Oid)
  {
    (task.Look? && task.oid == oid) || (task.Record? && task.link.oid == oid && Takes(plans, task.obj, task.link))
  }

  ghost predicate NamedAt(k: Known, tasks: seq<Task>, i: nat, oid: Oid)
    requires k.Valid() && i < |tasks|
  {
    Names(RanAll(k, tasks[..i]).plans, tasks[i], oid)
  }

  /** The names in the table are those that were in it and those that some task named. */
  lemma {:induction false} NamesAreAsked(k: Known, tasks: seq<Task>, oid: Oid)
    requires k.Valid()
    ensures oid in RanAll(k, tasks).table.names
            <==> oid in k.names || exists i: nat :: i < |tasks| && NamedAt(k, tasks, i, oid)
    decreases |tasks|
  {
    hide Known.Valid, Names, Next;
    if tasks != [] {
      var m := |tasks| - 1;
      NamesAreAsked(k, tasks[..m], oid);
      NextNames(RanAll(k, tasks[..m]), tasks[m], oid);
      assert NamedAt(k, tasks, m, oid) <==> Names(RanAll(k, tasks[..m]).plans, tasks[m], oid);
      forall i: nat | i < m
        ensures NamedAt(k, tasks[..m], i, oid) <==> NamedAt(k, tasks, i, oid)
      {
        assert tasks[..m][..i] == tasks[..i];
      }
      hide NamedAt;
    }
  }

  lemma NextNames(r: Ran, task: Task, oid: Oid)
    requires r.table.Valid()
    ensures oid in Next(r, task).table.names <==> oid in r.table.names || Names(r.plans, task, oid)
  {
  }

  /** An entry that is given a type keeps the first one that it was given. */
  lemma {:induction false} SettledStays(k: Known, tasks: seq<Task>, i: nat)
    requires k.Valid() && i < |tasks| && tasks[i].Settle?
    ensures var e, before, after := tasks[i].i, RanAll(k, tasks[..i]).table.types, RanAll(k, tasks).table.types;
            e < |before| ==>
              && e < |after|
              && (before[e] != TypeNone ==> after[e] == before[e])
              && (before[e] == TypeNone && tasks[i].typ != TypeNone ==> after[e] == tasks[i].typ)
    decreases |tasks|
  {
    hide Known.Valid, Looked, Grew;
    var m := |tasks| - 1;
    NextGrows(RanAll(k, tasks[..m]), tasks[m]);
    if i < m {
      SettledStays(k, tasks[..m], i);
      assert tasks[..m][..i] == tasks[..i];
    }
    GrewMeans(RanAll(k, tasks[..m]).table, RanAll(k, tasks).table);
  }

  lemma NextGrows(r: Ran, task: Task)
    requires r.table.Valid()
    ensures Grew(r.table, Next(r, task).table)
  {
    hide Grew, Looked, Known.Valid;
    GrewFrom(r.table);
    match task
    case Look(oid, want) => LookedGrows(r.table, oid, want);
    case Settle(i, typ) => if i < |r.table.types| { TypedGrows(r.table, i, typ); }
    case Begin(_, _) =>
    case Record(_, l) => LookedGrows(r.table, l.oid, l.typ);
  }

  lemma GrewMeans(k: Known, k': Known)
    requires Grew(k, k')
    ensures |k.types| <= |k'.types|
    ensures forall i | 0 <= i < |k.types| && k.types[i] != TypeNone :: k'.types[i] == k.types[i]
  {
  }

  /** A run of the workers: any steps in any order. While the table has room, the objects are those that the tasks ask
      for, with their links in order, and the table holds what they looked up and settled. Whatever came after an
      object was recorded, its span reads as one edge for each of its links, each saying what looking that link up again
      would say. */
  method Run(t: Table, a: Arena, tasks: seq<Task>) returns (objects: seq<Recorded>)
    requires t.Valid() && a.Valid()
    modifies t, a
    ensures t.Valid() && a.Valid() && Grew(old(t.View()), t.View())
    ensures t.created <= MaxIndex ==> Ran(t.View(), Plans(objects)) == RanAll(old(t.View()), tasks)
    ensures AllObjects(t.View(), a.slabs, a.given, objects)
  {
    hide AllObjects, Grew, ShardOk, Laid, Known.Valid, Sound, Next;
    GrewFrom(t.View());
    objects := [];
    NoObjects(t.View(), a.slabs, a.given);
    for i := 0 to |tasks|
      invariant t.Valid() && a.Valid() && Grew(old(t.View()), t.View())
      invariant t.created <= MaxIndex ==> Ran(t.View(), Plans(objects)) == RanAll(old(t.View()), tasks[..i])
      invariant AllObjects(t.View(), a.slabs, a.given, objects)
    {
      ghost var k := t.View();
      objects := RunOne(t, a, tasks[i], objects);
      GrewTransitive(old(t.View()), k, t.View());
      GrewSize(k, t.View());
      assert tasks[..i + 1][..i] == tasks[..i];
    }
    assert tasks[..|tasks|] == tasks;
  }

  lemma NoObjects(k: Known, slabs: seq<seq<Edge>>, given: seq<Span>)
    ensures AllObjects(k, slabs, given, [])
  {
  }

  /** An object whose edges are about to be recorded joins the others. */
  lemma OneObject(k: Known, slabs: seq<seq<Edge>>, slabs': seq<seq<Edge>>, given: seq<Span>, objects: seq<Recorded>,
                  full: Span)
    requires AllObjects(k, slabs, given, objects) && Grew(k, k) && AllWithin(given, slabs)
    requires AllWithin(given, slabs') && AllWithin(given + [full], slabs')
    requires full.n > 0 ==> full !in given && Within(full, slabs')
    requires forall s | s in given :: Read(s, slabs') == Read(s, slabs)
    ensures AllObjects(k, slabs', given + [full], objects + [Recorded(full, [])])
  {
    hide Grew, Read, Agrees, ObjectOk;
    AllStay(k, k, slabs, slabs', given, given + [full], objects);
    NewObject(k, slabs', given + [full], full);
    forall j | 0 <= j < |objects| && objects[j].room.n > 0
      ensures objects[j].room != full
    {
      RoomGiven(k, slabs, given, objects[j]);
    }
  }

  lemma NewObject(k: Known, slabs: seq<seq<Edge>>, given: seq<Span>, full: Span)
    requires full in given && (full.n > 0 ==> Within(full, slabs))
    ensures ObjectOk(k, slabs, given, Recorded(full, []))
  {
  }

  lemma TypedGrows(k: Known, i: nat, typ: int)
    requires k.Valid() && i < |k.types|
    ensures Grew(k, Typed(k, i, typ))
  {
  }

  /** One step of one worker. The pool may give a chunk back, or none. */
  method RunOne(t: Table, a: Arena, task: Task, objects0: seq<Recorded>) returns (objects: seq<Recorded>)
    requires t.Valid() && a.Valid() && AllObjects(t.View(), a.slabs, a.given, objects0)
    modifies t, a
    ensures t.Valid() && a.Valid() && Grew(old(t.View()), t.View())
    ensures t.created <= MaxIndex ==>
              Ran(t.View(), Plans(objects)) == Next(Ran(old(t.View()), Plans(objects0)), task)
    ensures AllObjects(t.View(), a.slabs, a.given, objects)
  {
    hide AllObjects, Grew, Read, Agrees, Looked, AllApart, Ahead, Laid, ShardOk, ObjectOk, Known.Valid;
    ghost var k := t.View();
    GrewFrom(k);
    objects := objects0;
    match task {
      case Look(oid, want) =>
        LookedGrows(k, oid, want);
        var _ := t.Lookup(oid, want);
        AllStay(k, t.View(), a.slabs, a.slabs, a.given, a.given, objects);
      case Settle(i, typ) =>
        if i < t.created {
          TypedGrows(k, i, typ);
          t.SetType(i, typ);
          AllStay(k, t.View(), a.slabs, a.slabs, a.given, a.given, objects);
        }
      case Begin(n, pick) =>
        ghost var slabs, given := a.slabs, a.given;
        var full := a.Alloc(n, if pick.Some? && pick.value < |a.pool| then pick else None);
        OneObject(k, slabs, a.slabs, given, objects, full);
        objects := objects + [Recorded(full, [])];
        assert Plans(objects) == Plans(objects0) + [Plan(n, [])];
      case Record(obj, link) =>
        objects := RecordLink(t, a, obj, link, objects);
    }
  }

  /** The next link of an object that was started: a lookup, and its edge in the object's own room. */
  method RecordLink(t: Table, a: Arena, obj: nat, l: Link, objects0: seq<Recorded>) returns (objects: seq<Recorded>)
    requires t.Valid() && a.Valid() && AllObjects(t.View(), a.slabs, a.given, objects0)
    modifies t, a`slabs
    ensures t.Valid() && a.Valid() && Grew(old(t.View()), t.View())
    ensures t.created <= MaxIndex ==>
              Ran(t.View(), Plans(objects)) == Next(Ran(old(t.View()), Plans(objects0)), Record(obj, l))
    ensures AllObjects(t.View(), a.slabs, a.given, objects)
  {
    hide Grew, Read, Agrees, Looked, AllApart, Ahead, Laid, ShardOk, ObjectOk, Known.Valid, Within;
    ghost var k, slabs := t.View(), a.slabs;
    objects := objects0;
    GrewFrom(k);
    if obj >= |objects| || !l.Valid() {
      return;
    }
    RoomGiven(k, slabs, a.given, objects[obj]);
    var r := objects[obj];
    if |r.links| >= r.room.n {
      return;
    }
    var e, ok := RecordOne(t, a, r.room, |r.links|, l);
    if ok {
      OneMore(k, t.View(), slabs, a.slabs, a.given, objects, obj, l, e);
      objects := objects[obj := r.(links := r.links + [l])];
      assert Plans(objects) == Plans(objects0)[obj := Plan(r.room.n, r.links + [l])];
    } else {
      AllStay(k, t.View(), slabs, slabs, a.given, a.given, objects);
    }
  }

  /** What the connectivity walk gets from a recorded object: for every link the very answer that looking it up again
      would give, with the type that it implies, and without a change to the table. */
  method Replay(t: Table, a: Arena, r: Recorded) returns (answers: seq<Answer>, types: seq<int>)
    requires t.Valid() && a.Valid() && ObjectOk(t.View(), a.slabs, a.given, r)
    ensures |answers| == |types| == |r.links|
    ensures forall i | 0 <= i < |r.links| ::
              types[i] == r.links[i].typ && Looked(t.View(), r.links[i].oid, r.links[i].typ) == (t.View(), answers[i])
  {
    hide Looked, Laid, ShardOk, Known.Valid, Sound, EdgeOk, Agrees, AllAgree, Read, Within, EntryAt, PowerOfTwo;
    SpanReads(t.View(), a.slabs, a.given, r);
    var edges := a.At(r.Span());
    answers, types := [], [];
    for i := 0 to |edges|
      invariant |answers| == |types| == i
      invariant forall j | 0 <= j < i ::
                  types[j] == r.links[j].typ
                      && Looked(t.View(), r.links[j].oid, r.links[j].typ) == (t.View(), answers[j])
    {
      var e := edges[i];
      AgreesMeans(t.View(), r.links[i], e);
      if EdgeOk(e) {
        var typ := t.TypeAt(e);
        answers, types := answers + [Resolved(e)], types + [typ];
      } else {
        answers, types := answers + [Refused], types + [EdgeType(e)];
      }
    }
  }

  /** An object's span is in the arena, and every edge it reads as agrees. */
  lemma SpanReads(k: Known, slabs: seq<seq<Edge>>, given: seq<Span>, r: Recorded)
    requires ObjectOk(k, slabs, given, r)
    ensures CutOf(r.Span(), given) && (r.Span().n > 0 ==> Within(r.Span(), slabs))
    ensures |Read(r.Span(), slabs)| == |r.links|
    ensures forall i | 0 <= i < |r.links| :: Agrees(k, r.links[i], Read(r.Span(), slabs)[i])
  {
    hide Agrees, Read, Within;
    CutReads(r.room, |r.links|, slabs);
  }

  lemma AgreesMeans(k: Known, l: Link, e: Edge)
    requires Agrees(k, l, e)
    ensures k.Valid() && Looked(k, l.oid, l.typ) == (k, if EdgeOk(e) then Resolved(e) else Refused)
    ensures if EdgeOk(e) then e < |k.names| && e < |k.types| && k.types[e] == l.typ else EdgeType(e) == l.typ
  {
    hide Looked;
  }
}
