/** When an undo loses a file: exactly when it comes to a name whose places in the store, in the repository and under
    "replaced" are all taken (internal/repair/quarantine.go). */
module QuarantineLoss {
  import opened Bytes
  import opened Quarantine

  // ---------- counting copies ----------

  ghost function Places(files: Files, c: Content): set<Path>
  {
    set p | p in files && files[p] == c
  }

  ghost function Copies(files: Files, c: Content): nat { |Places(files, c)| }

  /** As many files of every content as before: none was overwritten. */
  ghost predicate Keeps(files: Files, files': Files)
  {
    forall c :: Copies(files', c) == Copies(files, c)
  }

  /** A move loses one copy of what stood where it goes, and nothing else. */
  lemma RenamedCopies(files: Files, from: Path, to: Path, c: Content)
    requires from in files && from != to
    ensures Copies(Renamed(files, from, to), c) == Copies(files, c) - if to in files && files[to] == c then 1 else 0
  {
    var was, now := Places(files, c), Places(Renamed(files, from, to), c);
    RenamedPlaces(files, from, to, c);
    Sizes(was, from, to);
  }

  lemma RenamedPlaces(files: Files, from: Path, to: Path, c: Content)
    requires from in files && from != to
    ensures from in Places(files, c) <==> files[from] == c
    ensures to in Places(files, c) <==> to in files && files[to] == c
    ensures Places(Renamed(files, from, to), c)
              == if files[from] == c then Places(files, c) - {from} + {to} else Places(files, c) - {to}
  {
    var now := Renamed(files, from, to);
    forall p
      ensures p in now <==> p == to || (p in files && p != from)
      ensures p in now ==> now[p] == if p == to then files[from] else files[p]
    {
    }
  }

  lemma Sizes(was: set<Path>, from: Path, to: Path)
    requires from != to
    ensures |was - {to}| == |was| - if to in was then 1 else 0
    ensures from in was ==> |was - {from} + {to}| == |was| - if to in was then 1 else 0
  {
    var left := was - {from} - {to};
    assert from in was ==> was - {from} + {to} == left + {to};
    assert from in was && to in was ==> was == left + {from} + {to};
    assert from in was && to !in was ==> was == left + {from};
  }

  // ---------- one undo ----------

  /** Nowhere to go: the file is in the store, its place is taken, and so is the place aside. */
  ghost predicate Blocked(run: string, files: Files, name: string)
  {
    Store(run, name) in files && Resolve(name) in files && Aside(run, name) in files
  }

  /** How many moves a name needs. */
  ghost function Cost(run: string, files: Files, name: string): nat
  {
    if Store(run, name) !in files then 0 else if Resolve(name) !in files then 1 else 2
  }

  ghost function CostFrom(run: string, files: Files, names: seq<string>, j: nat, i: nat): nat
    requires i <= |names|
    decreases i
  {
    if j >= i then 0 else CostFrom(run, files, names, j, i - 1) + Cost(run, files, names[i - 1])
  }

  /** The undo comes to a blocked name before its moves run out. */
  ghost predicate Reaches(run: string, files: Files, names: seq<string>, i: nat, moves: nat)
    requires i <= |names|
  {
    exists j :: 0 <= j < i && Blocked(run, files, names[j]) && CostFrom(run, files, names, j + 1, i) < moves
  }

  /** The names of a manifest whose places do not meet. */
  ghost predicate ClearNames(run: string, names: seq<string>)
  {
    && (forall k | 0 <= k < |names| :: !(Dir(run) <= names[k]) && names[k] != "manifest.json")
    && (forall j, k | 0 <= j < k < |names| :: names[j] != names[k])
    && forall j, k | 0 <= j < |names| && 0 <= k < |names| :: names[j] != "replaced/" + names[k]
  }

  /** The places of another name, and the manifest, are none of this one's. */
  ghost predicate Elsewhere(run: string, name: string, q: Path)
  {
    q != Store(run, name) && q != Resolve(name) && q != Aside(run, name)
  }

  lemma NamesApart(run: string, names: seq<string>, j: nat, k: nat)
    requires ClearNames(run, names) && j < |names| && k < |names| && j != k
    ensures Elsewhere(run, names[k], Store(run, names[j])) && Elsewhere(run, names[k], Resolve(names[j]))
    ensures Elsewhere(run, names[k], Aside(run, names[j])) && Elsewhere(run, names[k], ManifestAt(run))
  {
    hide Dir;
    var a, b, dir := names[j], names[k], Dir(run);
    assert a != b && a != "replaced/" + b && b != "replaced/" + a;
    assert dir + "replaced/" + a == dir + ("replaced/" + a) && dir + "replaced/" + b == dir + ("replaced/" + b);
    JoinIsInjective(dir, a, b);
    JoinIsInjective(dir, a, "replaced/" + b);
    JoinIsInjective(dir, "replaced/" + a, b);
    JoinIsInjective(dir, "replaced/" + a, "replaced/" + b);
    JoinIsInjective("replaced/", a, b);
    JoinIsInjective(dir, b, "manifest.json");
    JoinIsInjective(dir, "replaced/" + b, "manifest.json");
    assert ("replaced/" + b)[0] != "manifest.json"[0];
    ResolveApart(run, a);
    ResolveApart(run, b);
    ResolveIsInjective(a, b);
  }

  lemma ResolveApart(run: string, name: string)
    requires !(Dir(run) <= name)
    ensures !Under(run, Resolve(name))
  {
  }

  lemma ResolveIsInjective(a: string, b: string)
    ensures Resolve(a) == Resolve(b) <==> a == b
  {
    if "abs/" <= a && "abs/" <= b {
      assert a == a[..3] + a[3..] && b == b[..3] + b[3..] && a[..3] == "abs/"[..3] == b[..3];
    }
  }

  /** Moving one name's files leaves every other name as it was. */
  ghost predicate OthersSame(run: string, names: seq<string>, i: nat, files: Files, files': Files)
    requires i <= |names|
  {
    forall j | 0 <= j < i :: SamePlaces(run, names[j], files, files')
  }

  ghost predicate SamePlaces(run: string, name: string, files: Files, files': Files)
  {
    && (Store(run, name) in files <==> Store(run, name) in files')
    && (Resolve(name) in files <==> Resolve(name) in files')
    && (Aside(run, name) in files <==> Aside(run, name) in files')
  }

  lemma MovedOne(run: string, names: seq<string>, k: nat, files: Files, files': Files)
    requires ClearNames(run, names) && k < |names|
    requires forall q | Elsewhere(run, names[k], q) :: q in files <==> q in files'
    ensures OthersSame(run, names, k, files, files')
  {
    hide ClearNames, Elsewhere, Store, Aside, Resolve;
    forall j | 0 <= j < k
      ensures SamePlaces(run, names[j], files, files')
    {
      NamesApart(run, names, j, k);
    }
  }

  lemma {:induction false} CostSame(run: string, names: seq<string>, i: nat, j: nat, files: Files, files': Files)
    requires i <= |names| && OthersSame(run, names, i, files, files')
    ensures CostFrom(run, files, names, j, i) == CostFrom(run, files', names, j, i)
    decreases i
  {
    hide Store, Aside, Resolve;
    if j < i {
      assert SamePlaces(run, names[i - 1], files, files');
      CostSame(run, names, i - 1, j, files, files');
    }
  }

  /** With other names as they were, what is left of an undo comes to the same names. */
  lemma {:induction false} ReachesStep(run: string, names: seq<string>, i: nat, files: Files, files': Files, moves: nat,
                                       cost: nat)
    requires 0 < i <= |names| && OthersSame(run, names, i - 1, files, files') && cost <= moves
    requires cost == Cost(run, files, names[i - 1]) && !Blocked(run, files, names[i - 1])
    ensures Reaches(run, files, names, i, moves) <==> Reaches(run, files', names, i - 1, moves - cost)
  {
    hide Store, Aside, Resolve, Cost;
    forall j | 0 <= j < i - 1
      ensures CostFrom(run, files, names, j + 1, i) == CostFrom(run, files', names, j + 1, i - 1) + cost
      ensures Blocked(run, files, names[j]) <==> Blocked(run, files', names[j])
    {
      assert SamePlaces(run, names[j], files, files');
      CostSame(run, names, i - 1, j + 1, files, files');
    }
    if Reaches(run, files', names, i - 1, moves - cost) {
      var j :| 0 <= j < i - 1 && Blocked(run, files', names[j])
          && CostFrom(run, files', names, j + 1, i - 1) < moves - cost;
      assert Blocked(run, files, names[j]) && CostFrom(run, files, names, j + 1, i) < moves;
    }
    if Reaches(run, files, names, i, moves) {
      var j :| 0 <= j < i && Blocked(run, files, names[j]) && CostFrom(run, files, names, j + 1, i) < moves;
      assert j < i - 1;
    }
  }

  /** With fewer moves left than the next name needs, no further name is reached. */
  lemma {:induction false} ReachesNone(run: string, names: seq<string>, i: nat, files: Files, moves: nat)
    requires 0 < i <= |names| && moves < Cost(run, files, names[i - 1])
    requires moves == 0 || !Blocked(run, files, names[i - 1])
    ensures !Reaches(run, files, names, i, moves)
  {
    hide Store, Aside, Resolve, Blocked, Cost;
    forall j | 0 <= j < i - 1 && Blocked(run, files, names[j])
      ensures CostFrom(run, files, names, j + 1, i) >= moves
    {
    }
  }

  /** An undo of any files, cut short anywhere, overwrites a file exactly when it comes to a name whose three places
      are all taken; no undo makes a file. */
  lemma {:induction false} UndoIsExact(run: string, files: Files, names: seq<string>, i: nat, moves: nat)
    requires ClearNames(run, names) && i <= |names|
    ensures var files' := UndoFrom(run, files, names, i, moves).0;
            && (forall c :: Copies(files', c) <= Copies(files, c))
            && (Keeps(files, files') <==> !Reaches(run, files, names, i, moves))
    decreases i
  {
    hide ClearNames, Store, Aside, Resolve, Copies, Reaches, Renamed;
    if i == 0 {
      NoneReached(run, files, names, moves);
    } else {
      var name := names[i - 1];
      var src, dest, aside := Store(run, name), Resolve(name), Aside(run, name);
      StoreIsElsewhere(run, name);
      if src !in files {
        MovedOne(run, names, i - 1, files, files);
        ReachesStep(run, names, i, files, files, moves, 0);
        UndoIsExact(run, files, names, i - 1, moves);
      } else if moves == 0 || (moves == 1 && dest in files && aside !in files) {
        ReachesNone(run, names, i, files, moves);
        if moves == 1 {
          Moves(files, dest, aside);
        }
      } else if dest !in files {
        var files' := Renamed(files, src, dest);
        Moves(files, src, dest);
        MovedOne(run, names, i - 1, files, files');
        ReachesStep(run, names, i, files, files', moves, 1);
        UndoIsExact(run, files', names, i - 1, moves - 1);
      } else if aside !in files {
        var cleared := Renamed(files, dest, aside);
        Moves(files, dest, aside);
        Moves(cleared, src, dest);
        var files' := Renamed(cleared, src, dest);
        MovedOne(run, names, i - 1, files, files');
        ReachesStep(run, names, i, files, files', moves, 2);
        UndoIsExact(run, files', names, i - 1, moves - 2);
      } else {
        BlockedLoses(run, files, names, i, moves);
      }
    }
  }

  lemma NoneReached(run: string, files: Files, names: seq<string>, moves: nat)
    ensures !Reaches(run, files, names, 0, moves)
  {
  }

  /** A move to an empty place keeps every file; one to a place that is taken loses what stood there. */
  lemma Moves(files: Files, from: Path, to: Path)
    requires from in files && from != to
    ensures forall q | q != from && q != to :: q in files <==> q in Renamed(files, from, to)
    ensures from !in Renamed(files, from, to) && to in Renamed(files, from, to)
    ensures forall c :: Copies(Renamed(files, from, to), c) <= Copies(files, c)
    ensures to !in files ==> Keeps(files, Renamed(files, from, to))
    ensures to in files ==> Copies(Renamed(files, from, to), files[to]) < Copies(files, files[to])
  {
    hide Copies;
    forall c
      ensures Copies(Renamed(files, from, to), c) == Copies(files, c) - if to in files && files[to] == c then 1 else 0
    {
      RenamedCopies(files, from, to, c);
    }
  }

  /** An undo that comes to a blocked name loses what was set aside there. */
  lemma {:induction false} BlockedLoses(run: string, files: Files, names: seq<string>, i: nat, moves: nat)
    requires ClearNames(run, names) && 0 < i <= |names| && moves > 0 && Blocked(run, files, names[i - 1])
    ensures var files' := UndoFrom(run, files, names, i, moves).0;
            var lost := files[Aside(run, names[i - 1])];
            && (forall c :: Copies(files', c) <= Copies(files, c)) && Copies(files', lost) < Copies(files, lost)
            && !Keeps(files, files') && Reaches(run, files, names, i, moves)
  {
    hide ClearNames, Store, Aside, Resolve, Copies, Renamed;
    var name := names[i - 1];
    var src, dest, aside := Store(run, name), Resolve(name), Aside(run, name);
    StoreIsElsewhere(run, name);
    var cleared := Renamed(files, dest, aside);
    Moves(files, dest, aside);
    assert CostFrom(run, files, names, i, i) == 0;
    if moves > 1 {
      Moves(cleared, src, dest);
      NoCopies(run, Renamed(cleared, src, dest), names, i - 1, moves - 2);
    }
  }

  /** No undo makes a file. */
  lemma {:induction false} NoCopies(run: string, files: Files, names: seq<string>, i: nat, moves: nat)
    requires i <= |names|
    ensures forall c :: Copies(UndoFrom(run, files, names, i, moves).0, c) <= Copies(files, c)
    decreases i
  {
    hide Store, Aside, Resolve, Copies, Renamed;
    if i > 0 {
      var name := names[i - 1];
      var src, dest, aside := Store(run, name), Resolve(name), Aside(run, name);
      StoreIsElsewhere(run, name);
      if src !in files {
        NoCopies(run, files, names, i - 1, moves);
      } else if dest !in files {
        Moves(files, src, dest);
        if moves > 0 {
          NoCopies(run, Renamed(files, src, dest), names, i - 1, moves - 1);
        }
      } else {
        var cleared := Renamed(files, dest, aside);
        Moves(files, dest, aside);
        Moves(cleared, src, dest);
        if moves > 1 {
          NoCopies(run, Renamed(cleared, src, dest), names, i - 1, moves - 2);
        }
      }
    }
  }

  /** The undo comes, in the files as they then are, to a name whose three places are all taken. */
  ghost predicate Overwrites(run: string, files: Files, names: seq<string>, i: nat, moves: nat)
    requires i <= |names|
    decreases i
  {
    i > 0
    && var name := names[i - 1];
       var src, dest, aside := Store(run, name), Resolve(name), Aside(run, name);
       StoreIsElsewhere(run, name);
       if src !in files then Overwrites(run, files, names, i - 1, moves)
       else if dest !in files then moves > 0 && Overwrites(run, Renamed(files, src, dest), names, i - 1, moves - 1)
       else
         && moves > 0
         && (|| aside in files
             || (moves > 1
                 && Overwrites(run, Renamed(Renamed(files, dest, aside), src, dest), names, i - 1, moves - 2)))
  }

  /** Of any manifest whatever, even one whose names have places in common: the undo keeps every file exactly when it
      comes to no such name. */
  lemma {:induction false} AnyUndoIsExact(run: string, files: Files, names: seq<string>, i: nat, moves: nat)
    requires i <= |names|
    ensures Keeps(files, UndoFrom(run, files, names, i, moves).0) <==> !Overwrites(run, files, names, i, moves)
    decreases i
  {
    hide Store, Aside, Resolve, Copies, Renamed;
    if i > 0 {
      var name := names[i - 1];
      var src, dest, aside := Store(run, name), Resolve(name), Aside(run, name);
      StoreIsElsewhere(run, name);
      if src !in files {
        AnyUndoIsExact(run, files, names, i - 1, moves);
      } else if dest !in files {
        Moves(files, src, dest);
        if moves > 0 {
          AnyUndoIsExact(run, Renamed(files, src, dest), names, i - 1, moves - 1);
        }
      } else {
        var cleared := Renamed(files, dest, aside);
        Moves(files, dest, aside);
        Moves(cleared, src, dest);
        if moves > 1 {
          AnyUndoIsExact(run, Renamed(cleared, src, dest), names, i - 1, moves - 2);
          NoCopies(run, Renamed(cleared, src, dest), names, i - 1, moves - 2);
        }
      }
    }
  }

  // ---------- a run's whole history ----------

  /** How far the undos of a run have come: the names from c on are back, those before it wait in the store, and only
      the last of these may have been cut short between its two moves. */
  ghost predicate Progress(run: string, names: seq<string>, files: Files, c: nat)
  {
    && c <= |names|
    && (forall k | c <= k < |names| :: Store(run, names[k]) !in files)
    && (forall k | 0 <= k < c :: Store(run, names[k]) in files)
    && (forall k | 0 <= k < c - 1 :: Aside(run, names[k]) !in files)
    && (if names == [] then ManifestAt(run) !in files
        else ManifestAt(run) in files && files[ManifestAt(run)] == Record(names))
  }

  /** A move among one name's places is seen at no other. */
  lemma ProgressElsewhere(run: string, names: seq<string>, files: Files, files': Files, c: nat, k: nat)
    requires ClearNames(run, names) && Progress(run, names, files, c) && k < |names|
    requires forall q | Elsewhere(run, names[k], q) :: Same(files, files', q)
    ensures Same(files, files', ManifestAt(run))
    ensures forall j | 0 <= j < |names| && j != k ::
              && (Store(run, names[j]) in files <==> Store(run, names[j]) in files')
              && (Aside(run, names[j]) in files <==> Aside(run, names[j]) in files')
  {
    hide ClearNames, Elsewhere, Store, Aside, Resolve;
    ManifestApart(run, names, k);
    forall j | 0 <= j < |names| && j != k
      ensures Elsewhere(run, names[k], Store(run, names[j])) && Elsewhere(run, names[k], Aside(run, names[j]))
    {
      NamesApart(run, names, j, k);
    }
  }

  lemma ManifestApart(run: string, names: seq<string>, k: nat)
    requires ClearNames(run, names) && k < |names|
    ensures Elsewhere(run, names[k], ManifestAt(run))
  {
    hide Dir;
    assert Dir(run) + "replaced/" + names[k] == Dir(run) + ("replaced/" + names[k]);
    JoinIsInjective(Dir(run), names[k], "manifest.json");
    JoinIsInjective(Dir(run), "replaced/" + names[k], "manifest.json");
    assert ("replaced/" + names[k])[0] != "manifest.json"[0];
    ResolveApart(run, names[k]);
    OwnPlaces(run, "manifest.json");
  }

  lemma RenamedElsewhere(files: Files, from: Path, to: Path, q: Path)
    requires from in files && q != from && q != to
    ensures Same(files, Renamed(files, from, to), q)
  {
  }

  /** Every undo, cut short anywhere, leaves the run somewhere on its way. */
  lemma {:induction false} UndoProgress(run: string, names: seq<string>, files: Files, c: nat, i: nat, moves: nat)
    returns (c': nat)
    requires ClearNames(run, names) && Progress(run, names, files, c) && c <= i <= |names|
    ensures Progress(run, names, UndoFrom(run, files, names, i, moves).0, c')
    decreases i
  {
    hide ClearNames, Store, Aside, Resolve, Renamed;
    c' := c;
    if i == 0 {
      return;
    }
    if c < i {
      c' := UndoProgress(run, names, files, c, i - 1, moves);
      return;
    }
    var k := i - 1;
    var src, dest, aside := Store(run, names[k]), Resolve(names[k]), Aside(run, names[k]);
    StoreIsElsewhere(run, names[k]);
    if dest !in files {
      if moves > 0 {
        BackProgress(run, names, files, c);
        c' := UndoProgress(run, names, Renamed(files, src, dest), c - 1, i - 1, moves - 1);
      }
    } else if moves > 0 {
      var cleared := Renamed(files, dest, aside);
      AsideProgress(run, names, files, c);
      if moves > 1 {
        BackProgress(run, names, cleared, c);
        c' := UndoProgress(run, names, Renamed(cleared, src, dest), c - 1, i - 1, moves - 2);
      }
    }
  }

  lemma BackProgress(run: string, names: seq<string>, files: Files, c: nat)
    requires ClearNames(run, names) && Progress(run, names, files, c) && 0 < c && Resolve(names[c - 1]) !in files
    ensures Store(run, names[c - 1]) in files
    ensures Progress(run, names, Renamed(files, Store(run, names[c - 1]), Resolve(names[c - 1])), c - 1)
  {
    hide ClearNames, Store, Aside, Resolve, Renamed, Copies;
    var src, dest := Store(run, names[c - 1]), Resolve(names[c - 1]);
    StoreIsElsewhere(run, names[c - 1]);
    var files' := Renamed(files, src, dest);
    Moves(files, src, dest);
    forall q | Elsewhere(run, names[c - 1], q)
      ensures Same(files, files', q)
    {
      RenamedElsewhere(files, src, dest, q);
    }
    ProgressElsewhere(run, names, files, files', c, c - 1);
  }

  lemma AsideProgress(run: string, names: seq<string>, files: Files, c: nat)
    requires ClearNames(run, names) && Progress(run, names, files, c) && 0 < c && Resolve(names[c - 1]) in files
    ensures var cleared := Renamed(files, Resolve(names[c - 1]), Aside(run, names[c - 1]));
            && Progress(run, names, cleared, c) && Store(run, names[c - 1]) in cleared
            && Resolve(names[c - 1]) !in cleared
  {
    hide ClearNames, Store, Aside, Resolve, Renamed, Copies;
    var dest, aside := Resolve(names[c - 1]), Aside(run, names[c - 1]);
    StoreIsElsewhere(run, names[c - 1]);
    var cleared := Renamed(files, dest, aside);
    Moves(files, dest, aside);
    forall q | Elsewhere(run, names[c - 1], q)
      ensures Same(files, cleared, q)
    {
      RenamedElsewhere(files, dest, aside, q);
    }
    ProgressElsewhere(run, names, files, cleared, c, c - 1);
  }

  /** What goes on after a repair: undos that may be cut short, and writes and removals outside the run's directory. */
  datatype Turn = Undoes(moves: nat) | Changes(path: Path, content: Option<Content>)

  function After(run: string, files: Files, turns: seq<Turn>): Files
  {
    if turns == [] then files else Turned(run, After(run, files, turns[..|turns| - 1]), turns[|turns| - 1])
  }

  function Turned(run: string, files: Files, t: Turn): Files
  {
    match t
    case Undoes(moves) => UndoOnce(run, files, moves)
    case Changes(p, None) => files - {p}
    case Changes(p, Some(c)) => files[p := c]
  }

  ghost predicate OutsideOnly(run: string, turns: seq<Turn>)
  {
    forall i | 0 <= i < |turns| && turns[i].Changes? :: !Under(run, turns[i].path)
  }

  lemma {:induction false} HistoryProgress(run: string, names: seq<string>, w: Files, turns: seq<Turn>)
    returns (c: nat)
    requires ClearNames(run, names) && Progress(run, names, w, |names|) && OutsideOnly(run, turns)
    ensures Progress(run, names, After(run, w, turns), c)
    decreases |turns|
  {
    hide ClearNames, UndoFrom, Store, Aside, Under;
    c := |names|;
    if turns != [] {
      var n := |turns| - 1;
      assert forall i | 0 <= i < n :: turns[..n][i] == turns[i];
      c := HistoryProgress(run, names, w, turns[..n]);
      var now := After(run, w, turns[..n]);
      match turns[n] {
        case Undoes(moves) =>
          if names != [] {
            c := UndoProgress(run, names, now, c, |names|, moves);
          }
        case Changes(p, content) => ChangeProgress(run, names, now, Turned(run, now, turns[n]), c);
      }
    }
  }

  lemma ChangeProgress(run: string, names: seq<string>, files: Files, files': Files, c: nat)
    requires Progress(run, names, files, c) && forall q | Under(run, q) :: Same(files, files', q)
    ensures Progress(run, names, files', c)
  {
    hide Store, Aside, Under;
    OwnPlaces(run, "manifest.json");
    forall k | 0 <= k < |names|
      ensures Under(run, Store(run, names[k])) && Under(run, Aside(run, names[k]))
    {
      OwnPlaces(run, names[k]);
      AsideIsOwn(run, names[k]);
    }
  }

  lemma AsideIsOwn(run: string, name: string)
    ensures Under(run, Aside(run, name))
  {
    OwnPlaces(run, "replaced/" + name);
    assert Dir(run) + "replaced/" + name == Dir(run) + ("replaced/" + name);
  }

  /** The names of a run are clear, and at its end nothing is set aside. */
  lemma TakenProgress(run: string, t: Taken, w: Files)
    requires InStore(run, t, w)
    ensures ClearNames(run, t.Names()) && Progress(run, t.Names(), w, |t.Names()|)
  {
    hide Store, Aside, Under, Relative, Dir;
    var names := t.Names();
    forall k | 0 <= k < |names|
      ensures !(Dir(run) <= names[k]) && names[k] != "manifest.json"
      ensures Store(run, names[k]) in w && Aside(run, names[k]) !in w
    {
      var p := t.paths[k];
      assert p in t.paths;
      NameIsOutside(run, p);
      AsideIsOwn(run, names[k]);
      ClearOfItself(p);
      PlacesApart(run, p, p);
      if Aside(run, names[k]) in w {
        var r :| r in t.paths && Aside(run, names[k]) == Store(run, Relative(r));
        PlacesApart(run, r, p);
      }
    }
    forall j, k | 0 <= j < |names| && 0 <= k < |names|
      ensures names[j] != "replaced/" + names[k] && (j != k ==> names[j] != names[k])
    {
      assert t.paths[j] in t.paths && t.paths[k] in t.paths;
      assert Clear(t.paths[j], t.paths[k]);
      SafeIsResolved(run, t.paths[j]);
      SafeIsResolved(run, t.paths[k]);
    }
  }

  lemma NameIsOutside(run: string, p: Path)
    requires Safe(run, p)
    ensures !(Dir(run) <= Relative(p)) && Relative(p) != "manifest.json"
  {
    if p.Outside? {
      assert Relative(p)[0] == 'a' && Dir(run)[0] == 'g';
    }
  }

  /** After any history of a run, of undos that were cut short and changes in between, the next undo keeps every file
      exactly when it makes no move or no path that was taken has its three places all taken: the file in the store, a
      new file where it belongs, and under "replaced" the one that an earlier undo set aside. */
  lemma {:induction false} LossIsExact(run: string, t: Taken, w: Files, turns: seq<Turn>, moves: nat)
    requires InStore(run, t, w) && OutsideOnly(run, turns)
    ensures var now := After(run, w, turns);
            Keeps(now, UndoOnce(run, now, moves))
            <==> moves == 0 || forall p | p in t.paths :: !Blocked(run, now, Relative(p))
  {
    hide ClearNames, UndoFrom, Store, Aside, Under, Relative, Resolve, Keeps, InStore, Reaches;
    var names, now := t.Names(), After(run, w, turns);
    TakenProgress(run, t, w);
    var c := HistoryProgress(run, names, w, turns);
    SamePaths(t);
    if names == [] {
      KeepsItself(now);
    } else {
      UndoIsExact(run, now, names, |names|, moves);
      FirstReached(run, names, now, c, moves);
    }
  }

  lemma SamePaths(t: Taken)
    ensures forall p | p in t.paths :: Relative(p) in t.Names()
    ensures forall name | name in t.Names() :: exists p :: p in t.paths && name == Relative(p)
    ensures |t.Names()| == |t.paths|
  {
    forall p | p in t.paths
      ensures Relative(p) in t.Names()
    {
      var i :| 0 <= i < |t.paths| && t.paths[i] == p;
      assert t.Names()[i] == Relative(p);
    }
    forall name | name in t.Names()
      ensures exists p :: p in t.paths && name == Relative(p)
    {
      var i :| 0 <= i < |t.paths| && t.Names()[i] == name;
      assert t.paths[i] in t.paths;
    }
  }

  lemma KeepsItself(files: Files)
    ensures Keeps(files, files)
  {
  }

  /** A blocked name is the first one the next undo comes to. */
  lemma {:induction false} FirstReached(run: string, names: seq<string>, files: Files, c: nat, moves: nat)
    requires Progress(run, names, files, c)
    ensures Reaches(run, files, names, |names|, moves)
            <==> moves > 0 && exists k :: 0 <= k < |names| && Blocked(run, files, names[k])
  {
    hide Store, Aside, Resolve;
    FreeFrom(run, names, files, c, |names|);
    forall k | 0 <= k < |names| && Blocked(run, files, names[k])
      ensures k + 1 == c && CostFrom(run, files, names, k + 1, |names|) == 0
    {
    }
  }

  lemma {:induction false} FreeFrom(run: string, names: seq<string>, files: Files, c: nat, i: nat)
    requires c <= i <= |names| && forall k | c <= k < |names| :: Store(run, names[k]) !in files
    ensures CostFrom(run, files, names, c, i) == 0
    decreases i
  {
    hide Store, Aside, Resolve;
    if c < i {
      FreeFrom(run, names, files, c, i - 1);
    }
  }

  /** An undo cut short between its two moves, a new file written in the place that this left empty, and a second undo:
      what the first one set aside is overwritten. */
  lemma AsideIsOverwritten(run: string)
    ensures var stored: Files := map[Store(run, "x") := File([1]), Inside("x") := File([2])];
            var cut := UndoFrom(run, stored, ["x"], 1, 1).0;
            var again := cut[Inside("x") := File([3])];
            var after := UndoFrom(run, again, ["x"], 1, 2).0;
            && cut[Aside(run, "x") := File([2])] == cut && !Keeps(again, after)
            && forall q | q in after :: after[q] != File([2])
  {
    StoreIsElsewhere(run, "x");
    var stored: Files := map[Store(run, "x") := File([1]), Inside("x") := File([2])];
    var cut := UndoFrom(run, stored, ["x"], 1, 1).0;
    assert Resolve("x") == Inside("x");
    assert cut == map[Store(run, "x") := File([1]), Aside(run, "x") := File([2])];
    assert Dir(run)[0] != "x"[0];
    assert Blocked(run, cut[Inside("x") := File([3])], "x");
    BlockedLoses(run, cut[Inside("x") := File([3])], ["x"], 1, 2);
  }
}
