/** The quarantine of internal/repair/quarantine.go over a file system that is a map from path to content. */
module Quarantine {

  /** A file below the git directory, by its path from there, or anywhere else, by its absolute path. */
  datatype Path = Inside(rel: string) | Outside(abs: string)

  datatype Content = File(data: seq<int>) | Record(names: seq<string>)

  type Files = map<Path, Content>

  ghost predicate Proper(p: Path)
  {
    p.Outside? ==> "/" <= p.abs
  }

  function Dir(run: string): string { "git-fixed/quarantine/" + run + "/" }
  function Store(run: string, name: string): Path { Inside(Dir(run) + name) }
  function Aside(run: string, name: string): Path { Inside(Dir(run) + "replaced/" + name) }
  function ManifestAt(run: string): Path { Store(run, "manifest.json") }

  ghost predicate Under(run: string, p: Path)
  {
    p.Inside? && Dir(run) <= p.rel
  }

  function Relative(p: Path): string
  {
    match p
    case Inside(rel) => rel
    case Outside(abs) => "abs" + abs
  }

  function Resolve(name: string): Path
  {
    if "abs/" <= name then Outside(name[3..]) else Inside(name)
  }

  /** A path that can be taken by itself: not one of the run's own, not the name that its manifest has, and not below
      an "abs" directory of the git directory. */
  ghost predicate Safe(run: string, p: Path)
  {
    Proper(p) && !Under(run, p) && Relative(p) != "manifest.json" && !Mistaken(p)
  }

  /** The place that p has in the store is not the one that q's successor is set aside to. */
  ghost predicate Clear(p: Path, q: Path)
  {
    Relative(p) != "replaced/" + Relative(q)
  }

  lemma ClearOfItself(p: Path)
    ensures Clear(p, p)
  {
    assert |"replaced/" + Relative(p)| == 9 + |Relative(p)|;
  }

  ghost predicate Mistaken(p: Path)
  {
    p.Inside? && "abs/" <= p.rel
  }

  /** A name in the manifest leads back to its file, except below an "abs" directory of the git directory. */
  lemma ResolveIsExact(p: Path)
    requires Proper(p)
    ensures Resolve(Relative(p)) == p <==> !Mistaken(p)
  {
    match p
    case Inside(_) =>
    case Outside(abs) =>
      assert ("abs" + abs)[3..] == abs;
      assert ("abs" + abs)[..4] == "abs/";
  }

  lemma SafeIsResolved(run: string, p: Path)
    requires Safe(run, p)
    ensures Resolve(Relative(p)) == p
  {
    ResolveIsExact(p);
  }

  // ---------- the run's own places ----------

  lemma JoinIsInjective(dir: string, a: string, b: string)
    ensures dir + a == dir + b <==> a == b
  {
    assert (dir + a)[|dir|..] == a && (dir + b)[|dir|..] == b;
  }

  /** A path's places in the store and aside never meet those of another one that is clear of it. */
  lemma PlacesApart(run: string, p: Path, q: Path)
    requires Safe(run, p) && Safe(run, q) && Clear(p, q)
    ensures var a, b := Relative(p), Relative(q);
            && Store(run, a) != Aside(run, b) && Store(run, a) != ManifestAt(run) && Aside(run, a) != ManifestAt(run)
            && (p != q ==> Store(run, a) != Store(run, b) && Aside(run, a) != Aside(run, b))
            && Under(run, Store(run, a)) && Under(run, Aside(run, a)) && Under(run, ManifestAt(run))
  {
    var a, b := Relative(p), Relative(q);
    SafeIsResolved(run, p);
    SafeIsResolved(run, q);
    ClearOfItself(p);
    var dir := Dir(run);
    assert dir + "replaced/" + a == dir + ("replaced/" + a) && dir + "replaced/" + b == dir + ("replaced/" + b);
    JoinIsInjective(dir, a, b);
    JoinIsInjective(dir, a, "replaced/" + b);
    JoinIsInjective(dir, a, "manifest.json");
    JoinIsInjective(dir, "replaced/" + a, "manifest.json");
    JoinIsInjective(dir, "replaced/" + a, "replaced/" + b);
    JoinIsInjective("replaced/", a, b);
    assert ("replaced/" + a)[0] != "manifest.json"[0];
  }

  // ---------- the file system ----------

  function Renamed(files: Files, from: Path, to: Path): Files
    requires from in files
  {
    (files - {from})[to := files[from]]
  }

  class Disk {
    var files: Files

    method Move(from: Path, to: Path)
      requires from in files
      modifies this
      ensures files == Renamed(old(files), from, to)
    {
      files := (files - {from})[to := files[from]];
    }
  }

  // ---------- a run ----------

  /** What a run has taken: the paths in order, each with what it held. */
  datatype Taken = Taken(paths: seq<Path>, held: map<Path, Content>)
  {
    ghost predicate Valid(run: string)
    {
      && (forall i | 0 <= i < |paths| :: paths[i] in held && Safe(run, paths[i]))
      && (forall i, j | 0 <= i < j < |paths| :: paths[i] != paths[j])
      && forall p, q | p in paths && q in paths :: Clear(p, q)
    }

    ghost function Names(): seq<string>
    {
      seq(|paths|, i requires 0 <= i < |paths| => Relative(paths[i]))
    }
  }

  /** Everything taken is in the store, nothing is set aside, and the manifest lists it all. */
  ghost predicate InStore(run: string, t: Taken, files: Files)
  {
    && t.Valid(run)
    && (forall p | p in t.paths :: Store(run, Relative(p)) in files && files[Store(run, Relative(p))] == t.held[p])
    && (forall q | q in files && Under(run, q) :: q == ManifestAt(run) || Stored(run, t, q))
    && if t.paths == [] then ManifestAt(run) !in files
       else ManifestAt(run) in files && files[ManifestAt(run)] == Record(t.Names())
  }

  ghost predicate Stored(run: string, t: Taken, q: Path)
  {
    exists p :: p in t.paths && q == Store(run, Relative(p))
  }

  /** A repository that has never heard of the run. */
  lemma FreshRun(run: string, files: Files)
    requires forall q | q in files :: !Under(run, q)
    ensures InStore(run, Taken([], map[]), files)
  {
  }

  /** The two files hold the same at q, or both nothing. */
  ghost predicate Same(a: Files, b: Files, q: Path)
  {
    (q in a <==> q in b) && (q in a ==> a[q] == b[q])
  }

  /** Taking one more file loses none: it goes where nothing was. */
  lemma TakeKeeps(run: string, t: Taken, files: Files, p: Path)
    requires InStore(run, t, files) && Safe(run, p) && p !in t.paths && p in files
    requires forall q | q in t.paths :: Clear(p, q) && Clear(q, p)
    ensures var t' := Taken(t.paths + [p], t.held[p := files[p]]);
            var moved := Renamed(files, p, Store(run, Relative(p)));
            var files' := moved[ManifestAt(run) := Record(t.Names() + [Relative(p)])];
            && InStore(run, t', files') && t'.Names() == t.Names() + [Relative(p)] && p !in files'
            && forall q | q != p && !Under(run, q) :: Same(files, files', q)
  {
    hide Safe, Under, Store, Aside, Dir, Relative;
    var t' := Taken(t.paths + [p], t.held[p := files[p]]);
    var files' := Renamed(files, p, Store(run, Relative(p)))[ManifestAt(run) := Record(t.Names() + [Relative(p)])];
    assert t'.Names() == t.Names() + [Relative(p)];
    ClearOfItself(p);
    PlacesApart(run, p, p);
    SafeIsOutside(run, p);
    forall q | q in t.paths
      ensures Store(run, Relative(q)) in files' && files'[Store(run, Relative(q))] == t'.held[q]
    {
      PlacesApart(run, p, q);
      PlacesApart(run, q, p);
    }
    forall q | q in files' && Under(run, q)
      ensures q == ManifestAt(run) || Stored(run, t', q)
    {
      if q == Store(run, Relative(p)) {
        assert p in t'.paths;
      } else if q != ManifestAt(run) {
        var r :| r in t.paths && q == Store(run, Relative(r));
        assert r in t'.paths;
      }
    }
  }

  lemma SafeIsOutside(run: string, p: Path)
    requires Safe(run, p)
    ensures !Under(run, p)
  {
  }

  lemma OwnPlaces(run: string, name: string)
    ensures Under(run, Store(run, name))
  {
  }

  /** Whatever is written or removed outside the run's directory, what was taken is still there. */
  lemma WriteKeeps(run: string, t: Taken, files: Files, files': Files)
    requires InStore(run, t, files) && forall q | Under(run, q) :: Same(files, files', q)
    ensures InStore(run, t, files')
  {
    hide Safe, Under, Store, Dir, Relative;
    OwnPlaces(run, "manifest.json");
    forall p | p in t.paths
      ensures Same(files, files', Store(run, Relative(p)))
    {
      OwnPlaces(run, Relative(p));
    }
  }

  // ---------- undoing it ----------

  /** Still waiting: in the store, with whatever stands in its place. */
  ghost predicate Waiting(run: string, t: Taken, w: Files, files: Files, p: Path)
    requires p in t.held
  {
    var s, a := Store(run, Relative(p)), Aside(run, Relative(p));
    s in files && files[s] == t.held[p] && Same(files, w, p) && a !in files
  }

  /** Interrupted between the two moves: what stood in the way is aside already. */
  ghost predicate Halfway(run: string, t: Taken, w: Files, files: Files, p: Path)
    requires p in t.held
  {
    var s, a := Store(run, Relative(p)), Aside(run, Relative(p));
    s in files && files[s] == t.held[p] && p !in files && p in w && a in files && files[a] == w[p]
  }

  /** Back where it was, with what stood in the way kept under "replaced". */
  ghost predicate Back(run: string, t: Taken, w: Files, files: Files, p: Path)
    requires p in t.held
  {
    var s, a := Store(run, Relative(p)), Aside(run, Relative(p));
    && s !in files && p in files && files[p] == t.held[p]
    && if p in w then a in files && files[a] == w[p] else a !in files
  }

  ghost predicate Cell(run: string, t: Taken, w: Files, files: Files, p: Path)
    requires p in t.held
  {
    Waiting(run, t, w, files, p) || Halfway(run, t, w, files, p) || Back(run, t, w, files, p)
  }

  /** One of the three places that undoing p may touch. */
  ghost predicate Touches(run: string, p: Path, q: Path)
  {
    q == p || q == Store(run, Relative(p)) || q == Aside(run, Relative(p))
  }

  /** Undos of the run have been at work since the files were w, and may have been cut short at any point. */
  ghost predicate Undoing(run: string, t: Taken, w: Files, files: Files)
  {
    && InStore(run, t, w)
    && (forall p | p in t.paths :: Cell(run, t, w, files, p))
    && forall q | Untouched(run, t, q) :: Same(files, w, q)
  }

  ghost predicate Untouched(run: string, t: Taken, q: Path)
  {
    forall p | p in t.paths :: !Touches(run, p, q)
  }

  /** Every file is back, what stood in its way is under "replaced", and nothing else has changed. */
  ghost predicate Restored(run: string, t: Taken, w: Files, files: Files)
  {
    Undoing(run, t, w, files) && forall p | p in t.paths :: Back(run, t, w, files, p)
  }

  lemma TouchesApart(run: string, p: Path, q: Path, x: Path)
    requires Safe(run, p) && Safe(run, q) && p != q && Clear(p, q) && Clear(q, p) && Touches(run, p, x)
    ensures !Touches(run, q, x)
  {
    hide Safe, Under, Store, Aside, Dir, Relative;
    PlacesApart(run, p, q);
    PlacesApart(run, q, p);
    SafeIsOutside(run, p);
    SafeIsOutside(run, q);
  }

  /** Before any undo, everything waits. */
  lemma UndoStarts(run: string, t: Taken, w: Files)
    requires InStore(run, t, w)
    ensures Undoing(run, t, w, w)
  {
    hide Safe, Under, Store, Aside, Dir, Relative;
    forall p | p in t.paths
      ensures Waiting(run, t, w, w, p)
    {
      var a := Aside(run, Relative(p));
      PlacesApart(run, p, p);
      if a in w {
        var r :| r in t.paths && a == Store(run, Relative(r));
        PlacesApart(run, r, p);
      }
    }
  }

  /** Work on one file leaves all the others as they are. */
  lemma OneCell(run: string, t: Taken, w: Files, files: Files, files': Files, p: Path)
    requires Undoing(run, t, w, files) && p in t.paths && Cell(run, t, w, files', p)
    requires forall q | !Touches(run, p, q) :: Same(files, files', q)
    ensures Undoing(run, t, w, files')
    ensures forall q | q in t.paths && q != p && Back(run, t, w, files, q) :: Back(run, t, w, files', q)
  {
    hide Safe, Store, Aside, Relative, InStore;
    TakenIsValid(run, t, w);
    forall q | q in t.paths && q != p
      ensures Cell(run, t, w, files', q) && (Back(run, t, w, files, q) ==> Back(run, t, w, files', q))
    {
      TouchesApart(run, q, p, q);
      TouchesApart(run, q, p, Store(run, Relative(q)));
      TouchesApart(run, q, p, Aside(run, Relative(q)));
      assert Cell(run, t, w, files, q);
    }
    forall q | Untouched(run, t, q)
      ensures Same(files', w, q)
    {
      assert !Touches(run, p, q);
    }
  }

  lemma TakenIsValid(run: string, t: Taken, w: Files)
    requires InStore(run, t, w)
    ensures t.Valid(run)
  {
  }

  /** Setting aside what stands in the way. */
  lemma MoveAside(run: string, t: Taken, w: Files, files: Files, p: Path)
    requires Undoing(run, t, w, files) && p in t.paths && Store(run, Relative(p)) in files && p in files
    ensures var files' := Renamed(files, p, Aside(run, Relative(p)));
            && Undoing(run, t, w, files') && p !in files' && Store(run, Relative(p)) in files'
            && forall q | q in t.paths && q != p && Back(run, t, w, files, q) :: Back(run, t, w, files', q)
  {
    hide Safe, Store, Aside, Relative, Under, Dir;
    PlacesApart(run, p, p);
    SafeIsOutside(run, p);
    OneCell(run, t, w, files, Renamed(files, p, Aside(run, Relative(p))), p);
  }

  /** Moving the file back to its empty place. */
  lemma MoveBack(run: string, t: Taken, w: Files, files: Files, p: Path)
    requires Undoing(run, t, w, files) && p in t.paths && Store(run, Relative(p)) in files && p !in files
    ensures var files' := Renamed(files, Store(run, Relative(p)), p);
            && Undoing(run, t, w, files') && Back(run, t, w, files', p)
            && forall q | q in t.paths && q != p && Back(run, t, w, files, q) :: Back(run, t, w, files', q)
  {
    hide Safe, Store, Aside, Relative, Under, Dir;
    PlacesApart(run, p, p);
    SafeIsOutside(run, p);
    OneCell(run, t, w, files, Renamed(files, Store(run, Relative(p)), p), p);
  }

  /** A name's place in the store is neither the file's own place nor its place aside. */
  lemma StoreIsElsewhere(run: string, name: string)
    ensures Store(run, name) != Resolve(name) && Store(run, name) != Aside(run, name)
            && Aside(run, name) != Resolve(name)
  {
    assert |Dir(run) + name| > |name| && |Dir(run) + "replaced/" + name| > |Dir(run) + name|;
  }

  /** The files after an undo of the first i names, last one first, that is cut short after so many moves; and whether
      it came to its end. */
  function UndoFrom(run: string, files: Files, names: seq<string>, i: nat, moves: nat): (Files, bool)
    requires i <= |names|
    decreases i
  {
    if i == 0 then (files, true)
    else
      var name := names[i - 1];
      var src, dest := Store(run, name), Resolve(name);
      StoreIsElsewhere(run, name);
      if src !in files then UndoFrom(run, files, names, i - 1, moves)
      else if dest !in files then
        if moves == 0 then (files, false)
        else UndoFrom(run, Renamed(files, src, dest), names, i - 1, moves - 1)
      else if moves == 0 then (files, false)
      else
        var cleared := Renamed(files, dest, Aside(run, name));
        if moves == 1 then (cleared, false)
        else UndoFrom(run, Renamed(cleared, src, dest), names, i - 1, moves - 2)
  }

  /** What an undo that is cut short after `moves` moves makes of the files: nothing without a manifest to read. */
  function UndoOnce(run: string, files: Files, moves: nat): Files
  {
    if Unlisted(run, files) then files
    else
      var names := files[ManifestAt(run)].names;
      UndoFrom(run, files, names, |names|, moves).0
  }

  predicate Unlisted(run: string, files: Files)
  {
    ManifestAt(run) !in files || !files[ManifestAt(run)].Record?
  }

  /** Undo, cut short after `moves` moves. */
  method Undo(disk: Disk, run: string, moves: nat) returns (ok: bool, restored: seq<string>, finished: bool)
    modifies disk
    ensures ok <==> !Unlisted(run, old(disk.files))
    ensures disk.files == UndoOnce(run, old(disk.files), moves)
    ensures ok ==> var names := old(disk.files[ManifestAt(run)]).names;
                   finished == UndoFrom(run, old(disk.files), names, |names|, moves).1
  {
    hide Store, Aside, Resolve, Renamed;
    restored := [];
    if ManifestAt(run) !in disk.files || !disk.files[ManifestAt(run)].Record? {
      return false, restored, false;
    }
    ok := true;
    var names := disk.files[ManifestAt(run)].names;
    var i: nat, left: nat := |names|, moves;
    while i > 0
      invariant i <= |names|
      invariant UndoFrom(run, disk.files, names, i, left) == UndoFrom(run, old(disk.files), names, |names|, moves)
    {
      var name := names[i - 1];
      var src, dest := Store(run, name), Resolve(name);
      StoreIsElsewhere(run, name);
      if src in disk.files {
        if dest in disk.files {
          if left == 0 {
            return ok, restored, false;
          }
          RenameLeaves(disk.files, dest, Aside(run, name), src);
          disk.Move(dest, Aside(run, name));
          left := left - 1;
          if left == 0 {
            return ok, restored, false;
          }
        } else if left == 0 {
          return ok, restored, false;
        }
        disk.Move(src, dest);
        left := left - 1;
        restored := restored + [name];
      }
      i := i - 1;
    }
    finished := true;
  }

  lemma RenameLeaves(files: Files, from: Path, to: Path, q: Path)
    requires from in files && q in files && q != from && q != to
    ensures q in Renamed(files, from, to) && Renamed(files, from, to)[q] == files[q]
  {
  }

  /** An undo keeps every file at every point; given time for all its moves it comes to its end; there every file is
      back; and once every file is back it changes nothing. */
  lemma {:induction false} UndoKeeps(run: string, t: Taken, w: Files, files: Files, i: nat, moves: nat)
    requires Undoing(run, t, w, files) && i <= |t.paths| && BackFrom(run, t, w, files, i)
    ensures var (files', finished) := UndoFrom(run, files, t.Names(), i, moves);
            && Undoing(run, t, w, files')
            && (finished ==> Restored(run, t, w, files'))
            && (moves >= 2 * i ==> finished)
            && (Restored(run, t, w, files) ==> files' == files && finished)
    decreases i
  {
    hide Safe, Store, Aside, Relative, Resolve, Renamed, Back, Cell, Undoing, Same, InStore, Clear, Taken.Valid;
    StillTaken(run, t, w, files);
    if i > 0 {
      var p := t.paths[i - 1];
      var name := t.Names()[i - 1];
      var src := Store(run, name);
      assert p in t.paths && name == Relative(p);
      SafeIsResolved(run, p);
      StoreIsElsewhere(run, name);
      BackMeans(run, t, w, files, p);
      if src !in files {
        UndoKeeps(run, t, w, files, i - 1, moves);
      } else if p !in files {
        MoveBack(run, t, w, files, p);
        if moves > 0 {
          UndoKeeps(run, t, w, Renamed(files, src, p), i - 1, moves - 1);
        }
      } else {
        MoveAside(run, t, w, files, p);
        var cleared := Renamed(files, p, Aside(run, name));
        MoveBack(run, t, w, cleared, p);
        if moves > 1 {
          UndoKeeps(run, t, w, Renamed(cleared, src, p), i - 1, moves - 2);
        }
      }
    }
  }

  lemma StillTaken(run: string, t: Taken, w: Files, files: Files)
    requires Undoing(run, t, w, files)
    ensures t.Valid(run)
  {
  }

  /** A file is back as soon as its place in the store is empty, and not before. */
  lemma BackMeans(run: string, t: Taken, w: Files, files: Files, p: Path)
    requires Undoing(run, t, w, files) && p in t.paths
    ensures Back(run, t, w, files, p) <==> Store(run, Relative(p)) !in files
  {
    assert Cell(run, t, w, files, p);
  }

  ghost predicate BackFrom(run: string, t: Taken, w: Files, files: Files, i: nat)
    requires forall p | p in t.paths :: p in t.held
  {
    forall j | i <= j < |t.paths| :: Back(run, t, w, files, t.paths[j])
  }

  lemma ManifestStays(run: string, t: Taken, w: Files, files: Files)
    requires Undoing(run, t, w, files)
    ensures Same(files, w, ManifestAt(run))
  {
    forall p | p in t.paths
      ensures !Touches(run, p, ManifestAt(run))
    {
      PlacesApart(run, p, p);
      SafeIsOutside(run, p);
    }
  }

  class Quarantine {
    const run: string
    const disk: Disk
    var names: seq<string>

    constructor (run: string, disk: Disk)
      ensures this.run == run && this.disk == disk && names == []
    {
      this.run, this.disk := run, disk;
      names := [];
    }

    /** Take: move a file into the store and record it; a file that is not there is passed over. */
    method Take(p: Path)
      modifies this, disk
      ensures p !in old(disk.files) ==> disk.files == old(disk.files) && names == old(names)
      ensures p in old(disk.files) ==> names == old(names) + [Relative(p)]
      ensures p in old(disk.files) ==>
                disk.files == Renamed(old(disk.files), p, Store(run, Relative(p)))[ManifestAt(run) := Record(names)]
    {
      if p !in disk.files {
        return;
      }
      var name := Relative(p);
      disk.Move(p, Store(run, name));
      names := names + [name];
      disk.files := disk.files[ManifestAt(run) := Record(names)];
    }
  }

  // ---------- whole runs ----------

  /** What a repair does to the repository: take a file away, write one, or remove one. */
  datatype Change = TakeFile(path: Path) | Write(path: Path, content: Content) | Remove(path: Path)

  /** The files as the repository's users see them: a file that was taken is gone. */
  ghost function Visible(files: Files, steps: seq<Change>): Files
  {
    if steps == [] then files else Seen(Visible(files, steps[..|steps| - 1]), steps[|steps| - 1])
  }

  ghost function Seen(files: Files, c: Change): Files
  {
    match c
    case TakeFile(p) => files - {p}
    case Write(p, c) => files[p := c]
    case Remove(p) => files - {p}
  }

  /** Outside the run's directory the two agree. */
  ghost predicate Outwardly(run: string, a: Files, b: Files)
  {
    forall q | !Under(run, q) :: Same(a, b, q)
  }

  /** Step i takes a file and step j another one. */
  ghost predicate BothTake(steps: seq<Change>, i: nat, j: nat)
    requires i < |steps| && j < |steps|
  {
    steps[i].TakeFile? && steps[j].TakeFile?
  }

  /** The steps touch nothing of the run's own, no path is taken twice, and what is taken comes from `s`. */
  ghost predicate TakesFrom(run: string, steps: seq<Change>, s: iset<Path>)
  {
    && (forall i | 0 <= i < |steps| :: !Under(run, steps[i].path) && (steps[i].TakeFile? ==> steps[i].path in s))
    && forall i, j | 0 <= i < j < |steps| && BothTake(steps, i, j) :: steps[i].path != steps[j].path
  }

  /** Paths that may be taken together: each by itself, and each clear of every other. */
  ghost predicate SafeSet(run: string, s: iset<Path>)
  {
    (forall p | p in s :: Safe(run, p)) && forall p, q | p in s && q in s :: Clear(p, q)
  }

  ghost predicate Fresh(run: string, files: Files)
  {
    forall q | q in files :: !Under(run, q)
  }

  /** Step i found a file to take. */
  ghost predicate Took(files: Files, steps: seq<Change>, i: nat)
    requires i < |steps|
  {
    steps[i].TakeFile? && steps[i].path in Visible(files, steps[..i])
  }

  /** What the first k steps took, with what each path held at that time. */
  ghost predicate Recorded(files: Files, steps: seq<Change>, k: nat, t: Taken)
    requires k <= |steps|
  {
    && (forall i | 0 <= i < k && Took(files, steps, i) ::
          var p := steps[i].path; p in t.paths && p in t.held && t.held[p] == Visible(files, steps[..i])[p])
    && forall p | p in t.paths :: exists i :: 0 <= i < k && Took(files, steps, i) && steps[i].path == p
  }

  // ---------- the run as it happens ----------

  /** The files and the manifest's names after one step of a repair. */
  function Did(run: string, files: Files, names: seq<string>, c: Change): (Files, seq<string>)
  {
    match c
    case TakeFile(p) =>
      if p !in files then (files, names)
      else
        var names' := names + [Relative(p)];
        (Renamed(files, p, Store(run, Relative(p)))[ManifestAt(run) := Record(names')], names')
    case Write(p, c) => (files[p := c], names)
    case Remove(p) => (files - {p}, names)
  }

  function DoneBy(run: string, files: Files, steps: seq<Change>): (Files, seq<string>)
  {
    if steps == [] then (files, [])
    else
      var n := |steps| - 1;
      var (before, names) := DoneBy(run, files, steps[..n]);
      Did(run, before, names, steps[n])
  }

  /** A repair that takes files and writes others, in any order. */
  method Perform(q: Quarantine, steps: seq<Change>)
    requires q.names == []
    modifies q, q.disk
    ensures (q.disk.files, q.names) == DoneBy(q.run, old(q.disk.files), steps)
  {
    hide Store;
    for k := 0 to |steps|
      invariant (q.disk.files, q.names) == DoneBy(q.run, old(q.disk.files), steps[..k])
    {
      assert steps[..k + 1][..k] == steps[..k];
      match steps[k] {
        case TakeFile(p) => q.Take(p);
        case Write(p, c) => q.disk.files := q.disk.files[p := c];
        case Remove(p) => q.disk.files := q.disk.files - {p};
      }
    }
    assert steps[..|steps|] == steps;
  }

  /** At every step of a repair what was taken is in the store, and elsewhere the files are as their users see them. */
  lemma {:induction false} DoneKeeps(run: string, files: Files, steps: seq<Change>, s: iset<Path>, k: nat)
    returns (t: Taken)
    requires Fresh(run, files) && TakesFrom(run, steps, s) && SafeSet(run, s) && k <= |steps|
    ensures var (now, names) := DoneBy(run, files, steps[..k]);
            && InStore(run, t, now) && names == t.Names() && Recorded(files, steps, k, t)
            && Outwardly(run, now, Visible(files, steps[..k]))
  {
    hide Safe, Under, InStore, Clear, Store, Relative, Did, Seen, Outwardly, Recorded;
    if k == 0 {
      NothingDone(run, files, steps);
      t := Taken([], map[]);
      FreshRun(run, files);
    } else {
      var t0 := DoneKeeps(run, files, steps, s, k - 1);
      assert steps[..k][..k - 1] == steps[..k - 1];
      var (before, names) := DoneBy(run, files, steps[..k - 1]);
      if steps[k - 1].TakeFile? {
        TakenFrom(run, files, steps, s, k - 1, t0);
      }
      t := DidKeeps(run, before, names, steps[k - 1], t0, Visible(files, steps[..k - 1]));
      RecordedNext(run, files, steps, k - 1, before, t0, t);
    }
  }

  lemma NothingDone(run: string, files: Files, steps: seq<Change>)
    ensures DoneBy(run, files, steps[..0]) == (files, []) && Taken([], map[]).Names() == []
    ensures Recorded(files, steps, 0, Taken([], map[])) && Outwardly(run, files, Visible(files, steps[..0]))
  {
  }

  /** One step keeps what was taken, and shows in the same way in both. */
  lemma {:induction false} DidKeeps(run: string, before: Files, names: seq<string>, c: Change, t0: Taken, seen: Files)
    returns (t: Taken)
    requires InStore(run, t0, before) && names == t0.Names() && !Under(run, c.path) && Outwardly(run, before, seen)
    requires c.TakeFile? ==> Safe(run, c.path) && c.path !in t0.paths
    requires c.TakeFile? ==> forall q | q in t0.paths :: Clear(c.path, q) && Clear(q, c.path)
    ensures InStore(run, t, Did(run, before, names, c).0) && Did(run, before, names, c).1 == t.Names()
    ensures Outwardly(run, Did(run, before, names, c).0, Seen(seen, c))
    ensures var p := c.path;
            t == if c.TakeFile? && p in before then Taken(t0.paths + [p], t0.held[p := before[p]]) else t0
  {
    hide Safe, Under, InStore, Clear, Store, Relative, Renamed;
    t := t0;
    match c {
      case TakeFile(p) =>
        if p in before {
          TakeKeeps(run, t0, before, p);
          t := Taken(t0.paths + [p], t0.held[p := before[p]]);
        }
      case Write(p, x) => WriteKeeps(run, t0, before, before[p := x]);
      case Remove(p) => WriteKeeps(run, t0, before, before - {p});
    }
  }

  /** The next path to take was not taken before, and is clear of all that were. */
  lemma TakenFrom(run: string, files: Files, steps: seq<Change>, s: iset<Path>, k: nat, t: Taken)
    requires k < |steps| && steps[k].TakeFile? && Recorded(files, steps, k, t)
    requires TakesFrom(run, steps, s) && SafeSet(run, s)
    ensures steps[k].path !in t.paths && Safe(run, steps[k].path)
    ensures forall q | q in t.paths :: Clear(steps[k].path, q) && Clear(q, steps[k].path)
  {
    hide Clear, Safe, Under, Visible;
    forall q | q in t.paths
      ensures q in s && q != steps[k].path
    {
      var i :| 0 <= i < k && Took(files, steps, i) && steps[i].path == q;
      assert BothTake(steps, i, k);
    }
  }

  lemma RecordedNext(run: string, files: Files, steps: seq<Change>, k: nat, now: Files, t: Taken, t': Taken)
    requires k < |steps| && !Under(run, steps[k].path) && Recorded(files, steps, k, t)
    requires Outwardly(run, now, Visible(files, steps[..k]))
    requires var p := steps[k].path;
             if steps[k].TakeFile? && p in now then t' == Taken(t.paths + [p], t.held[p := now[p]]) && p !in t.paths
             else t' == t
    ensures Recorded(files, steps, k + 1, t')
  {
    hide Safe, Under, Visible;
    assert Same(now, Visible(files, steps[..k]), steps[k].path);
    if Took(files, steps, k) {
      assert t'.paths == t.paths + [steps[k].path];
    }
    forall p | p in t'.paths
      ensures exists i :: 0 <= i < k + 1 && Took(files, steps, i) && steps[i].path == p
    {
      if p in t.paths {
        var i :| 0 <= i < k && Took(files, steps, i) && steps[i].path == p;
      } else {
        assert Took(files, steps, k) && steps[k].path == p;
      }
    }
  }

  // ---------- undoing a whole run ----------

  /** Undos that are cut short, one after another. */
  function CutShort(run: string, files: Files, cuts: seq<nat>): Files
  {
    if cuts == [] then files else UndoOnce(run, CutShort(run, files, cuts[..|cuts| - 1]), cuts[|cuts| - 1])
  }

  /** As many moves as an undo can need. */
  function AllMoves(run: string, files: Files): nat
  {
    if Unlisted(run, files) then 0 else 2 * |files[ManifestAt(run)].names|
  }

  /** Any number of undos that are cut short, and one that is not. */
  function Undone(run: string, files: Files, cuts: seq<nat>): Files
  {
    var now := CutShort(run, files, cuts);
    UndoOnce(run, now, AllMoves(run, now))
  }

  method UndoRepeatedly(disk: Disk, run: string, cuts: seq<nat>)
    modifies disk
    ensures disk.files == Undone(run, old(disk.files), cuts)
  {
    hide UndoOnce;
    for k := 0 to |cuts|
      invariant disk.files == CutShort(run, old(disk.files), cuts[..k])
    {
      assert cuts[..k + 1][..k] == cuts[..k];
      var _, _, _ := Undo(disk, run, cuts[k]);
    }
    assert cuts[..|cuts|] == cuts;
    var moves := if Unlisted(run, disk.files) then 0 else 2 * |disk.files[ManifestAt(run)].names|;
    var _, _, _ := Undo(disk, run, moves);
  }

  lemma {:induction false} CutsKeep(run: string, t: Taken, w: Files, cuts: seq<nat>)
    requires InStore(run, t, w)
    ensures Undoing(run, t, w, CutShort(run, w, cuts))
    decreases |cuts|
  {
    hide Undoing, InStore, UndoOnce;
    if cuts == [] {
      UndoStarts(run, t, w);
    } else {
      var n := |cuts| - 1;
      CutsKeep(run, t, w, cuts[..n]);
      UndoDoes(run, t, w, CutShort(run, w, cuts[..n]), cuts[n]);
    }
  }

  /** Any number of undos that are cut short anywhere, then one that is not: every file is back. */
  lemma {:induction false} UndoneIsRestored(run: string, t: Taken, w: Files, cuts: seq<nat>)
    requires InStore(run, t, w)
    ensures Restored(run, t, w, Undone(run, w, cuts))
  {
    hide Undoing, InStore, UndoOnce, Restored;
    CutsKeep(run, t, w, cuts);
    UndoDoes(run, t, w, CutShort(run, w, cuts), AllMoves(run, CutShort(run, w, cuts)));
  }

  lemma {:induction false} UndoDoes(run: string, t: Taken, w: Files, files: Files, moves: nat)
    requires Undoing(run, t, w, files)
    ensures Undoing(run, t, w, UndoOnce(run, files, moves))
    ensures moves >= AllMoves(run, files) ==> Restored(run, t, w, UndoOnce(run, files, moves))
    ensures Restored(run, t, w, files) ==> UndoOnce(run, files, moves) == files
  {
    hide Safe, Dir, Untouched, UndoFrom;
    ManifestStays(run, t, w, files);
    UndoKeeps(run, t, w, files, |t.paths|, moves);
  }

  /** One more undo after that changes nothing. */
  lemma UndoneStays(run: string, t: Taken, w: Files, cuts: seq<nat>, moves: nat)
    requires InStore(run, t, w)
    ensures UndoOnce(run, Undone(run, w, cuts), moves) == Undone(run, w, cuts)
  {
    hide Undoing, InStore, UndoOnce, Undone;
    UndoneIsRestored(run, t, w, cuts);
    assert Undoing(run, t, w, Undone(run, w, cuts)) by { RestoredIsUndoing(run, t, w, Undone(run, w, cuts)); }
    UndoDoes(run, t, w, Undone(run, w, cuts), moves);
  }

  lemma RestoredIsUndoing(run: string, t: Taken, w: Files, files: Files)
    requires Restored(run, t, w, files)
    ensures Undoing(run, t, w, files)
  {
  }

  // ---------- what comes back ----------

  /** Every path that was taken holds what it held when it was taken. */
  ghost predicate HeldAgain(files: Files, steps: seq<Change>, now: Files)
  {
    forall i | 0 <= i < |steps| && Took(files, steps, i) :: Holds(now, steps[i].path, Visible(files, steps[..i]))
  }

  ghost predicate Holds(now: Files, p: Path, past: Files)
  {
    p in now && p in past && now[p] == past[p]
  }

  /** What stood in a taken path's place before the undo is under "replaced", and every file that was not taken is as
      the repair left it. */
  ghost predicate KeptAside(run: string, files: Files, steps: seq<Change>, now: Files)
  {
    var end := Visible(files, steps);
    && (forall i | 0 <= i < |steps| && Took(files, steps, i) && steps[i].path in end ::
          var a := Aside(run, Relative(steps[i].path)); a in now && now[a] == end[steps[i].path])
    && forall p | !Under(run, p) && NotTaken(files, steps, p) :: Same(now, end, p)
  }

  ghost predicate NotTaken(files: Files, steps: seq<Change>, p: Path)
  {
    forall i | 0 <= i < |steps| && Took(files, steps, i) :: steps[i].path != p
  }

  /** Repair, then undo, however often the undo is cut short. */
  lemma {:induction false} RunComesBack(run: string, files: Files, steps: seq<Change>, s: iset<Path>, cuts: seq<nat>)
    requires Fresh(run, files) && TakesFrom(run, steps, s) && SafeSet(run, s)
    ensures var now := Undone(run, DoneBy(run, files, steps).0, cuts);
            HeldAgain(files, steps, now) && KeptAside(run, files, steps, now)
  {
    hide *;
    var t := DoneKeeps(run, files, steps, s, |steps|);
    assert steps[..|steps|] == steps;
    var w := DoneBy(run, files, steps).0;
    UndoneIsRestored(run, t, w, cuts);
    Outcome(run, files, steps, t, w, Undone(run, w, cuts));
  }

  lemma Outcome(run: string, files: Files, steps: seq<Change>, t: Taken, w: Files, now: Files)
    requires Recorded(files, steps, |steps|, t) && Outwardly(run, w, Visible(files, steps))
    requires InStore(run, t, w) && Restored(run, t, w, now)
    ensures HeldAgain(files, steps, now) && KeptAside(run, files, steps, now)
  {
    hide Safe, Under, Store, Aside, Relative, Visible;
    forall i | 0 <= i < |steps| && Took(files, steps, i)
      ensures var p, end := steps[i].path, Visible(files, steps);
              && Holds(now, p, Visible(files, steps[..i]))
              && (p in end ==> Aside(run, Relative(p)) in now && now[Aside(run, Relative(p))] == end[p])
    {
      var p := steps[i].path;
      assert Back(run, t, w, now, p);
      SafeIsOutside(run, p);
      assert Same(w, Visible(files, steps), p);
    }
    forall p | !Under(run, p) && NotTaken(files, steps, p)
      ensures Same(now, Visible(files, steps), p)
    {
      NeverTouched(run, files, steps, t, p);
      assert Same(w, Visible(files, steps), p);
    }
  }

  lemma NeverTouched(run: string, files: Files, steps: seq<Change>, t: Taken, p: Path)
    requires t.Valid(run) && Recorded(files, steps, |steps|, t) && !Under(run, p) && NotTaken(files, steps, p)
    ensures Untouched(run, t, p)
  {
    hide Safe, Under, Store, Aside, Relative, Visible, Clear;
    forall r | r in t.paths
      ensures !Touches(run, r, p)
    {
      PlacesApart(run, r, r);
    }
  }

  /** Repair, then undo, however often the undo is cut short: every path that was taken holds what it held when it was
      taken; what stood there before the undo is under "replaced"; every other file is as the repair left it. */
  method RepairThenUndo(q: Quarantine, steps: seq<Change>, ghost s: iset<Path>, cuts: seq<nat>)
    requires q.names == [] && Fresh(q.run, q.disk.files) && TakesFrom(q.run, steps, s) && SafeSet(q.run, s)
    modifies q, q.disk
    ensures HeldAgain(old(q.disk.files), steps, q.disk.files)
    ensures KeptAside(q.run, old(q.disk.files), steps, q.disk.files)
  {
    hide *;
    RunComesBack(q.run, q.disk.files, steps, s, cuts);
    Perform(q, steps);
    UndoRepeatedly(q.disk, q.run, cuts);
  }

  // ---------- one file, and two ----------

  function TakeOne(run: string, files: Files, p: Path): Files
    requires p in files
  {
    Renamed(files, p, Store(run, Relative(p)))[ManifestAt(run) := Record([Relative(p)])]
  }

  /** A run that takes one file and nothing else is undone exactly when the file is neither the git directory's own
      "manifest.json", which the record of the run overwrites, nor below its "abs" directory, which is taken for the
      root of the machine. */
  lemma OneFileIsExact(run: string, files: Files, p: Path)
    requires Proper(p) && p in files && files[p].File? && Fresh(run, files)
    ensures var after := UndoFrom(run, TakeOne(run, files, p), [Relative(p)], 1, 2).0;
            (p in after && after[p] == files[p]) <==> Relative(p) != "manifest.json" && !Mistaken(p)
  {
    hide Dir, Mistaken;
    ResolveIsExact(p);
    StoreIsElsewhere(run, Relative(p));
    OwnPlaces(run, Relative(p));
    OwnPlaces(run, "manifest.json");
    OwnPlaces(run, "replaced/" + Relative(p));
    assert Aside(run, Relative(p)) == Store(run, "replaced/" + Relative(p));
    JoinIsInjective(Dir(run), Relative(p), "manifest.json");
    JoinIsInjective(Dir(run), Relative(p), "replaced/" + Relative(p));
  }

  /** The run that takes one file. A path that is not safe does not come back from it. */
  lemma OneFileRun(run: string, s: iset<Path>, p: Path) returns (files: Files, steps: seq<Change>)
    requires p in s && Proper(p) && !Under(run, p)
    ensures Fresh(run, files) && TakesFrom(run, steps, s)
    ensures HeldAgain(files, steps, Undone(run, DoneBy(run, files, steps).0, [])) ==> Safe(run, p)
  {
    hide UndoFrom, Store, Under, Relative, Mistaken;
    files, steps := map[p := File([1])], [TakeFile(p)];
    var w := TakeOne(run, files, p);
    assert steps[..0] == [] && DoneBy(run, files, []) == (files, []);
    assert DoneBy(run, files, steps) == (w, [Relative(p)]) by { assert [] + [Relative(p)] == [Relative(p)]; }
    assert CutShort(run, w, []) == w && w[ManifestAt(run)] == Record([Relative(p)]);
    OneFileIsExact(run, files, p);
    assert Visible(files, steps[..0]) == files && Took(files, steps, 0);
  }

  /** The run that takes q's place aside and then q, with a new q written afterwards: what stood at the first path is
      overwritten by the new q when that is set aside. */
  lemma TwoFileRun(run: string, s: iset<Path>, p: Path, q: Path) returns (files: Files, steps: seq<Change>)
    requires p in s && q in s && Safe(run, p) && Safe(run, q)
    ensures Fresh(run, files) && TakesFrom(run, steps, s)
    ensures HeldAgain(files, steps, Undone(run, DoneBy(run, files, steps).0, [])) ==> Clear(p, q)
  {
    hide Undone, DoneBy, Under, Relative, Store, Safe;
    if Clear(p, q) {
      return map[], [];
    }
    ClearOfItself(p);
    SafeIsOutside(run, p);
    SafeIsOutside(run, q);
    files, steps := map[p := File([1]), q := File([2])], [TakeFile(p), TakeFile(q), Write(q, File([3]))];
    TwoFilesTaken(run, p, q);
    TwoFilesUndone(run, p, q);
    assert steps[..0] == [] && Visible(files, steps[..0]) == files;
    assert Took(files, steps, 0);
    assert !Holds(Undone(run, DoneBy(run, files, steps).0, []), p, Visible(files, steps[..0]));
  }

  /** The files after those three steps. */
  function TwoTaken(run: string, p: Path, q: Path): Files
  {
    map[Store(run, Relative(p)) := File([1]), Store(run, Relative(q)) := File([2]), q := File([3]),
        ManifestAt(run) := Record([Relative(p), Relative(q)])]
  }

  lemma TwoPlaces(run: string, p: Path, q: Path)
    requires Safe(run, p) && Safe(run, q) && p != q
    ensures var a, b, m := Store(run, Relative(p)), Store(run, Relative(q)), ManifestAt(run);
            && a != b && a != m && b != m && a != p && a != q && b != p && b != q && m != p && m != q
            && Resolve(Relative(p)) == p && Resolve(Relative(q)) == q
  {
    hide Under, Store, Dir;
    SafeIsResolved(run, p);
    SafeIsResolved(run, q);
    SafeIsOutside(run, p);
    SafeIsOutside(run, q);
    OwnPlaces(run, Relative(p));
    OwnPlaces(run, Relative(q));
    OwnPlaces(run, "manifest.json");
    StoresDiffer(run, Relative(p), Relative(q));
    StoresDiffer(run, Relative(p), "manifest.json");
    StoresDiffer(run, Relative(q), "manifest.json");
  }

  lemma StoresDiffer(run: string, a: string, b: string)
    ensures Store(run, a) == Store(run, b) <==> a == b
  {
    JoinIsInjective(Dir(run), a, b);
  }

  lemma TwoFilesTaken(run: string, p: Path, q: Path)
    requires Safe(run, p) && Safe(run, q) && p != q
    ensures var files: Files := map[p := File([1]), q := File([2])];
            DoneBy(run, files, [TakeFile(p), TakeFile(q), Write(q, File([3]))])
              == (TwoTaken(run, p, q), [Relative(p), Relative(q)])
  {
    hide Safe, Relative, Store, Did;
    TwoPlaces(run, p, q);
    var files: Files := map[p := File([1]), q := File([2])];
    var c1, c2, c3 := TakeFile(p), TakeFile(q), Write(q, File([3]));
    var a, b, m := Store(run, Relative(p)), Store(run, Relative(q)), ManifestAt(run);
    var w1: Files := map[a := File([1]), q := File([2]), m := Record([Relative(p)])];
    var w2: Files := map[a := File([1]), b := File([2]), m := Record([Relative(p), Relative(q)])];
    assert [] + [Relative(p)] == [Relative(p)] && [Relative(p)] + [Relative(q)] == [Relative(p), Relative(q)];
    assert (files - {p})[a := File([1])][m := Record([Relative(p)])] == w1;
    DidTake(run, files, [], p, w1);
    assert (w1 - {q})[b := File([2])][m := Record([Relative(p), Relative(q)])] == w2;
    DidTake(run, w1, [Relative(p)], q, w2);
    assert w2[q := File([3])] == TwoTaken(run, p, q);
    DidWrite(run, w2, [Relative(p), Relative(q)], q, TwoTaken(run, p, q));
    DoneByThree(run, files, c1, c2, c3);
  }

  lemma DidTake(run: string, files: Files, names: seq<string>, p: Path, after: Files)
    requires p in files
    requires var moved := (files - {p})[Store(run, Relative(p)) := files[p]];
             after == moved[ManifestAt(run) := Record(names + [Relative(p)])]
    ensures Did(run, files, names, TakeFile(p)) == (after, names + [Relative(p)])
  {
  }

  lemma DidWrite(run: string, files: Files, names: seq<string>, q: Path, after: Files)
    requires after == files[q := File([3])]
    ensures Did(run, files, names, Write(q, File([3]))) == (after, names)
  {
  }

  lemma DoneByThree(run: string, files: Files, c1: Change, c2: Change, c3: Change)
    ensures var (f1, n1) := Did(run, files, [], c1);
            var (f2, n2) := Did(run, f1, n1, c2);
            DoneBy(run, files, [c1, c2, c3]) == Did(run, f2, n2, c3)
  {
    hide Did;
    assert [c1, c2, c3][..2] == [c1, c2] && [c1, c2][..1] == [c1] && [c1][..0] == [];
    assert DoneBy(run, files, [c1]) == Did(run, files, [], c1);
    assert DoneBy(run, files, [c1, c2]) == Did(run, DoneBy(run, files, [c1]).0, DoneBy(run, files, [c1]).1, c2);
  }

  lemma TwoFilesUndone(run: string, p: Path, q: Path)
    requires Safe(run, p) && Safe(run, q) && p != q && !Clear(p, q)
    ensures var now := Undone(run, TwoTaken(run, p, q), []);
            p in now && now[p] == File([3])
  {
    hide Safe, Relative, Dir;
    TwoPlaces(run, p, q);
    var w, names := TwoTaken(run, p, q), [Relative(p), Relative(q)];
    var a, b, m := Store(run, Relative(p)), Store(run, Relative(q)), ManifestAt(run);
    assert Aside(run, Relative(q)) == a by {
      assert Dir(run) + "replaced/" + Relative(q) == Dir(run) + ("replaced/" + Relative(q));
    }
    var cleared := Renamed(w, q, a);
    var back := Renamed(cleared, b, q);
    assert UndoFrom(run, w, names, 2, 4) == UndoFrom(run, back, names, 1, 2);
    assert a in back && back[a] == File([3]) && p !in back;
    assert UndoFrom(run, back, names, 1, 2) == UndoFrom(run, Renamed(back, a, p), names, 0, 1);
    assert CutShort(run, w, []) == w && w[m] == Record(names);
  }

  // ---------- which paths come back ----------

  /** Whatever a repair that takes only paths of `s` does, and however its undo is cut short, every path it took holds
      again what it held. */
  ghost predicate AlwaysComesBack(run: string, s: iset<Path>)
  {
    forall files: Files, steps: seq<Change>, cuts: seq<nat> | Fresh(run, files) && TakesFrom(run, steps, s) ::
      HeldAgain(files, steps, Undone(run, DoneBy(run, files, steps).0, cuts))
  }

  /** The paths that always come back are exactly the sets of paths of which none is the git directory's own
      "manifest.json", none is below its "abs" directory, and none has for its place in the store the place that what
      stands in another one's way is set aside to. Files here are a map from path to content, without directories. On
      a disk an undo can also stop with an error, losing nothing, where the place to set a file aside is above or below
      the place of another file in the store, such as "replaced/x" for "replaced" or "replaced/x/y". */
  lemma {:induction false} SafeSetIsExact(run: string, s: iset<Path>)
    requires forall p | p in s :: Proper(p) && !Under(run, p)
    ensures AlwaysComesBack(run, s) <==> SafeSet(run, s)
  {
    hide Undone, DoneBy, HeldAgain, Fresh, TakesFrom, Clear, Under;
    if SafeSet(run, s) {
      forall files: Files, steps: seq<Change>, cuts: seq<nat> | Fresh(run, files) && TakesFrom(run, steps, s)
        ensures HeldAgain(files, steps, Undone(run, DoneBy(run, files, steps).0, cuts))
      {
        RunComesBack(run, files, steps, s, cuts);
      }
    }
    if AlwaysComesBack(run, s) {
      forall p | p in s
        ensures Safe(run, p)
      {
        var files, steps := OneFileRun(run, s, p);
        assert HeldAgain(files, steps, Undone(run, DoneBy(run, files, steps).0, []));
      }
      forall p, q | p in s && q in s
        ensures Clear(p, q)
      {
        var files, steps := TwoFileRun(run, s, p, q);
        assert HeldAgain(files, steps, Undone(run, DoneBy(run, files, steps).0, []));
      }
    }
  }
}
