/** Tree objects: the entry decoder and the one-pass order check (internal/fsck/tree.go). */
module TreeOrder {
  import opened Bytes
  import opened Powers

  const Space: Byte := 32
  const Slash: Byte := 47
  const ModeWrap := 0x1_0000_0000

  /** `raw` is the mode as stored, `mode` its 32-bit value. */
  datatype TreeEntry = TreeEntry(mode: nat, name: Name, oid: seq<Byte>, raw: seq<Byte>)
  {
    predicate IsDir() { mode / 4096 % 16 == 4 }

    /** The bytes the entry occupies in a tree object. */
    function Encode(): seq<Byte> { raw + [Space] + name + [0] + oid }
  }

  // ---------- decoding ----------

  /** bytes.IndexByte, with -1 for an absent byte. */
  function IndexByte(s: seq<Byte>, c: Byte): (i: int)
    ensures -1 <= i < |s|
    ensures i >= 0 ==> s[i] == c && c !in s[..i]
    ensures i < 0 ==> c !in s
  {
    if s == [] then -1
    else if s[0] == c then 0
    else
      var r := IndexByte(s[1..], c);
      assert r >= 0 ==> s[..r + 1] == [s[0]] + s[1..][..r];
      if r < 0 then -1 else r + 1
  }

  predicate Octal(digits: seq<Byte>) { forall i | 0 <= i < |digits| :: 48 <= digits[i] <= 55 }

  function OctalValue(digits: seq<Byte>): nat
    requires Octal(digits)
  {
    if digits == [] then 0
    else
      (OctalValue(digits[..|digits| - 1]) * 8 + (digits[|digits| - 1] - 48)) % ModeWrap
  }

  // ---------- what the digits of a mode say ----------

  /** A number in octal, the most significant digit first. */
  function OctalDigits(v: nat): (s: seq<Byte>)
    ensures Octal(s) && s != []
  {
    if v < 8 then [48 + v] else OctalDigits(v / 8) + [48 + v % 8]
  }

  /** Reading octal digits gives back the number that was written, with any zeros before it; what does not fit into 32
      bits is cut off. */
  lemma {:induction false} OctalInverts(v: nat, zeros: seq<Byte>)
    requires forall i | 0 <= i < |zeros| :: zeros[i] == 48
    ensures Octal(zeros + OctalDigits(v)) && OctalValue(zeros + OctalDigits(v)) == v % 0x1_0000_0000
    decreases v
  {
    hide OctalValue;
    var s := zeros + OctalDigits(v);
    if v < 8 {
      ZerosAreNothing(zeros);
      assert s[..|s| - 1] == zeros;
    } else {
      OctalInverts(v / 8, zeros);
      assert s[..|s| - 1] == zeros + OctalDigits(v / 8);
      OctalCarries(v / 8, v % 8);
    }
    OctalSnoc(s);
  }

  lemma OctalSnoc(s: seq<Byte>)
    requires Octal(s) && s != []
    ensures OctalValue(s) == (OctalValue(s[..|s| - 1]) * 8 + (s[|s| - 1] - 48)) % ModeWrap
  {
  }

  lemma {:induction false} ZerosAreNothing(zeros: seq<Byte>)
    requires forall i | 0 <= i < |zeros| :: zeros[i] == 48
    ensures OctalValue(zeros) == 0
    decreases |zeros|
  {
    if zeros != [] {
      ZerosAreNothing(zeros[..|zeros| - 1]);
    }
  }

  lemma OctalCarries(high: nat, low: nat)
    ensures (high % ModeWrap * 8 + low) % ModeWrap == (high * 8 + low) % ModeWrap
  {
    var q, a := high / ModeWrap, high % ModeWrap * 8 + low;
    assert high * 8 + low == ModeWrap * (8 * q + a / ModeWrap) + a % ModeWrap;
  }

  /** The digits of a directory's mode: the fifth from the end is 4, and the one before it, if any, is even. */
  predicate DirDigits(raw: seq<Byte>)
  {
    var n := |raw|;
    n >= 5 && raw[n - 5] == 52 && (n >= 6 ==> raw[n - 6] % 2 == 0)
  }

  /** Whether a mode is a directory's shows in its digits. */
  lemma DirByDigits(raw: seq<Byte>)
    requires Octal(raw)
    ensures OctalValue(raw) / 4096 % 16 == 4 <==> DirDigits(raw)
  {
    hide OctalValue;
    var n := |raw|;
    if n < 5 {
      FewDigits(raw);
    } else {
      hide DirDigits;
      FourDigitsOff(raw);
      var high := raw[..n - 4];
      assert high[n - 5] == raw[n - 5] && high[..n - 5] == raw[..n - 5];
      OctalEnds(high);
      Sixteenths(OctalValue(raw), OctalValue(high));
      FourAndEven(raw, OctalValue(high));
    }
  }

  lemma FourAndEven(raw: seq<Byte>, v: nat)
    requires Octal(raw) && |raw| >= 5 && v % 16 == OctalValue(raw[..|raw| - 5]) % 2 * 8 + raw[|raw| - 5] - 48
    ensures v % 16 == 4 <==> DirDigits(raw)
  {
    hide OctalValue;
    var n := |raw|;
    var top := raw[..n - 5];
    OctalEnds(top);
    if n >= 6 {
      assert top[n - 6] == raw[n - 6];
      SameParity(OctalValue(top), raw[n - 6]);
    }
  }

  lemma SameParity(v: nat, digit: Byte)
    requires digit >= 48 && v % 8 == digit - 48
    ensures v % 2 == digit % 2
  {
    DivIs(v, 2, 4 * (v / 8) + (digit - 48) / 2, digit % 2);
  }

  lemma Sixteenths(v: nat, high: nat)
    requires v / 4096 == high % 0x10_0000
    ensures v / 4096 % 16 == high % 16
  {
    assert high == 16 * (0x1_0000 * (high / 0x10_0000) + high % 0x10_0000 / 16) + high % 0x10_0000 % 16;
  }

  lemma {:induction false} FewDigits(s: seq<Byte>)
    requires Octal(s) && |s| < 5
    ensures OctalValue(s) < if |s| == 0 then 1 else if |s| == 1 then 8 else if |s| == 2 then 64
                            else if |s| == 3 then 512 else 4096
  {
    hide OctalValue;
    OctalEnds(s);
    if s != [] {
      FewDigits(s[..|s| - 1]);
      OctalSplits(OctalValue(s[..|s| - 1]), s[|s| - 1] - 48);
    }
  }

  /** The last digit, and the number before it. */
  lemma OctalEnds(s: seq<Byte>)
    requires Octal(s)
    ensures OctalValue(s) < ModeWrap
    ensures s == [] ==> OctalValue(s) == 0
    ensures s != [] ==>
      var high := s[..|s| - 1];
      && Octal(high) && OctalValue(s) % 8 == s[|s| - 1] - 48 && OctalValue(s) / 8 == OctalValue(high) % 0x2000_0000
      && OctalValue(s) % 16 == OctalValue(high) % 2 * 8 + s[|s| - 1] - 48
  {
    if s != [] {
      OctalSplits(OctalValue(s[..|s| - 1]), s[|s| - 1] - 48);
    }
  }

  lemma OctalSplits(high: nat, low: nat)
    requires low < 8
    ensures var v := (high * 8 + low) % ModeWrap;
            v % 8 == low && v / 8 == high % 0x2000_0000 && v % 16 == high % 2 * 8 + low
  {
    var q, r := high / 0x2000_0000, high % 0x2000_0000;
    DivIs(high * 8 + low, ModeWrap, q, 8 * r + low);
    DivIs(8 * r + low, 8, r, low);
    DivIs(high, 2, 0x1000_0000 * q + r / 2, r % 2);
    DivIs(8 * r + low, 16, r / 2, 8 * (r % 2) + low);
  }

  /** Dividing by eight again, inside what 32 bits hold. */
  lemma Eighths(x: nat, y: nat)
    requires x / 8 == y % 0x2000_0000
    ensures x % 0x2000_0000 / 8 == y % 0x400_0000 && x % 0x400_0000 / 8 == y % 0x80_0000
    ensures x % 0x80_0000 / 8 == y % 0x10_0000
  {
    EighthOf(x, y, 0x400_0000);
    EighthOf(x, y, 0x80_0000);
    EighthOf(x, y, 0x10_0000);
  }

  lemma EighthOf(x: nat, y: nat, m: nat)
    requires x / 8 == y % 0x2000_0000 && (m == 0x400_0000 || m == 0x80_0000 || m == 0x10_0000)
    ensures x % (8 * m) / 8 == y % m
  {
    var u, e, k := x / 8, x % 8, y / 0x2000_0000;
    var q, r := u / m, u % m;
    if m == 0x400_0000 {
      DivIs(x, 0x2000_0000, q, 8 * r + e);
      DivIs(y, 0x400_0000, 8 * k + q, r);
    } else if m == 0x80_0000 {
      DivIs(x, 0x400_0000, q, 8 * r + e);
      DivIs(y, 0x80_0000, 64 * k + q, r);
    } else {
      DivIs(x, 0x80_0000, q, 8 * r + e);
      DivIs(y, 0x10_0000, 512 * k + q, r);
    }
    DivIs(8 * r + e, 8, r, e);
  }

  lemma FourDigitsOff(s: seq<Byte>)
    requires Octal(s) && |s| >= 4
    ensures OctalValue(s) / 4096 == OctalValue(s[..|s| - 4]) % 0x10_0000
  {
    hide OctalValue;
    var a, b, c := s[..|s| - 1], s[..|s| - 2], s[..|s| - 3];
    OctalEnds(s);
    OctalEnds(a);
    OctalEnds(b);
    OctalEnds(c);
    assert a[..|a| - 1] == b && b[..|b| - 1] == c && c[..|c| - 1] == s[..|s| - 4];
    Eighths(OctalValue(a), OctalValue(b));
    Eighths(OctalValue(b), OctalValue(c));
    Eighths(OctalValue(c), OctalValue(s[..|s| - 4]));
  }

  /** An entry as git writes it: an octal mode, a non-empty NUL-free name and a whole object name. */
  predicate WellFormed(e: TreeEntry, rawsz: nat)
  {
    && e.raw != [] && Octal(e.raw) && e.mode == OctalValue(e.raw)
    && e.name != [] && 0 !in e.name
    && |e.oid| == rawsz
  }

  function DecodeTreeEntry(buf: seq<Byte>, rawsz: nat): (r: Option<(TreeEntry, seq<Byte>)>)
    ensures r.Some? ==> |r.value.1| < |buf|
  {
    if |buf| < rawsz + 3 then None else
    var sp := IndexByte(buf, Space);
    if sp <= 0 || !Octal(buf[..sp]) then None else
    var tail := buf[sp + 1..];
    var nul := IndexByte(tail, 0);
    if nul <= 0 || nul + 1 + rawsz > |tail| then None else
    Some((TreeEntry(OctalValue(buf[..sp]), tail[..nul], tail[nul + 1..nul + 1 + rawsz], buf[..sp]),
          tail[nul + 1 + rawsz..]))
  }

  function EncodeAll(es: seq<TreeEntry>): seq<Byte>
  {
    if es == [] then [] else EncodeAll(es[..|es| - 1]) + es[|es| - 1].Encode()
  }

  lemma EncodeParts(e: TreeEntry, rest: seq<Byte>)
    ensures e.Encode() + rest == e.raw + [Space] + (e.name + [0] + e.oid + rest)
  {
  }

  /** Whatever decodes is well formed and is exactly the bytes it was decoded from. */
  lemma DecodeIsExact(buf: seq<Byte>, rawsz: nat)
    ensures var r := DecodeTreeEntry(buf, rawsz);
            r.Some? ==> WellFormed(r.value.0, rawsz) && buf == r.value.0.Encode() + r.value.1
  {
    hide OctalValue;
    var r := DecodeTreeEntry(buf, rawsz);
    if r.Some? {
      var sp := IndexByte(buf, Space);
      var tail := buf[sp + 1..];
      var nul := IndexByte(tail, 0);
      assert buf == buf[..sp] + [Space] + tail;
      assert tail == tail[..nul] + [0] + tail[nul + 1..nul + 1 + rawsz] + tail[nul + 1 + rawsz..];
      EncodeParts(r.value.0, r.value.1);
    }
  }

  /** Every well-formed entry decodes back to itself, whatever follows it. */
  lemma DecodeInvertsEncode(e: TreeEntry, rawsz: nat, rest: seq<Byte>)
    requires WellFormed(e, rawsz)
    ensures DecodeTreeEntry(e.Encode() + rest, rawsz) == Some((e, rest))
  {
    var buf := e.Encode() + rest;
    var sp := |e.raw|;
    var tail := e.name + [0] + e.oid + rest;
    EncodeParts(e, rest);
    assert buf[..sp] == e.raw && buf[sp] == Space && buf[sp + 1..] == tail;
    IndexByteIs(buf, Space, sp);
    TailSlices(e.name, e.oid, rest);
    IndexByteIs(tail, 0, |e.name|);
  }

  lemma TailSlices(name: Name, oid: seq<Byte>, rest: seq<Byte>)
    ensures var tail := name + [0] + oid + rest;
            var k := |name| + 1;
            && tail[..|name|] == name && tail[|name|] == 0
            && tail[k..k + |oid|] == oid && tail[k + |oid|..] == rest
  {
  }

  lemma IndexByteIs(s: seq<Byte>, c: Byte, i: nat)
    requires i < |s| && s[i] == c && c !in s[..i]
    ensures IndexByte(s, c) == i
  {
    var k := IndexByte(s, c);
    assert c in s;
    assert forall j | 0 <= j < i :: s[j] == s[..i][j] && s[j] != c;
    assert k >= 0 ==> forall j | 0 <= j < k :: s[j] == s[..k][j] && s[j] != c;
  }

  lemma EncodeAllSnoc(es: seq<TreeEntry>, e: TreeEntry, rest: seq<Byte>)
    ensures EncodeAll(es) + (e.Encode() + rest) == EncodeAll(es + [e]) + rest
  {
    assert (es + [e])[..|es|] == es;
  }

  /** ParseTree: the entries are well formed, and their bytes are the whole input up to the point of failure. */
  method ParseTree(buf: seq<Byte>, rawsz: nat) returns (out: seq<TreeEntry>, failed: bool)
    ensures forall e | e in out :: WellFormed(e, rawsz)
    ensures |EncodeAll(out)| <= |buf| && EncodeAll(out) == buf[..|EncodeAll(out)|]
    ensures !failed ==> EncodeAll(out) == buf
    ensures failed ==> |EncodeAll(out)| < |buf| && DecodeTreeEntry(buf[|EncodeAll(out)|..], rawsz).None?
  {
    out, failed := [], false;
    var rest := buf;
    while rest != []
      invariant forall e | e in out :: WellFormed(e, rawsz)
      invariant buf == EncodeAll(out) + rest
      decreases |rest|
    {
      var d := DecodeTreeEntry(rest, rawsz);
      if d.None? {
        assert buf[|EncodeAll(out)|..] == rest;
        failed := true;
        return;
      }
      DecodeIsExact(rest, rawsz);
      EncodeAllSnoc(out, d.value.0, d.value.1);
      out, rest := out + [d.value.0], d.value.1;
    }
  }

  // ---------- the order check ----------

  datatype Order = Ordered | Unordered | HasDups

  predicate LessThanSlash(c: int) { 0 < c < Slash }

  /** treeSortName: a directory sorts as though its name ended in a slash. */
  function SortKey(e: TreeEntry): Name
  {
    if e.IsDir() then e.name + [Slash] else e.name
  }

  predicate IsPrefix(f: Name, name: Name) { |f| <= |name| && name[..|f|] == f }

  /** `name` carries on from `f` with a byte below a slash, so it lies between the file `f` and the directory `f`. */
  predicate Between(f: Name, name: Name)
  {
    IsPrefix(f, name) && |f| < |name| && LessThanSlash(name[|f|])
  }

  /** The candidate loop: what is left of the stack, and whether a candidate has this very name. */
  function PopCandidates(cands: seq<Name>, name: Name): (r: (seq<Name>, bool))
  {
    if cands == [] then (cands, false)
    else
      var f, below := cands[|cands| - 1], cands[..|cands| - 1];
      if !IsPrefix(f, name) then PopCandidates(below, name)
      else if |f| == |name| then (below, true)
      else if LessThanSlash(name[|f|]) then (cands, false)
      else PopCandidates(below, name)
  }

  /** The byte after the common part: 0 at the end of a file name, a slash at the end of a directory name. */
  function Terminal(e: TreeEntry, l: nat): int
    requires l <= |e.name|
  {
    if l < |e.name| then e.name[l] else if e.IsDir() then Slash else 0
  }

  /** verifyOrdered as a function of the candidate stack. */
  function VerifyOrderedSpec(e1: TreeEntry, e2: TreeEntry, cands: seq<Name>): (Order, seq<Name>)
  {
    var l := if |e1.name| < |e2.name| then |e1.name| else |e2.name|;
    var p := CommonPrefix(e1.name, e2.name);
    if p < l then (if e1.name[p] < e2.name[p] then Ordered else Unordered, cands)
    else if |e1.name| == |e2.name| then (HasDups, cands)
    else
      var c1, c2 := Terminal(e1, l), Terminal(e2, l);
      var order := if c1 < c2 then Ordered else Unordered;
      if c1 == 0 && LessThanSlash(c2) then (order, cands + [e1.name])
      else if c2 == Slash && LessThanSlash(c1) then
        var (left, dup) := PopCandidates(cands, e2.name);
        (if dup then HasDups else order, left)
      else (order, cands)
  }

  /** verifyOrdered. Names hold no NUL, so a missing byte and a NUL byte cannot be confused. */
  method VerifyOrdered(e1: TreeEntry, e2: TreeEntry, cands: seq<Name>) returns (order: Order, left: seq<Name>)
    requires 0 !in e1.name && 0 !in e2.name
    ensures (order, left) == VerifyOrderedSpec(e1, e2, cands)
  {
    left := cands;
    var l := if |e1.name| < |e2.name| then |e1.name| else |e2.name|;
    CommonPrefixIs(e1.name[..l], e2.name[..l], CutPrefix(e1.name, e2.name, l));
    if e1.name[..l] != e2.name[..l] {
      order := if Less(e1.name[..l], e2.name[..l]) then Ordered else Unordered;
      return;
    }
    var c1: int := if |e1.name| > l then e1.name[l] else 0;
    var c2: int := if |e2.name| > l then e2.name[l] else 0;
    if c1 == 0 && c2 == 0 {
      return HasDups, left;
    }
    if c1 == 0 && e1.IsDir() { c1 := Slash; }
    if c2 == 0 && e2.IsDir() { c2 := Slash; }
    if c1 == 0 && LessThanSlash(c2) {
      left := left + [e1.name];
    } else if c2 == Slash && LessThanSlash(c1) {
      while left != []
        invariant PopCandidates(left, e2.name) == PopCandidates(cands, e2.name)
      {
        var f := left[|left| - 1];
        ghost var before := left;
        left := left[..|left| - 1];
        if !IsPrefix(f, e2.name) { continue; }
        var p := e2.name[|f|..];
        if |p| == 0 { return HasDups, left; }
        if LessThanSlash(p[0]) {
          left := left + [f];
          assert left == before;
          break;
        }
      }
    }
    order := if c1 < c2 then Ordered else Unordered;
  }

  /** The common prefix of two names cut to `l` bytes. */
  ghost function CutPrefix(a: Name, b: Name, l: nat): (p: nat)
    requires l <= |a| && l <= |b| && (l == |a| || l == |b|)
    ensures p == CommonPrefix(a, b) <= l
    ensures a[..l][..p] == b[..l][..p] && (p == l <==> a[..l] == b[..l])
  {
    var p := CommonPrefix(a, b);
    assert a[..l][..p] == a[..p] && b[..l][..p] == b[..p];
    assert p < l ==> a[..l][p] != b[..l][p];
    p
  }

  // ---------- what the one pass establishes ----------

  predicate NulFree(es: seq<TreeEntry>) { forall i | 0 <= i < |es| :: 0 !in es[i].name }

  predicate SlashFree(es: seq<TreeEntry>) { forall i | 0 <= i < |es| :: Slash !in es[i].name }

  /** Strictly increasing in path order, over every pair of positions. */
  ghost predicate Increasing(es: seq<TreeEntry>)
  {
    forall i, j | 0 <= i < j < |es| :: Less(SortKey(es[i]), SortKey(es[j]))
  }

  ghost predicate DistinctNames(es: seq<TreeEntry>)
  {
    forall i, j | 0 <= i < j < |es| :: es[i].name != es[j].name
  }

  /** The fold over the entries: the candidate stack, `notSorted` and `hasDupEntries`. */
  function Fold(es: seq<TreeEntry>): (seq<Name>, bool, bool)
  {
    if |es| <= 1 then ([], false, false)
    else
      var n := |es| - 1;
      var (cands, notSorted, hasDups) := Fold(es[..n]);
      var (order, left) := VerifyOrderedSpec(es[n - 1], es[n], cands);
      (left, notSorted || order == Unordered, hasDups || order == HasDups)
  }

  predicate NoComplaint(es: seq<TreeEntry>) { !Fold(es).1 && !Fold(es).2 }

  /** The check over decoded entries, with the full-path flag beside the two order flags. */
  method CheckOrder(es: seq<TreeEntry>) returns (fullPath: bool, notSorted: bool, hasDups: bool)
    requires NulFree(es)
    ensures (notSorted, hasDups) == (Fold(es).1, Fold(es).2)
    ensures (!fullPath && !notSorted && !hasDups) <==> (SlashFree(es) && Increasing(es) && DistinctNames(es))
  {
    hide VerifyOrderedSpec, SortKey, Less;
    fullPath, notSorted, hasDups := false, false, false;
    var cands: seq<Name> := [];
    for i := 0 to |es|
      invariant fullPath <==> exists k :: 0 <= k < i && Slash in es[k].name
      invariant (cands, notSorted, hasDups) == Fold(es[..i])
    {
      assert es[..i + 1][..i] == es[..i];
      fullPath := fullPath || IndexByte(es[i].name, Slash) >= 0;
      if i > 0 {
        var order;
        order, cands := VerifyOrdered(es[i - 1], es[i], cands);
        notSorted := notSorted || order == Unordered;
        hasDups := hasDups || order == HasDups;
      }
    }
    assert es[..|es|] == es;
    if SlashFree(es) {
      FoldIsExact(es);
    }
  }

  /** Neither flag is raised exactly when the entries increase and no name repeats, adjacent or not. */
  lemma {:induction false} FoldIsExact(es: seq<TreeEntry>)
    requires NulFree(es) && SlashFree(es)
    ensures NoComplaint(es) <==> Increasing(es) && DistinctNames(es)
    ensures NoComplaint(es) && es != [] ==> StackInv(es, Fold(es).0)
  {
    hide *;
    if |es| > 1 {
      var n := |es| - 1;
      CutFree(es, n);
      FoldIsExact(es[..n]);
      assert es == es[..n] + [es[n]];
      FoldStep(es[..n], es[n]);
    } else {
      FewAreOrdered(es);
    }
  }

  lemma CutFree(es: seq<TreeEntry>, n: nat)
    requires NulFree(es) && SlashFree(es) && n <= |es|
    ensures NulFree(es[..n]) && SlashFree(es[..n])
  {
  }

  lemma FewAreOrdered(es: seq<TreeEntry>)
    requires |es| <= 1
    ensures NoComplaint(es) && Increasing(es) && DistinctNames(es)
    ensures es != [] ==> StackInv(es, Fold(es).0)
  {
  }

  lemma FoldStep(es: seq<TreeEntry>, e: TreeEntry)
    requires es != [] && NulFree(es + [e]) && SlashFree(es + [e])
    requires NoComplaint(es) <==> Increasing(es) && DistinctNames(es)
    requires NoComplaint(es) ==> StackInv(es, Fold(es).0)
    ensures NoComplaint(es + [e]) <==> Increasing(es + [e]) && DistinctNames(es + [e])
    ensures NoComplaint(es + [e]) ==> StackInv(es + [e], Fold(es + [e]).0)
  {
    hide *;
    var last := es[|es| - 1];
    FoldSnoc(es, e);
    FrontsToo(es, e);
    if NoComplaint(es) {
      var cands := Fold(es).0;
      PairOrder(last, e, cands);
      if Less(SortKey(last), SortKey(e)) {
        IncreasingSnoc(es, e);
        ClashIsFound(es, e, cands);
        StackStep(es, e, cands);
      }
    }
  }

  lemma FoldSnoc(es: seq<TreeEntry>, e: TreeEntry)
    requires es != []
    ensures var (order, left) := VerifyOrderedSpec(es[|es| - 1], e, Fold(es).0);
            Fold(es + [e]).0 == left && (NoComplaint(es + [e]) <==> NoComplaint(es) && order == Ordered)
  {
    hide VerifyOrderedSpec;
    var all := es + [e];
    assert all[..|es|] == es && all[|es| - 1] == es[|es| - 1] && all[|es|] == e;
  }

  lemma FrontsToo(es: seq<TreeEntry>, e: TreeEntry)
    requires es != [] && NulFree(es + [e]) && SlashFree(es + [e])
    ensures Increasing(es + [e]) ==> Increasing(es) && Less(SortKey(es[|es| - 1]), SortKey(e))
    ensures DistinctNames(es + [e]) ==> DistinctNames(es)
    ensures 0 !in es[|es| - 1].name && 0 !in e.name && Slash !in es[|es| - 1].name && Slash !in e.name
  {
    hide Less, SortKey;
    var all := es + [e];
    assert forall i | 0 <= i < |es| :: all[i] == es[i];
    assert all[|es|] == e;
  }

  /** The candidate stack of an increasing list: file names already passed, in order, holding every one that
      the directory of the same name could still clash with. */
  ghost predicate StackInv(es: seq<TreeEntry>, cands: seq<Name>)
    requires es != []
  {
    var n := |es| - 1;
    && (forall f | f in cands :: FileBefore(es, n, f))
    && (forall i | 0 <= i < n && !es[i].IsDir() && Between(es[i].name, es[n].name) :: es[i].name in cands)
    && SortedNames(cands)
  }

  ghost predicate FileBefore(es: seq<TreeEntry>, n: nat, f: Name)
    requires n <= |es|
  {
    exists i :: 0 <= i < n && !es[i].IsDir() && es[i].name == f
  }

  ghost predicate SortedNames(s: seq<Name>)
  {
    forall a, b | 0 <= a < b < |s| :: Less(s[a], s[b])
  }

  lemma IncreasingSnoc(es: seq<TreeEntry>, e: TreeEntry)
    requires es != [] && Increasing(es) && Less(SortKey(es[|es| - 1]), SortKey(e))
    ensures Increasing(es + [e])
  {
    hide Less, SortKey;
    forall i | 0 <= i < |es| - 1
      ensures Less(SortKey(es[i]), SortKey(e))
    {
      LessTransitive(SortKey(es[i]), SortKey(es[|es| - 1]), SortKey(e));
    }
  }

  /** Two different names compare as their sort keys do. */
  lemma PairOrder(e1: TreeEntry, e2: TreeEntry, cands: seq<Name>)
    requires 0 !in e1.name && 0 !in e2.name && Slash !in e1.name && Slash !in e2.name
    ensures var order := VerifyOrderedSpec(e1, e2, cands).0;
            && (e1.name == e2.name ==> order == HasDups)
            && (order == Ordered ==> Less(SortKey(e1), SortKey(e2)))
            && (order == Unordered ==> !Less(SortKey(e1), SortKey(e2)))
  {
    hide PopCandidates, Less;
    var p := CommonPrefix(e1.name, e2.name);
    CommonPrefixIs(e1.name, e1.name, |e1.name|);
    assert e1.name[..|e1.name|] == e1.name && e2.name[..|e2.name|] == e2.name;
    if e1.name != e2.name {
      KeyStarts(e1, p);
      KeyStarts(e2, p);
      KeysDiffer(SortKey(e1), SortKey(e2), p);
    }
  }

  /** A sort key is the name as far as the name goes. */
  lemma KeyStarts(e: TreeEntry, p: nat)
    requires p <= |e.name| && 0 !in e.name && Slash !in e.name
    ensures SortKey(e)[..p] == e.name[..p] && |e.name| <= |SortKey(e)|
    ensures p < |e.name| ==> SortKey(e)[p] == e.name[p] && e.name[p] != Slash && e.name[p] != 0
    ensures p == |e.name| ==> if e.IsDir() then |SortKey(e)| == p + 1 && SortKey(e)[p] == Slash else |SortKey(e)| == p
  {
    assert p < |e.name| ==> e.name[p] in e.name;
  }

  /** Two strings compare by the first byte in which they differ. */
  lemma KeysDiffer(a: Name, b: Name, p: nat)
    requires p <= |a| && p <= |b| && a[..p] == b[..p] && (p < |a| && p < |b| ==> a[p] != b[p])
    ensures Less(a, b) <==> p < |b| && (p == |a| || a[p] < b[p])
  {
    CommonPrefixIs(a, b, p);
  }

  /** What lies strictly between `f` and `f` continued by a byte continues `f` too, by no larger a byte. */
  lemma Squeeze(f: Name, x: Name, y: Name)
    requires Less(f, x) && Less(x, y) && |f| < |y| && IsPrefix(f, y)
    ensures IsPrefix(f, x) && |f| < |x| && x[|f|] <= y[|f|]
  {
    var p := CommonPrefix(f, x);
    assert f[..|f|] == f;
    assert y[..p] == f[..p];
    assert p < |f| ==> f[p] == y[p];
    var q := CommonPrefix(x, y);
    assert forall i | 0 <= i < q :: x[i] == x[..q][i] && y[i] == y[..q][i];
    assert forall i | 0 <= i < p :: x[i] == x[..p][i] && y[i] == y[..p][i];
  }

  /** An earlier file that `name` still lies inside also has the entry before `name` inside it. */
  lemma StillBetween(es: seq<TreeEntry>, e: TreeEntry, i: nat)
    requires i < |es| - 1 && !es[i].IsDir() && Increasing(es + [e])
    requires NulFree(es + [e]) && SlashFree(es + [e])
    requires IsPrefix(es[i].name, SortKey(e)) && |es[i].name| < |SortKey(e)| && SortKey(e)[|es[i].name|] <= Slash
    ensures Between(es[i].name, es[|es| - 1].name)
  {
    var all, last, f := es + [e], es[|es| - 1], es[i].name;
    assert all[i] == es[i] && all[|es| - 1] == last && all[|es|] == e;
    var x, y := SortKey(last), SortKey(e);
    Squeeze(f, x, y);
    LessIrreflexive(y);
    assert forall k | 0 <= k < |last.name| :: last.name[k] != Slash && last.name[k] != 0;
    assert forall k | 0 <= k < |e.name| :: e.name[k] != Slash;
    assert |last.name| == |f| && |e.name| == |f| ==> x == f + [Slash] == y;
    SameKeys(f, last, e);
  }

  /** If both keys are `f` and a slash, they are the same key. */
  lemma SameKeys(f: Name, last: TreeEntry, e: TreeEntry)
    requires IsPrefix(f, SortKey(last)) && IsPrefix(f, SortKey(e)) && |f| < |SortKey(last)| && |f| < |SortKey(e)|
    requires Slash !in last.name && Slash !in e.name
    ensures SortKey(last)[|f|] == Slash && SortKey(e)[|f|] == Slash ==> SortKey(last) == SortKey(e)
    ensures |f| < |last.name| ==> SortKey(last)[|f|] == last.name[|f|] && IsPrefix(f, last.name)
  {
    var x, y := SortKey(last), SortKey(e);
    assert |f| < |last.name| ==> x[|f|] == last.name[|f|] && x[..|f|] == last.name[..|f|];
    assert |f| < |e.name| ==> y[|f|] == e.name[|f|];
    assert x[|f|] == Slash ==> x == x[..|f|] + [Slash];
    assert y[|f|] == Slash ==> y == y[..|f|] + [Slash];
  }

  /** Popping keeps a lower part of the stack, keeps every name the directory still lies inside, and answers
      a clash only with a name that was pending. */
  lemma PopKeeps(cands: seq<Name>, name: Name)
    ensures var (left, dup) := PopCandidates(cands, name);
            && left <= cands
            && (dup ==> name in cands)
            && (forall f | f in cands && Between(f, name) :: f in left)
  {
    if cands != [] {
      var f, below := cands[|cands| - 1], cands[..|cands| - 1];
      assert cands == below + [f];
      PopKeeps(below, name);
      assert IsPrefix(f, name) && |f| == |name| ==> f == name[..|name|] == name;
    }
  }

  /** A pending file is reached when its directory arrives: nothing above it in the stack stops the popping. */
  lemma PopFinds(cands: seq<Name>, name: Name)
    requires SortedNames(cands) && name in cands
    ensures PopCandidates(cands, name).1
  {
    var top, below := cands[|cands| - 1], cands[..|cands| - 1];
    assert cands == below + [top];
    assert name[..|name|] == name;
    if top != name {
      assert name in below;
      PopFinds(below, name);
      if IsPrefix(top, name) {
        PrefixLess(top, name);
      }
      var a :| 0 <= a < |below| && below[a] == name;
      assert Less(cands[a], cands[|cands| - 1]);
    }
  }

  /** The next entry raises the duplicate flag exactly when its name is already there. */
  lemma ClashIsFound(es: seq<TreeEntry>, e: TreeEntry, cands: seq<Name>)
    requires es != [] && StackInv(es, cands) && DistinctNames(es)
    requires Increasing(es + [e]) && NulFree(es + [e]) && SlashFree(es + [e])
    ensures VerifyOrderedSpec(es[|es| - 1], e, cands).0 == HasDups <==> !DistinctNames(es + [e])
  {
    var all, last := es + [e], es[|es| - 1];
    assert all[|es| - 1] == last && all[|es|] == e;
    PairOrder(last, e, cands);
    if VerifyOrderedSpec(last, e, cands).0 == HasDups {
      HasDupsNamesOne(last, e, cands);
      var i :| 0 <= i < |es| && es[i].name == e.name;
      assert all[i].name == all[|es|].name;
    } else {
      forall i | 0 <= i < |es|
        ensures all[i].name != e.name
      {
        if i < |es| - 1 && es[i].name == e.name {
          EarlierClash(es, e, i, cands);
        }
      }
      assert forall i, j | 0 <= i < j < |es| :: all[i] == es[i] && all[j] == es[j];
    }
  }

  lemma HasDupsNamesOne(last: TreeEntry, e: TreeEntry, cands: seq<Name>)
    requires VerifyOrderedSpec(last, e, cands).0 == HasDups
    ensures last.name == e.name || e.name in cands
  {
    PopKeeps(cands, e.name);
    assert last.name[..|last.name|] == last.name && e.name[..|e.name|] == e.name;
  }

  /** A file and the directory of the same name further on. */
  lemma EarlierClash(es: seq<TreeEntry>, e: TreeEntry, i: nat, cands: seq<Name>)
    requires es != [] && StackInv(es, cands) && i < |es| - 1 && es[i].name == e.name
    requires Increasing(es + [e]) && NulFree(es + [e]) && SlashFree(es + [e])
    ensures VerifyOrderedSpec(es[|es| - 1], e, cands).0 == HasDups
  {
    var all, last, f := es + [e], es[|es| - 1], e.name;
    assert all[i] == es[i] && all[|es|] == e;
    LessIrreflexive(SortKey(e));
    if es[i].IsDir() {
      PrefixLess(f, f + [Slash]);
    }
    StillBetween(es, e, i);
    PopFinds(cands, f);
    CommonPrefixIs(last.name, f, |f|);
  }

  /** The stack invariant carries over to the next entry. */
  lemma StackStep(es: seq<TreeEntry>, e: TreeEntry, cands: seq<Name>)
    requires es != [] && StackInv(es, cands)
    requires Increasing(es + [e]) && NulFree(es + [e]) && SlashFree(es + [e])
    ensures StackInv(es + [e], VerifyOrderedSpec(es[|es| - 1], e, cands).1)
  {
    hide Less, SortKey, VerifyOrderedSpec;
    var all, n := es + [e], |es|;
    assert all[n - 1] == es[n - 1] && all[n] == e;
    PushesLast(es[n - 1], e, cands);
    StackCarries(es, e, cands, VerifyOrderedSpec(es[n - 1], e, cands).1);
  }

  lemma StackCarries(es: seq<TreeEntry>, e: TreeEntry, cands: seq<Name>, left: seq<Name>)
    requires es != [] && StackInv(es, cands)
    requires Increasing(es + [e]) && NulFree(es + [e]) && SlashFree(es + [e])
    requires var last := es[|es| - 1];
             && (left <= cands || (left == cands + [last.name] && !last.IsDir()))
             && (!last.IsDir() && Between(last.name, e.name) ==> last.name in left)
             && (forall f | f in cands && Between(f, e.name) :: f in left)
    ensures StackInv(es + [e], left)
  {
    hide Less, SortKey;
    var all, n := es + [e], |es|;
    assert forall i | 0 <= i < n :: all[i] == es[i];
    forall f | f in left
      ensures FileBefore(all, n, f)
    {
      if f in cands {
        assert FileBefore(es, n - 1, f);
        var i :| 0 <= i < n - 1 && !es[i].IsDir() && es[i].name == f;
        assert all[i].name == f;
      } else {
        assert all[n - 1].name == f;
      }
    }
    forall i | 0 <= i < n && !all[i].IsDir() && Between(all[i].name, all[n].name)
      ensures all[i].name in left
    {
      if i < n - 1 {
        NameInKey(es[i].name, e);
        StillBetween(es, e, i);
      }
    }
    assert Increasing(es) by {
      assert forall i, j | 0 <= i < j < n :: all[i] == es[i] && all[j] == es[j];
    }
    SortedPush(es, cands);
  }

  lemma NameInKey(f: Name, e: TreeEntry)
    requires Between(f, e.name)
    ensures IsPrefix(f, SortKey(e)) && |f| < |SortKey(e)| && SortKey(e)[|f|] <= Slash
  {
    assert SortKey(e)[..|f|] == e.name[..|f|];
  }

  /** The file just passed goes above everything pending. */
  lemma SortedPush(es: seq<TreeEntry>, cands: seq<Name>)
    requires es != [] && StackInv(es, cands) && Increasing(es)
    ensures !es[|es| - 1].IsDir() ==> SortedNames(cands + [es[|es| - 1].name])
  {
    var n := |es| - 1;
    forall a | 0 <= a < |cands| && !es[n].IsDir()
      ensures Less(cands[a], es[n].name)
    {
      assert FileBefore(es, n, cands[a]);
      var i :| 0 <= i < n && !es[i].IsDir() && es[i].name == cands[a];
      assert Less(SortKey(es[i]), SortKey(es[n]));
    }
  }

  /** The stack after a step: the old one, the old one with the file just passed on top, or a lower part of it. */
  lemma PushesLast(last: TreeEntry, e: TreeEntry, cands: seq<Name>)
    requires 0 !in last.name && 0 !in e.name && Slash !in e.name
    ensures var left := VerifyOrderedSpec(last, e, cands).1;
            && (left <= cands || (left == cands + [last.name] && !last.IsDir()))
            && (!last.IsDir() && Between(last.name, e.name) ==> left == cands + [last.name])
            && (forall f | f in cands && Between(f, e.name) :: f in left)
  {
    PopKeeps(cands, e.name);
    if Between(last.name, e.name) {
      CommonPrefixIs(last.name, e.name, |last.name|);
    }
    assert forall k | 0 <= k < |last.name| :: last.name[k] != 0;
  }

  // ---------- the whole check on a tree object ----------

  /** A list of entries git would write as a tree, by what is written: octal digits, a name without NUL and slash, a
      whole object name. The names increase, a directory's with a slash at its end, and no two are the same. */
  ghost predicate CanonicalTree(es: seq<TreeEntry>, rawsz: nat)
  {
    && AllWritable(es, rawsz)
    && (forall i, j | 0 <= i < j < |es| :: Less(WrittenKey(es[i]), WrittenKey(es[j])))
    && forall i, j | 0 <= i < j < |es| :: es[i].name != es[j].name
  }

  predicate Writable(e: TreeEntry, rawsz: nat)
  {
    && e.raw != [] && (forall i | 0 <= i < |e.raw| :: 48 <= e.raw[i] < 56)
    && e.name != [] && 0 !in e.name && 47 !in e.name && |e.oid| == rawsz
  }

  function WrittenKey(e: TreeEntry): Name
  {
    if DirDigits(e.raw) then e.name + [47] else e.name
  }

  predicate AllWritable(es: seq<TreeEntry>, rawsz: nat)
    ensures AllWritable(es, rawsz) ==> forall i | 0 <= i < |es| :: Octal(es[i].raw)
  {
    forall i | 0 <= i < |es| :: Writable(es[i], rawsz)
  }

  /** The entries with the modes that their digits spell. */
  function Read(es: seq<TreeEntry>, rawsz: nat): (r: seq<TreeEntry>)
    requires AllWritable(es, rawsz)
    ensures |r| == |es| && forall i | 0 <= i < |es| :: r[i] == es[i].(mode := OctalValue(es[i].raw))
  {
    seq(|es|, i requires 0 <= i < |es| => es[i].(mode := OctalValue(es[i].raw)))
  }

  lemma {:induction false} ReadEncodes(es: seq<TreeEntry>, rawsz: nat)
    requires AllWritable(es, rawsz)
    ensures EncodeAll(Read(es, rawsz)) == EncodeAll(es)
    decreases |es|
  {
    hide OctalValue, Writable;
    if es != [] {
      var n := |es| - 1;
      ReadEncodes(es[..n], rawsz);
      assert Read(es, rawsz)[..n] == Read(es[..n], rawsz);
      assert Read(es, rawsz)[n].Encode() == es[n].Encode();
    }
  }

  /** What is written is canonical exactly when what is read is well formed and in order. */
  lemma CanonicalIsOrdered(es: seq<TreeEntry>, rawsz: nat)
    requires forall i | 0 <= i < |es| :: WellFormed(es[i], rawsz)
    ensures CanonicalTree(es, rawsz) <==> SlashFree(es) && Increasing(es) && DistinctNames(es)
  {
    hide OctalValue, DirDigits, Less;
    forall i | 0 <= i < |es|
      ensures WrittenKey(es[i]) == SortKey(es[i])
    {
      DirByDigits(es[i].raw);
    }
  }

  lemma ReadIsCanonical(es: seq<TreeEntry>, rawsz: nat)
    requires CanonicalTree(es, rawsz)
    ensures AllWritable(es, rawsz)
    ensures var r := Read(es, rawsz); CanonicalTree(r, rawsz) && forall i | 0 <= i < |r| :: WellFormed(r[i], rawsz)
  {
    hide OctalValue, DirDigits, Less;
    var r := Read(es, rawsz);
    assert forall i | 0 <= i < |r| :: WrittenKey(r[i]) == WrittenKey(es[i]) && r[i].name == es[i].name;
  }

  /** A tree object draws none of these complaints exactly when it is the encoding of a canonical list. */
  method CheckTree(buf: seq<Byte>, rawsz: nat) returns (badTree: bool, fullPath: bool, notSorted: bool, hasDups: bool)
    ensures !badTree && !fullPath && !notSorted && !hasDups
            <==> exists es :: CanonicalTree(es, rawsz) && buf == EncodeAll(es)
  {
    var out;
    out, badTree := ParseTree(buf, rawsz);
    assert NulFree(out) by {
      assert forall i | 0 <= i < |out| :: out[i] in out;
    }
    fullPath, notSorted, hasDups := CheckOrder(out);
    Checked(buf, rawsz, out, badTree);
  }

  lemma Checked(buf: seq<Byte>, rawsz: nat, out: seq<TreeEntry>, failed: bool)
    requires forall e | e in out :: WellFormed(e, rawsz)
    requires |EncodeAll(out)| <= |buf| && EncodeAll(out) == buf[..|EncodeAll(out)|]
    requires !failed ==> EncodeAll(out) == buf
    requires failed ==> |EncodeAll(out)| < |buf| && DecodeTreeEntry(buf[|EncodeAll(out)|..], rawsz).None?
    ensures !failed && SlashFree(out) && Increasing(out) && DistinctNames(out)
            <==> exists es :: CanonicalTree(es, rawsz) && buf == EncodeAll(es)
  {
    hide OctalValue, Less, SortKey, DecodeTreeEntry, EncodeAll, CanonicalTree, WellFormed, Increasing, DistinctNames;
    var rest := buf[|EncodeAll(out)|..];
    assert forall i | 0 <= i < |out| :: out[i] in out;
    CanonicalIsOrdered(out, rawsz);
    NothingDecodes(rest, rawsz, failed);
    forall es | CanonicalTree(es, rawsz) && buf == EncodeAll(es)
      ensures CanonicalTree(out, rawsz) && !failed
    {
      ReadIsCanonical(es, rawsz);
      var r := Read(es, rawsz);
      ReadEncodes(es, rawsz);
      assert EncodeAll(out) + rest == buf == EncodeAll(r) + [];
      assert forall e | e in r :: exists i :: 0 <= i < |r| && r[i] == e;
      EncodingIsUnique(out, rest, r, rawsz);
    }
  }

  lemma NothingDecodes(rest: seq<Byte>, rawsz: nat, failed: bool)
    requires !failed ==> rest == []
    requires failed ==> DecodeTreeEntry(rest, rawsz).None?
    ensures DecodeTreeEntry(rest, rawsz).None?
  {
  }

  lemma EncodeAllHead(es: seq<TreeEntry>)
    requires es != []
    ensures EncodeAll(es) == es[0].Encode() + EncodeAll(es[1..])
  {
    var n := |es| - 1;
    if n > 0 {
      EncodeAllHead(es[..n]);
      assert es[..n][1..] == es[1..][..n - 1];
    } else {
      assert es[..n] == [] && es[1..] == [];
    }
  }

  lemma Associates(a: seq<Byte>, b: seq<Byte>, c: seq<Byte>)
    ensures (a + b) + c == a + (b + c)
  {
  }

  lemma DecodeHead(es: seq<TreeEntry>, rest: seq<Byte>, rawsz: nat)
    requires es != [] && WellFormed(es[0], rawsz)
    ensures DecodeTreeEntry(EncodeAll(es) + rest, rawsz) == Some((es[0], EncodeAll(es[1..]) + rest))
  {
    hide DecodeTreeEntry;
    EncodeAllHead(es);
    Associates(es[0].Encode(), EncodeAll(es[1..]), rest);
    DecodeInvertsEncode(es[0], rawsz, EncodeAll(es[1..]) + rest);
  }

  /** Two lists of well-formed entries that start the same bytes are the same list, if no entry follows the first. */
  lemma EncodingIsUnique(a: seq<TreeEntry>, rest: seq<Byte>, b: seq<TreeEntry>, rawsz: nat)
    requires forall e | e in a :: WellFormed(e, rawsz)
    requires forall e | e in b :: WellFormed(e, rawsz)
    requires EncodeAll(a) + rest == EncodeAll(b) + [] && DecodeTreeEntry(rest, rawsz).None?
    ensures a == b && rest == []
  {
    hide DecodeTreeEntry;
    assert a == [] ==> EncodeAll(a) + rest == rest;
    if a != [] {
      DecodeHead(a, rest, rawsz);
    }
    if b != [] {
      DecodeHead(b, [], rawsz);
    }
    if a != [] && b != [] {
      EncodingIsUnique(a[1..], rest, b[1..], rawsz);
      assert a == [a[0]] + a[1..] && b == [b[0]] + b[1..];
    }
  }
}
