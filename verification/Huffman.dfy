/** The canonical Huffman codes of section 3.2.2 of RFC 1951, and their decoder in internal/zlibmsg/huffman.go. */
module Huffman {
  import opened Powers
  import opened BitReader

  const MaxBits: nat := 15

  // ---------- the code of section 3.2.2 ----------

  /** How many symbols have codes of length l. */
  function Count(lens: seq<int>, l: int): (n: nat)
    ensures n <= |lens|
  {
    if lens == [] then 0
    else Count(lens[..|lens| - 1], l) + (if lens[|lens| - 1] == l then 1 else 0)
  }

  /** The numerically smallest code of length l. */
  ghost function First(lens: seq<int>, l: nat): nat
  {
    if l <= 1 then 0 else 2 * (First(lens, l - 1) + Count(lens, l - 1))
  }

  /** How many symbols before `sym` share its code length. */
  ghost function Rank(lens: seq<int>, sym: nat): nat
    requires sym < |lens|
  {
    Count(lens[..sym], lens[sym])
  }

  ghost function CodeOf(lens: seq<int>, sym: nat): nat
    requires sym < |lens| && lens[sym] > 0
  {
    First(lens, lens[sym]) + Rank(lens, sym)
  }

  /** A Huffman code is packed starting with its most significant bit. */
  ghost function Msb(s: seq<Bit>): (v: nat)
    ensures v < Pow2(|s|)
  {
    if s == [] then 0 else 2 * Msb(s[..|s| - 1]) + s[|s| - 1]
  }

  /** The stream at p spells the code of `sym`. */
  ghost predicate Spells(lens: seq<int>, s: seq<Bit>, p: nat, sym: nat)
  {
    && sym < |lens| && 0 < lens[sym] && p + lens[sym] <= |s|
    && Msb(s[p..p + lens[sym]]) == CodeOf(lens, sym)
  }

  datatype Decoded = Symbol(sym: nat, next: nat) | Invalid | Short

  /** What the stream at p says: the symbol whose code stands there, no symbol, or not enough to tell. */
  ghost function SymbolAt(lens: seq<int>, s: seq<Bit>, p: nat): (d: Decoded)
    ensures d.Symbol? ==> d.sym < |lens| && p < d.next <= |s|
  {
    if AllZero(lens) then Invalid
    else if exists sym: nat :: Spells(lens, s, p, sym) then
      var sym: nat :| Spells(lens, s, p, sym);
      Symbol(sym, p + lens[sym])
    else if p + MaxBits <= |s| then Invalid
    else Short
  }

  ghost predicate AllZero(lens: seq<int>)
  {
    forall i | 0 <= i < |lens| :: lens[i] == 0
  }

  // ---------- Kraft's rule ----------

  /** The code space the symbols take, in units of the longest code. */
  ghost function Kraft(lens: seq<int>): nat
  {
    if lens == [] then 0
    else
      var l := lens[|lens| - 1];
      Kraft(lens[..|lens| - 1]) + if 0 < l <= MaxBits then Pow2(MaxBits - l) else 0
  }

  /** What is left of the code space after the codes of length l. */
  ghost function Left(lens: seq<int>, l: nat): int
  {
    if l == 0 then 1 else 2 * Left(lens, l - 1) - Count(lens, l)
  }

  ghost predicate InRange(lens: seq<int>)
  {
    forall i | 0 <= i < |lens| :: 0 <= lens[i] <= MaxBits
  }

  /** The one incomplete code zlib lets through: a single symbol with a code of one bit. */
  ghost predicate OneBitOnly(lens: seq<int>)
  {
    exists sym :: 0 <= sym < |lens| && lens[sym] == 1 && forall i | 0 <= i < |lens| && i != sym :: lens[i] == 0
  }

  ghost predicate Complete(lens: seq<int>)
  {
    InRange(lens) && Kraft(lens) == Pow2(MaxBits)
  }

  /** The length lists that zlib takes. */
  ghost predicate Accepts(lens: seq<int>, codeLengths: bool)
  {
    AllZero(lens) || Complete(lens) || (!codeLengths && OneBitOnly(lens))
  }

  // ---------- lemmas about counting ----------

  lemma CountStep(lens: seq<int>, k: nat, l: int)
    requires k < |lens|
    ensures Count(lens[..k + 1], l) == Count(lens[..k], l) + if lens[k] == l then 1 else 0
  {
    assert lens[..k + 1][..k] == lens[..k];
  }

  lemma {:induction false} CountMonotone(lens: seq<int>, j: nat, k: nat, l: int)
    requires j <= k <= |lens|
    ensures Count(lens[..j], l) <= Count(lens[..k], l)
    decreases k
  {
    if j < k {
      CountStep(lens, k - 1, l);
      CountMonotone(lens, j, k - 1, l);
    }
  }

  lemma RankBelowCount(lens: seq<int>, sym: nat)
    requires sym < |lens|
    ensures Rank(lens, sym) < Count(lens, lens[sym])
  {
    CountStep(lens, sym, lens[sym]);
    CountMonotone(lens, sym + 1, |lens|, lens[sym]);
    assert lens[..|lens|] == lens;
  }

  /** Symbols of one length are told apart by their rank. */
  lemma RankIsStrict(lens: seq<int>, a: nat, b: nat)
    requires a < b < |lens| && lens[a] == lens[b]
    ensures Rank(lens, a) < Rank(lens, b)
  {
    CountStep(lens, a, lens[a]);
    CountMonotone(lens, a + 1, b, lens[a]);
  }

  lemma {:induction false} Ranked(lens: seq<int>, l: int, r: nat) returns (sym: nat)
    requires r < Count(lens, l)
    ensures sym < |lens| && lens[sym] == l && Rank(lens, sym) == r
    decreases |lens|
  {
    var n := |lens| - 1;
    if lens[n] == l && r == Count(lens[..n], l) {
      sym := n;
    } else {
      sym := Ranked(lens[..n], l, r);
      assert lens[..n][..sym] == lens[..sym];
    }
  }

  lemma {:induction false} CountZero(lens: seq<int>, l: int)
    ensures Count(lens, l) == 0 <==> forall i | 0 <= i < |lens| :: lens[i] != l
    decreases |lens|
  {
    if lens != [] {
      CountZero(lens[..|lens| - 1], l);
    }
  }

  // ---------- the code is prefix-free and fits ----------

  /** The codes of a longer length start after all the shorter ones. */
  lemma {:induction false} FirstGrows(lens: seq<int>, l: nat, m: nat)
    requires 0 < l < m
    ensures (First(lens, l) + Count(lens, l)) * Pow2(m - l) <= First(lens, m)
    decreases m
  {
    var c := First(lens, l) + Count(lens, l);
    if m == l + 1 {
      assert Pow2(1) == 2;
    } else {
      FirstGrows(lens, l, m - 1);
      TwoTimes(c, Pow2(m - 1 - l));
    }
  }

  lemma {:induction false} MsbPrefix(s: seq<Bit>, k: nat)
    requires k <= |s|
    ensures Msb(s[..k]) * Pow2(|s| - k) <= Msb(s) < (Msb(s[..k]) + 1) * Pow2(|s| - k)
    decreases |s|
  {
    var n := |s| - 1;
    if k == |s| {
      assert s[..k] == s;
    } else {
      MsbPrefix(s[..n], k);
      assert s[..n][..k] == s[..k];
      var v, d := Msb(s[..k]), Pow2(n - k);
      assert Pow2(|s| - k) == 2 * d;
      TwoTimes(v, d);
      TwoTimes(v + 1, d);
    }
  }

  lemma TwoTimes(x: nat, y: nat)
    ensures x * (2 * y) == 2 * (x * y)
  {
  }

  /** At most one symbol's code stands at any place: no code is the beginning of another. */
  lemma SpellsOnce(lens: seq<int>, s: seq<Bit>, p: nat, a: nat, b: nat)
    requires Spells(lens, s, p, a) && Spells(lens, s, p, b)
    ensures a == b
  {
    if lens[a] < lens[b] {
      NotPrefix(lens, s, p, a, b);
    } else if lens[b] < lens[a] {
      NotPrefix(lens, s, p, b, a);
    } else if a < b {
      RankIsStrict(lens, a, b);
    } else if b < a {
      RankIsStrict(lens, b, a);
    }
  }

  lemma NotPrefix(lens: seq<int>, s: seq<Bit>, p: nat, a: nat, b: nat)
    requires Spells(lens, s, p, a) && 0 <= b < |lens| && lens[a] < lens[b] && p + lens[b] <= |s|
    ensures !Spells(lens, s, p, b)
  {
    hide Msb, First, Pow2, Count;
    var l, m := lens[a], lens[b];
    var t := s[p..p + m];
    assert t[..l] == s[p..p + l];
    MsbPrefix(t, l);
    RankBelowCount(lens, a);
    FirstGrows(lens, l, m);
    TimesMonotone(CodeOf(lens, a) + 1, First(lens, l) + Count(lens, l), Pow2(m - l));
  }

  lemma TimesMonotone(a: nat, b: nat, d: nat)
    requires a <= b
    ensures a * d <= b * d
  {
  }

  lemma {:induction false} LeftIs(lens: seq<int>, l: nat)
    requires l > 0
    ensures Left(lens, l) == Pow2(l) - First(lens, l) - Count(lens, l)
  {
    if l > 1 {
      LeftIs(lens, l - 1);
    } else {
      assert Left(lens, 0) == 1 && Pow2(0) == 1;
    }
  }

  lemma {:induction false} LeftStaysNegative(lens: seq<int>, l: nat, m: nat)
    requires l <= m && Left(lens, l) < 0
    ensures Left(lens, m) < 0
    decreases m
  {
    if l < m {
      LeftStaysNegative(lens, l, m - 1);
    }
  }

  /** Counting by length and adding up symbol by symbol measure the same code space. */
  lemma {:induction false} LeftIsKraft(lens: seq<int>)
    ensures Left(lens, MaxBits) == Pow2(MaxBits) - Kraft(lens)
    decreases |lens|
  {
    hide Left, Pow2;
    if lens == [] {
      LeftOfNothing(MaxBits);
    } else {
      var n := |lens| - 1;
      LeftIsKraft(lens[..n]);
      LeftWithLast(lens, MaxBits);
    }
  }

  lemma {:induction false} LeftOfNothing(l: nat)
    ensures Left([], l) == Pow2(l)
  {
    if l > 0 {
      LeftOfNothing(l - 1);
    }
  }

  lemma {:induction false} LeftWithLast(lens: seq<int>, l: nat)
    requires lens != []
    ensures var n := |lens| - 1;
            Left(lens, l) == Left(lens[..n], l) - if 0 < lens[n] <= l then Pow2(l - lens[n]) else 0
  {
    if l > 0 {
      LeftWithLast(lens, l - 1);
    }
  }

  lemma LeftNotNegative(lens: seq<int>, codeLengths: bool, l: nat)
    requires Accepts(lens, codeLengths) && l <= MaxBits
    ensures Left(lens, l) >= 0
  {
    KraftFits(lens, codeLengths);
    LeftIsKraft(lens);
    if Left(lens, l) < 0 {
      LeftStaysNegative(lens, l, MaxBits);
    }
  }

  lemma {:induction false} KraftOfZero(lens: seq<int>)
    requires AllZero(lens)
    ensures Kraft(lens) == 0
    decreases |lens|
  {
    if lens != [] {
      KraftOfZero(lens[..|lens| - 1]);
    }
  }

  lemma {:induction false} KraftOfOne(lens: seq<int>, sym: nat)
    requires sym < |lens| && lens[sym] == 1 && forall i | 0 <= i < |lens| && i != sym :: lens[i] == 0
    ensures Kraft(lens) == Pow2(MaxBits - 1)
    decreases |lens|
  {
    var n := |lens| - 1;
    if sym == n {
      KraftOfZero(lens[..n]);
    } else {
      KraftOfOne(lens[..n], sym);
    }
  }

  lemma {:induction false} KraftOfSymbol(lens: seq<int>, sym: nat)
    requires sym < |lens| && 0 < lens[sym] <= MaxBits && forall i | 0 <= i < |lens| && i != sym :: lens[i] == 0
    ensures Kraft(lens) == Pow2(MaxBits - lens[sym])
    decreases |lens|
  {
    var n := |lens| - 1;
    if sym == n {
      KraftOfZero(lens[..n]);
    } else {
      KraftOfSymbol(lens[..n], sym);
    }
  }

  /** A code of a single symbol leaves code space over. It is accepted for literals and distances, if it is one bit
      long, and never for code lengths. */
  lemma OneSymbolCode(lens: seq<int>, sym: nat, codeLengths: bool)
    requires sym < |lens| && 0 < lens[sym] <= MaxBits && forall i | 0 <= i < |lens| && i != sym :: lens[i] == 0
    ensures Accepts(lens, codeLengths) <==> !codeLengths && lens[sym] == 1
  {
    hide Pow2, Kraft;
    KraftOfSymbol(lens, sym);
    Pow2Constants();
    Pow2Next(14);
    Pow2Monotone(MaxBits - lens[sym], 14);
    assert !AllZero(lens);
  }

  lemma KraftFits(lens: seq<int>, codeLengths: bool)
    requires Accepts(lens, codeLengths)
    ensures Kraft(lens) <= Pow2(MaxBits)
  {
    if AllZero(lens) {
      KraftOfZero(lens);
    } else if sym :| 0 <= sym < |lens| && lens[sym] == 1 && forall i | 0 <= i < |lens| && i != sym :: lens[i] == 0 {
      KraftOfOne(lens, sym);
    }
  }

  /** Every symbol's code fits in its length. */
  lemma CodesFit(lens: seq<int>, codeLengths: bool, sym: nat)
    requires Accepts(lens, codeLengths) && InRange(lens) && sym < |lens| && lens[sym] > 0
    ensures CodeOf(lens, sym) < Pow2(lens[sym])
  {
    LeftNotNegative(lens, codeLengths, lens[sym]);
    LeftIs(lens, lens[sym]);
    RankBelowCount(lens, sym);
  }

  // ---------- decoding undoes encoding ----------

  /** The code of a symbol as the stream holds it. */
  ghost function Word(lens: seq<int>, sym: nat): (w: seq<Bit>)
    requires sym < |lens| && lens[sym] > 0
    ensures |w| == lens[sym]
  {
    MsbBits(CodeOf(lens, sym), lens[sym])
  }

  ghost function MsbBits(v: nat, n: nat): (s: seq<Bit>)
    ensures |s| == n
  {
    if n == 0 then [] else MsbBits(v / 2, n - 1) + [v % 2]
  }

  lemma {:induction false} MsbOfBits(v: nat, n: nat)
    requires v < Pow2(n)
    ensures Msb(MsbBits(v, n)) == v
  {
    if n > 0 {
      MsbOfBits(v / 2, n - 1);
      assert MsbBits(v, n)[..n - 1] == MsbBits(v / 2, n - 1);
    }
  }

  lemma SymbolIs(lens: seq<int>, s: seq<Bit>, p: nat, sym: nat)
    requires Spells(lens, s, p, sym)
    ensures SymbolAt(lens, s, p) == Symbol(sym, p + lens[sym])
  {
    var other: nat :| Spells(lens, s, p, other) && SymbolAt(lens, s, p) == Symbol(other, p + lens[other]);
    SpellsOnce(lens, s, p, sym, other);
  }

  /** The stream that has a symbol's code written anywhere in it decodes to that symbol there, and goes on after it. */
  lemma DecodeInvertsCode(lens: seq<int>, codeLengths: bool, sym: nat, before: seq<Bit>, after: seq<Bit>)
    requires Accepts(lens, codeLengths) && InRange(lens) && sym < |lens| && lens[sym] > 0
    ensures SymbolAt(lens, before + Word(lens, sym) + after, |before|) == Symbol(sym, |before| + lens[sym])
  {
    var s := before + Word(lens, sym) + after;
    CodesFit(lens, codeLengths, sym);
    MsbOfBits(CodeOf(lens, sym), lens[sym]);
    assert s[|before|..|before| + lens[sym]] == Word(lens, sym);
    SymbolIs(lens, s, |before|, sym);
  }

  /** A complete code has a symbol for every run of bits. */
  lemma {:induction false} CompleteIsTotal(lens: seq<int>, s: seq<Bit>, p: nat)
    requires Complete(lens)
    ensures SymbolAt(lens, s, p) != Invalid
  {
    Pow2Constants();
    if AllZero(lens) {
      KraftOfZero(lens);
    }
    if p + MaxBits <= |s| && !exists sym: nat :: Spells(lens, s, p, sym) {
      LeftIsKraft(lens);
      LeftIs(lens, MaxBits);
      PastAll(lens, s, p, MaxBits);
    }
  }

  /** Where no code of up to l bits stands, the first l bits are past all codes of l bits. */
  lemma {:induction false} PastAll(lens: seq<int>, s: seq<Bit>, p: nat, l: nat)
    requires 0 < l && p + l <= |s| && !exists sym: nat :: Spells(lens, s, p, sym)
    ensures Msb(s[p..p + l]) >= First(lens, l) + Count(lens, l)
    decreases l
  {
    var v := Msb(s[p..p + l]);
    assert s[p..p + l][..l - 1] == s[p..p + l - 1];
    if l > 1 {
      PastAll(lens, s, p, l - 1);
    }
    assert v >= First(lens, l);
    if v < First(lens, l) + Count(lens, l) {
      var sym := Ranked(lens, l, v - First(lens, l));
      assert Spells(lens, s, p, sym);
    }
  }
}
