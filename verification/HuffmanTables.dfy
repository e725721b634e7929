/** The tables of internal/zlibmsg/huffman.go: a count of the codes of each length, then the symbols in order. */
module HuffmanTables {
  import opened Powers
  import opened BitReader
  import opened Huffman

  /** How many symbols have codes shorter than l. */
  ghost function Below(lens: seq<int>, l: nat): nat
  {
    if l <= 1 then 0 else Below(lens, l - 1) + Count(lens, l - 1)
  }

  datatype Code = Code(counts: seq<nat>, symbols: seq<nat>, empty: bool)
  {
    /** The tables of this list of code lengths. */
    ghost predicate Represents(lens: seq<int>)
    {
      && InRange(lens) && empty == AllZero(lens)
      && (!empty ==> Counted(counts, lens) && Ordered(lens, symbols, |lens|))
    }
  }

  ghost predicate Counted(counts: seq<nat>, lens: seq<int>)
  {
    |counts| == MaxBits + 1 && forall l | 0 <= l <= MaxBits :: counts[l] == Count(lens, l)
  }

  /** The symbol of each length and rank among the first k is in its place. */
  ghost predicate Ordered(lens: seq<int>, symbols: seq<nat>, k: nat)
    requires k <= |lens|
  {
    && |symbols| == Below(lens, MaxBits + 1)
    && forall l, r | 1 <= l <= MaxBits && 0 <= r < Count(lens[..k], l) :: InPlace(lens, symbols, l, r)
  }

  ghost predicate InPlace(lens: seq<int>, symbols: seq<nat>, l: nat, r: nat)
  {
    var at := Below(lens, l) + r;
    && at < |symbols| && symbols[at] < |lens| && lens[symbols[at]] == l && Rank(lens, symbols[at]) == r
  }

  // ---------- build ----------

  method CountLengths(lens: seq<int>) returns (counts: seq<nat>, ok: bool)
    ensures ok <==> InRange(lens)
    ensures ok ==> Counted(counts, lens)
  {
    counts := seq(MaxBits + 1, _ => 0);
    for k := 0 to |lens|
      invariant InRange(lens[..k]) && Counted(counts, lens[..k])
    {
      if lens[k] < 0 || lens[k] > MaxBits {
        return counts, false;
      }
      forall l
        ensures Count(lens[..k + 1], l) == Count(lens[..k], l) + if lens[k] == l then 1 else 0
      {
        CountStep(lens, k, l);
      }
      counts := counts[lens[k] := counts[lens[k]] + 1];
    }
    assert lens[..|lens|] == lens;
    return counts, true;
  }

  method Longest(counts: seq<nat>, ghost lens: seq<int>) returns (longest: nat)
    requires InRange(lens) && Counted(counts, lens)
    ensures longest <= MaxBits && (longest > 0 ==> exists i :: 0 <= i < |lens| && lens[i] == longest)
    ensures forall i | 0 <= i < |lens| :: lens[i] <= longest
  {
    var l := MaxBits;
    while l >= 1
      invariant 0 <= l <= MaxBits && forall i | 0 <= i < |lens| :: lens[i] <= l
    {
      CountZero(lens, l);
      if counts[l] > 0 {
        return l;
      }
      l := l - 1;
    }
    return 0;
  }

  /** What is left of the code space, or a negative number as soon as it is overdrawn. */
  method Leftover(counts: seq<nat>, ghost lens: seq<int>) returns (left: int)
    requires Counted(counts, lens)
    ensures left >= 0 ==> left == Left(lens, MaxBits)
    ensures left < 0 ==> Left(lens, MaxBits) < 0
  {
    left := 1;
    for l := 1 to MaxBits + 1
      invariant left == Left(lens, l - 1)
    {
      left := 2 * left - counts[l];
      if left < 0 {
        LeftStaysNegative(lens, l, MaxBits);
        return;
      }
    }
  }

  /** Where the symbols of each length begin. */
  method Offsets(counts: seq<nat>, ghost lens: seq<int>) returns (offsets: array<nat>)
    requires Counted(counts, lens)
    ensures fresh(offsets) && offsets.Length == MaxBits + 2
    ensures forall m | 1 <= m <= MaxBits + 1 :: offsets[m] == Below(lens, m)
  {
    hide Below, Count;
    offsets := new nat[MaxBits + 2](_ => 0);
    BelowStep(lens, 0);
    for l := 1 to MaxBits + 1
      invariant forall m | 1 <= m <= l :: offsets[m] == Below(lens, m)
    {
      BelowStep(lens, l);
      offsets[l + 1] := offsets[l] + counts[l];
    }
  }

  /** Lay the symbols out by length, in order within each. */
  method Lay(lens: seq<int>, counts: seq<nat>) returns (symbols: seq<nat>)
    requires InRange(lens) && Counted(counts, lens)
    ensures Ordered(lens, symbols, |lens|)
  {
    hide Below, Count, Ordered;
    var offsets := Offsets(counts, lens);
    BelowAll(lens);
    symbols := seq(|lens| - counts[0], _ => 0);
    NothingLaid(lens, symbols);
    for sym := 0 to |lens|
      invariant forall m | 1 <= m <= MaxBits :: offsets[m] == Below(lens, m) + Count(lens[..sym], m)
      invariant Ordered(lens, symbols, sym) && |symbols| == Below(lens, MaxBits + 1)
    {
      var l := lens[sym];
      forall m
        ensures Count(lens[..sym + 1], m) == Count(lens[..sym], m) + if l == m then 1 else 0
      {
        CountStep(lens, sym, m);
      }
      Laid(lens, symbols, sym);
      if l != 0 {
        symbols := symbols[offsets[l] := sym];
        offsets[l] := offsets[l] + 1;
      }
    }
  }

  lemma NothingLaid(lens: seq<int>, symbols: seq<nat>)
    requires |symbols| == Below(lens, MaxBits + 1)
    ensures Ordered(lens, symbols, 0) && forall l :: Count(lens[..0], l) == 0
  {
  }

  lemma BelowStep(lens: seq<int>, l: nat)
    ensures Below(lens, 1) == 0
    ensures l >= 1 ==> Below(lens, l + 1) == Below(lens, l) + Count(lens, l)
  {
  }

  lemma {:induction false} BelowMonotone(lens: seq<int>, l: nat, m: nat)
    requires l <= m
    ensures Below(lens, l) <= Below(lens, m)
    decreases m
  {
    if l < m {
      BelowMonotone(lens, l, m - 1);
    }
  }

  /** Putting the next symbol in its place disturbs none of those before it. */
  lemma {:induction false} Laid(lens: seq<int>, symbols: seq<nat>, k: nat)
    requires k < |lens| && InRange(lens) && Ordered(lens, symbols, k)
    ensures lens[k] == 0 ==> Ordered(lens, symbols, k + 1)
    ensures lens[k] > 0 ==> var at := Below(lens, lens[k]) + Rank(lens, k);
                            at < |symbols| && Ordered(lens, symbols[at := k], k + 1)
  {
    hide Below, Count;
    var at := Below(lens, lens[k]) + Rank(lens, k);
    RankBelowCount(lens, k);
    if lens[k] > 0 {
      BelowMonotone(lens, lens[k] + 1, MaxBits + 1);
      BelowStep(lens, lens[k]);
    }
    var symbols' := if lens[k] == 0 then symbols else symbols[at := k];
    forall l, r | 1 <= l <= MaxBits && 0 <= r < Count(lens[..k + 1], l)
      ensures InPlace(lens, symbols', l, r)
    {
      CountStep(lens, k, l);
      if l != lens[k] || r < Count(lens[..k], l) {
        assert InPlace(lens, symbols, l, r);
        CountMonotone(lens, k, |lens|, l);
        assert lens[..|lens|] == lens;
        if lens[k] > 0 {
          Apart(lens, l, r, lens[k], Rank(lens, k));
        }
      }
    }
  }

  /** The parts of different lengths do not overlap. */
  lemma {:induction false} Apart(lens: seq<int>, l: nat, r: nat, m: nat, q: nat)
    requires l >= 1 && m >= 1 && (l != m || r != q)
    ensures r < Count(lens, l) && q < Count(lens, m) ==> Below(lens, l) + r != Below(lens, m) + q
  {
    if l < m {
      BelowMonotone(lens, l + 1, m);
      BelowStep(lens, l);
    } else if m < l {
      BelowMonotone(lens, m + 1, l);
      BelowStep(lens, m);
    }
  }

  /** Every symbol has a code or has length zero. */
  lemma {:induction false} BelowAll(lens: seq<int>)
    requires InRange(lens)
    ensures Below(lens, MaxBits + 1) + Count(lens, 0) == |lens|
    decreases |lens|
  {
    if lens == [] {
      BelowNothing(MaxBits + 1);
    } else {
      BelowAll(lens[..|lens| - 1]);
      BelowWithLast(lens, MaxBits + 1);
    }
  }

  lemma {:induction false} BelowNothing(l: nat)
    ensures Below([], l) == 0
  {
    if l > 1 {
      BelowNothing(l - 1);
    }
  }

  lemma {:induction false} BelowWithLast(lens: seq<int>, l: nat)
    requires lens != []
    ensures var n := |lens| - 1;
            Below(lens, l) == Below(lens[..n], l) + if 1 <= lens[n] < l then 1 else 0
  {
    if l > 1 {
      BelowWithLast(lens, l - 1);
    }
  }

  /** build: it refuses exactly the lists that zlib refuses, and makes the tables of the others. */
  method Build(lens: seq<int>, codeLengths: bool) returns (c: Code, ok: bool)
    ensures ok <==> Accepts(lens, codeLengths)
    ensures ok ==> c.Represents(lens)
  {
    hide Kraft, Left;
    c := Code([], [], true);
    var counts;
    counts, ok := CountLengths(lens);
    if !ok {
      return;
    }
    var longest := Longest(counts, lens);
    if longest == 0 {
      return Code(counts, [], true), true;
    }
    var left := Leftover(counts, lens);
    LeftIsKraft(lens);
    Overdrawn(lens, codeLengths);
    if left < 0 {
      return c, false;
    }
    OneBitLeft(lens, longest);
    if left > 0 && (codeLengths || longest != 1) {
      return c, false;
    }
    var symbols := Lay(lens, counts);
    return Code(counts, symbols, false), true;
  }

  lemma Overdrawn(lens: seq<int>, codeLengths: bool)
    ensures Kraft(lens) > Pow2(MaxBits) ==> !Accepts(lens, codeLengths)
  {
    if Accepts(lens, codeLengths) {
      KraftFits(lens, codeLengths);
    }
  }

  /** With code space over and no code longer than one bit, exactly one symbol has a code. */
  lemma OneBitLeft(lens: seq<int>, longest: nat)
    requires InRange(lens) && longest > 0 && exists i :: 0 <= i < |lens| && lens[i] == longest
    requires forall i | 0 <= i < |lens| :: lens[i] <= longest
    ensures OneBitOnly(lens) ==> longest == 1 && Left(lens, MaxBits) > 0
    ensures longest == 1 && Left(lens, MaxBits) > 0 ==> OneBitOnly(lens)
  {
    if sym :| 0 <= sym < |lens| && lens[sym] == 1 && forall i | 0 <= i < |lens| && i != sym :: lens[i] == 0 {
      KraftOfOne(lens, sym);
      LeftIsKraft(lens);
      assert Pow2(MaxBits) == 2 * Pow2(MaxBits - 1);
    }
    if longest == 1 && Left(lens, MaxBits) > 0 {
      LeftOnce(lens, MaxBits);
      CountZero(lens, 1);
      var sym := Ranked(lens, 1, 0);
      forall i | 0 <= i < |lens| && i != sym
        ensures lens[i] == 0
      {
        if lens[i] == 1 {
          RankBelowCount(lens, i);
          if i < sym { RankIsStrict(lens, i, sym); } else { RankIsStrict(lens, sym, i); }
        }
      }
    }
  }

  lemma {:induction false} LeftOnce(lens: seq<int>, l: nat)
    requires l >= 1 && Left(lens, l) > 0
    ensures Count(lens, 1) <= 1
  {
    if l > 1 {
      LeftOnce(lens, l - 1);
    } else {
      assert Left(lens, 0) == 1;
    }
  }

  // ---------- decode ----------

  datatype Status = DecodeOK | DecodeInvalid | DecodeShort

  /** What a method reports, as the symbol the stream holds. */
  ghost predicate Tells(d: Decoded, sym: nat, status: Status, b: Bits)
    reads b
  {
    match d
    case Symbol(s, next) => status == DecodeOK && sym == s && b.Valid() && b.At() == next
    case Invalid => status == DecodeInvalid && b.Valid()
    case Short => status == DecodeShort && b.short
  }

  /** The first l bits at p are not, and do not begin with, any code of up to l bits. */
  ghost predicate NoneUpTo(lens: seq<int>, s: seq<Bit>, p: nat, l: nat)
  {
    forall sym: nat | Spells(lens, s, p, sym) :: lens[sym] > l
  }

  lemma DecodeStarts(lens: seq<int>, s: seq<Bit>, p: nat)
    requires p <= |s|
    ensures Msb(s[p..p]) == 0 && First(lens, 1) == 0 && Below(lens, 1) == 0 && NoneUpTo(lens, s, p, 0)
  {
  }

  lemma FirstStep(lens: seq<int>, l: nat)
    requires l >= 1
    ensures First(lens, l + 1) == 2 * (First(lens, l) + Count(lens, l))
  {
  }

  lemma OneBit(s: seq<Bit>, p: nat)
    requires p < |s|
    ensures Value(s[p..p + 1]) == s[p]
  {
    assert s[p..p + 1] == [s[p]];
  }

  lemma MsbStep(s: seq<Bit>, p: nat, l: nat)
    requires 1 <= l && p + l <= |s|
    ensures Msb(s[p..p + l]) == 2 * Msb(s[p..p + l - 1]) + s[p + l - 1]
  {
    assert s[p..p + l][..l - 1] == s[p..p + l - 1];
  }

  /** Bits past the last code of their length are no code of that length. */
  lemma NotThisLength(lens: seq<int>, s: seq<Bit>, p: nat, l: nat)
    requires 1 <= l && p + l <= |s| && NoneUpTo(lens, s, p, l - 1)
    requires Msb(s[p..p + l]) >= First(lens, l) + Count(lens, l)
    ensures NoneUpTo(lens, s, p, l)
  {
    hide Msb, First, Count, Pow2;
    forall sym: nat | Spells(lens, s, p, sym)
      ensures lens[sym] > l
    {
      RankBelowCount(lens, sym);
    }
  }

  /** decode: a bit at a time, it finds the symbol whose canonical code stands in the stream. */
  method Decode(c: Code, b: Bits, ghost lens: seq<int>) returns (sym: nat, status: Status)
    requires c.Represents(lens) && b.Valid()
    modifies b
    ensures Tells(SymbolAt(lens, b.Stream(), old(b.At())), sym, status, b)
    ensures status == DecodeOK ==> sym < |lens| && b.At() > old(b.At())
  {
    hide First, Msb, Count, Below, Pow2, Bits.Valid, Bits.At, StreamOf;
    if c.empty {
      return 0, DecodeInvalid;
    }
    ghost var s, p := b.Stream(), b.At();
    var value, first, index := 0, 0, 0;
    b.AtIsWithin();
    DecodeStarts(lens, s, p);
    for l := 1 to MaxBits + 1
      invariant b.Valid() && b.At() == p + l - 1 && p + l - 1 <= |s| && 0 <= p
      invariant value == 2 * Msb(s[p..p + l - 1]) && first == First(lens, l) && index == Below(lens, l)
      invariant value >= first && NoneUpTo(lens, s, p, l - 1)
    {
      var bit, ok := b.Take(1);
      if !ok {
        assert !exists t: nat :: Spells(lens, s, p, t);
        return 0, DecodeShort;
      }
      OneBit(s, p + l - 1);
      MsbStep(s, p, l);
      value := value + bit;
      var count := c.counts[l];
      if value - first < count {
        assert Count(lens[..|lens|], l) == count by { assert lens[..|lens|] == lens; }
        assert InPlace(lens, c.symbols, l, value - first);
        SymbolIs(lens, s, p, c.symbols[index + (value - first)]);
        return c.symbols[index + (value - first)], DecodeOK;
      }
      NotThisLength(lens, s, p, l);
      BelowStep(lens, l);
      FirstStep(lens, l);
      index := index + count;
      first := 2 * (first + count);
      value := 2 * value;
    }
    assert !exists t: nat :: Spells(lens, s, p, t);
    return 0, DecodeInvalid;
  }
}
