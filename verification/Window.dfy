/** The output of internal/zlibmsg's inflater: a ring of the last 32 KiB, a count and a running checksum. */
module Window {
  import opened Bytes
  import opened InflateSpec

  const WindowSize: nat := 32768

  /** Two places of the output share a slot only if they are a whole window apart. */
  lemma RingApart(i: nat, n: nat)
    requires i < n < i + WindowSize
    ensures i % WindowSize != n % WindowSize
  {
    var W := WindowSize;
    assert n - i == W * (n / W - i / W) + (n % W - i % W);
  }

  /** The slot of the byte dist places back, from the slot of the next byte. */
  lemma RingBack(n: nat, dist: nat)
    requires 1 <= dist <= n && dist <= WindowSize
    ensures (n % WindowSize - dist + WindowSize) % WindowSize == (n - dist) % WindowSize
  {
    var W := WindowSize;
    assert n == W * (n / W) + n % W;
    assert (n - dist) == W * (n / W - 1) + (n % W - dist + W);
  }

  lemma RingNext(n: nat)
    ensures (n % WindowSize + 1) % WindowSize == (n + 1) % WindowSize
  {
  }

  /** Reducing at every step comes to the same as reducing at the end. */
  lemma SumsGrow(out: seq<Byte>, c: Byte)
    ensures (SumA(out) % 65521 + c) % 65521 == SumA(out + [c]) % 65521
    ensures (SumB(out) % 65521 + SumA(out + [c]) % 65521) % 65521 == SumB(out + [c]) % 65521
  {
    assert (out + [c])[..|out|] == out;
    assert SumA(out + [c]) == SumA(out) + c && SumB(out + [c]) == SumB(out) + SumA(out + [c]);
    ReduceFirst(SumA(out), c);
    ReduceFirst(SumB(out), SumA(out + [c]));
  }

  /** Adding before or after reducing comes to the same. */
  lemma ReduceFirst(x: nat, y: nat)
    ensures (x % 65521 + y) % 65521 == (x + y) % 65521 == (x % 65521 + y % 65521) % 65521
  {
  }

  /** The ring holds the end of the output. */
  ghost predicate Ring(window: seq<Byte>, out: seq<Byte>)
    requires |window| == WindowSize
  {
    forall i | 0 <= i < |out| && |out| - WindowSize <= i :: window[i % WindowSize] == out[i]
  }

  lemma RingWrite(window: seq<Byte>, out: seq<Byte>, c: Byte)
    requires |window| == WindowSize && Ring(window, out)
    ensures Ring(window[|out| % WindowSize := c], out + [c])
  {
    forall i | 0 <= i < |out| && |out| + 1 - WindowSize <= i
      ensures i % WindowSize != |out| % WindowSize
    {
      RingApart(i, |out|);
    }
  }

  class Output {
    const window: array<Byte>
    /** The slot for the next byte. */
    var next: nat
    var total: nat
    var a: nat
    var b: nat
    /** How much output the caller had room for; negative for no limit. */
    const limit: int
    var full: bool
    /** Everything that was ever written. */
    ghost var out: seq<Byte>

    constructor (limit: int)
      ensures Valid() && fresh(window) && out == [] && this.limit == limit && !full
    {
      window := new Byte[WindowSize](_ => 0);
      next, total, a, b, full := 0, 0, 1, 0, false;
      this.limit := limit;
      out := [];
    }

    /** The ring holds the end of the output and the sums are those of all of it. */
    ghost predicate Valid()
      reads this, window
    {
      && window.Length == WindowSize && total == |out| && next == |out| % WindowSize
      && Ring(window[..], out)
      && a == SumA(out) % 65521 && b == SumB(out) % 65521
    }

    method HasRoom() returns (ok: bool)
      requires Valid()
      ensures ok <==> Room(limit, |out|)
    {
      return limit < 0 || total < limit;
    }

    method Emit(c: Byte)
      requires Valid()
      modifies this`next, this`total, this`a, this`b, this`out, window
      ensures Valid() && out == old(out) + [c]
    {
      hide Ring, SumA, SumB;
      SumsGrow(out, c);
      RingNext(|out|);
      RingWrite(window[..], out, c);
      window[next] := c;
      next := (next + 1) % WindowSize;
      total := total + 1;
      a := (a + c) % 65521;
      b := (b + a) % 65521;
      out := out + [c];
    }

    /** The byte dist places before the end of all the output, up to a whole window back. */
    method Back(dist: nat) returns (c: Byte)
      requires Valid() && 1 <= dist <= |out| && dist <= WindowSize
      ensures c == out[|out| - dist]
    {
      RingBack(|out|, dist);
      return window[(next - dist + WindowSize) % WindowSize];
    }

    /** The checksum of all the output. */
    method Sum() returns (v: nat)
      requires Valid()
      ensures v == Adler(out)
    {
      return b * 65536 + a;
    }

    /** Copy a match through the ring: the same bytes as from the whole output, until the room ends. */
    method CopyBack(dist: nat, length: nat)
      requires Valid() && !full && 1 <= dist <= |out| && dist <= WindowSize
      modifies this, window
      ensures Valid() && Copy(old(out), dist, length, limit) == if full then Full else Go(out)
    {
      hide Ring, SumA, SumB;
      var left := length;
      while left > 0
        invariant 0 <= left <= length && Valid() && !full && dist <= |out|
        invariant Copy(out, dist, left, limit) == Copy(old(out), dist, length, limit)
      {
        var ok := HasRoom();
        if !ok {
          full := true;
          return;
        }
        var c := Back(dist);
        Emit(c);
        left := left - 1;
      }
    }
  }
}
