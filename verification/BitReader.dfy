/** The bit order of DEFLATE and the reader of internal/zlibmsg: bytes in order, the least significant bit first. */
module BitReader {
  import opened Bytes
  import opened Powers

  type Bit = b: int | 0 <= b < 2

  /** All the bits of a byte string, in the order a reader meets them. */
  ghost function StreamOf(data: seq<Byte>): (s: seq<Bit>)
    ensures |s| == 8 * |data|
  {
    seq(8 * |data|, i requires 0 <= i < 8 * |data| => data[i / 8] / Pow2(i % 8) % 2)
  }

  /** An integer packed starting with its least significant bit. */
  ghost function Value(s: seq<Bit>): (v: nat)
    ensures v < Pow2(|s|)
  {
    if s == [] then 0 else s[0] + 2 * Value(s[1..])
  }

  lemma {:induction false} ValueAppend(a: seq<Bit>, b: seq<Bit>)
    ensures Value(a + b) == Value(a) + Pow2(|a|) * Value(b)
  {
    if a == [] {
      assert a + b == b;
    } else {
      ValueAppend(a[1..], b);
      assert (a + b)[1..] == a[1..] + b;
      Doubles(Value(a[1..]), Pow2(|a| - 1), Value(b));
    }
  }

  lemma Doubles(x: nat, y: nat, z: nat)
    ensures 2 * (x + y * z) == 2 * x + (2 * y) * z
  {
  }

  /** A prefix of the input is a prefix of the stream. */
  lemma StreamPrefix(data: seq<Byte>, k: nat)
    requires k <= |data|
    ensures StreamOf(data[..k]) == StreamOf(data)[..8 * k]
  {
  }

  lemma {:induction false} Halves(x: nat, n: nat)
    ensures x / Pow2(n + 1) == (x / 2) / Pow2(n)
  {
    var d := Pow2(n);
    var q, m := x / 2 / d, x / 2 % d;
    assert x == 2 * (q * d + m) + x % 2;
    assert x == q * (2 * d) + (2 * m + x % 2);
    DivIs(x, 2 * d, q, 2 * m + x % 2);
  }

  lemma Commutes(x: nat, y: nat)
    ensures x * y == y * x
  {
  }

  /** The binary digits of x, least significant first. */
  ghost function Digits(x: nat, n: nat): (s: seq<Bit>)
    ensures |s| == n
  {
    if n == 0 then [] else [x % 2] + Digits(x / 2, n - 1)
  }

  lemma {:induction false} DigitsAre(x: nat, n: nat, i: nat)
    requires i < n
    ensures Digits(x, n)[i] == x / Pow2(i) % 2
    decreases n
  {
    if i > 0 {
      DigitsAre(x / 2, n - 1, i - 1);
      Halves(x, i - 1);
    }
  }

  lemma {:induction false} DigitsValue(x: nat, n: nat)
    requires x < Pow2(n)
    ensures Value(Digits(x, n)) == x
  {
    if n > 0 {
      DigitsValue(x / 2, n - 1);
    }
  }

  /** Eight bits from a byte boundary are that byte. */
  lemma {:induction false} ByteValue(data: seq<Byte>, k: nat)
    requires k < |data|
    ensures Value(StreamOf(data)[8 * k..8 * k + 8]) == data[k]
  {
    var s := StreamOf(data)[8 * k..8 * k + 8];
    forall i | 0 <= i < 8
      ensures s[i] == Digits(data[k], 8)[i]
    {
      DigitsAre(data[k], 8, i);
      assert (8 * k + i) / 8 == k && (8 * k + i) % 8 == i;
    }
    assert s == Digits(data[k], 8);
    Pow2Constants();
    DigitsValue(data[k], 8);
  }

  class Bits {
    const data: seq<Byte>
    var pos: nat
    /** Bits read from `data` and not yet consumed: n of them, the next one lowest. */
    var hold: nat
    var n: nat
    var short: bool

    constructor (data: seq<Byte>)
      ensures Valid() && At() == 0 && this.data == data
    {
      this.data := data;
      pos, hold, n, short := 0, 0, 0, false;
    }

    ghost function Stream(): seq<Bit> { StreamOf(data) }

    /** How many bits have been consumed. */
    ghost function At(): int
      reads this
    {
      8 * pos - n
    }

    ghost predicate Holds()
      reads this
    {
      pos <= |data| && n <= 8 * pos && hold == Value(Stream()[At()..8 * pos])
    }

    ghost predicate Valid()
      reads this
    {
      Holds() && n < 8 && !short
    }

    lemma AtIsWithin()
      requires Valid()
      ensures 0 <= At() <= |Stream()|
    {
    }

    /** Fill the register, a byte at a time. It runs short exactly when the stream has not that many bits left. */
    method Need(want: nat) returns (ok: bool)
      requires Valid() && want <= 32
      modifies this
      ensures ok <==> At() + want <= |Stream()|
      ensures At() == old(At()) && Holds() && short == !ok
      ensures ok ==> want <= n < want + 8
    {
      hide Value, StreamOf, Pow2;
      while n < want
        invariant Holds() && At() == old(At()) && !short && n < want + 8
        decreases |data| - pos
      {
        if pos >= |data| {
          short := true;
          return false;
        }
        ghost var at := At();
        NextByte(data, at, pos);
        hold := hold + data[pos] * Pow2(n);
        pos := pos + 1;
        n := n + 8;
      }
      return true;
    }

    /** Drop k bits that are in the register. */
    method Drop(k: nat)
      requires Holds() && k <= n < k + 8 && !short
      modifies this
      ensures Valid() && At() == old(At()) + k
      ensures old(hold) % Pow2(k) == Value(Stream()[old(At())..old(At()) + k])
    {
      hide Value, StreamOf, Pow2;
      ghost var at := At();
      Splits(Stream()[at..8 * pos], k);
      Cut(Stream(), at, 8 * pos, k);
      hold := hold / Pow2(k);
      n := n - k;
    }

    /** Take the next bits as a number, if the stream has that many. */
    method Take(want: nat) returns (v: nat, ok: bool)
      requires Valid() && want <= 32
      modifies this
      ensures ok <==> old(At()) + want <= |Stream()|
      ensures ok ==> Valid() && At() == old(At()) + want && v == Value(Stream()[old(At())..old(At()) + want])
      ensures !ok ==> short
    {
      ok := Need(want);
      if !ok {
        return 0, false;
      }
      v := hold % Pow2(want);
      Drop(want);
    }

    /** Skip to the next byte boundary. */
    method Align()
      requires Valid()
      modifies this
      ensures Valid() && At() == Aligned(old(At()))
    {
      hide Value, StreamOf, Pow2;
      assert n % 8 == n;
      assert (8 * pos - n) % 8 == (8 - n) % 8;
      Drop(n % 8);
    }
  }

  /** One byte more in the register. */
  lemma NextByte(data: seq<Byte>, at: nat, pos: nat)
    requires pos < |data| && at <= 8 * pos
    ensures var s := StreamOf(data);
            Value(s[at..8 * pos + 8]) == Value(s[at..8 * pos]) + data[pos] * Pow2(8 * pos - at)
  {
    hide Value, StreamOf, Pow2;
    var s := StreamOf(data);
    ByteValue(data, pos);
    ValueAppend(s[at..8 * pos], s[8 * pos..8 * pos + 8]);
    assert s[at..8 * pos + 8] == s[at..8 * pos] + s[8 * pos..8 * pos + 8];
    Commutes(Pow2(8 * pos - at), data[pos]);
  }

  lemma Cut(s: seq<Bit>, a: nat, b: nat, k: nat)
    requires a + k <= b <= |s|
    ensures s[a..b][..k] == s[a..a + k] && s[a..b][k..] == s[a + k..b]
  {
  }

  /** The next multiple of eight. */
  function Aligned(at: nat): (r: nat)
    ensures r % 8 == 0 && at <= r < at + 8
  {
    at + (8 - at % 8) % 8
  }

  lemma Splits(s: seq<Bit>, k: nat)
    requires k <= |s|
    ensures Value(s) % Pow2(k) == Value(s[..k]) && Value(s) / Pow2(k) == Value(s[k..])
  {
    hide Value;
    ValueAppend(s[..k], s[k..]);
    assert s == s[..k] + s[k..];
    Commutes(Pow2(k), Value(s[k..]));
    DivIs(Value(s), Pow2(k), Value(s[k..]), Value(s[..k]));
  }
}
