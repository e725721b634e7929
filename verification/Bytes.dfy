/** Bytes, byte strings and the order Go's bytes.Compare puts on them. */
module Bytes {

  type Byte = b: int | 0 <= b < 256

  type Name = seq<Byte>

  datatype Option<+T> = None | Some(value: T)

  /** The length of the longest common prefix. */
  function CommonPrefix(a: Name, b: Name): (p: nat)
    ensures p <= |a| && p <= |b|
    ensures a[..p] == b[..p]
    ensures p < |a| && p < |b| ==> a[p] != b[p]
  {
    if a == [] || b == [] || a[0] != b[0] then 0
    else
      var p := 1 + CommonPrefix(a[1..], b[1..]);
      assert a[..p] == [a[0]] + a[1..][..p - 1];
      assert b[..p] == [b[0]] + b[1..][..p - 1];
      p
  }

  /** Lexicographic order with a proper prefix first, which is bytes.Compare(a, b) < 0. */
  predicate Less(a: Name, b: Name)
  {
    var p := CommonPrefix(a, b);
    p < |b| && (p == |a| || a[p] < b[p])
  }

  lemma CommonPrefixIs(a: Name, b: Name, p: nat)
    requires p <= |a| && p <= |b| && a[..p] == b[..p]
    requires p < |a| && p < |b| ==> a[p] != b[p]
    ensures CommonPrefix(a, b) == p
  {
    var q := CommonPrefix(a, b);
    assert forall i | 0 <= i < p :: a[i] == a[..p][i] == b[..p][i] == b[i];
    assert forall i | 0 <= i < q :: a[i] == a[..q][i] == b[..q][i] == b[i];
  }

  lemma LessIrreflexive(a: Name)
    ensures !Less(a, a)
  {
    CommonPrefixIs(a, a, |a|);
  }

  lemma LessTotal(a: Name, b: Name)
    requires a != b
    ensures Less(a, b) != Less(b, a)
  {
    var p := CommonPrefix(a, b);
    CommonPrefixIs(b, a, p);
    assert a[..|a|] == a && b[..|b|] == b;
  }

  lemma LessTransitive(a: Name, b: Name, c: Name)
    requires Less(a, b) && Less(b, c)
    ensures Less(a, c)
  {
    var p, q := CommonPrefix(a, b), CommonPrefix(b, c);
    var m := if p < q then p else q;
    assert a[..m] == b[..p][..m] == b[..m] == b[..q][..m] == c[..m];
    if p < q {
      assert b[p] == b[..q][p] == c[..q][p] == c[p];
    } else if q < p {
      assert a[q] == a[..p][q] == b[..p][q] == b[q];
    }
    CommonPrefixIs(a, c, m);
  }

  /** A proper prefix comes first. */
  lemma PrefixLess(a: Name, b: Name)
    requires |a| < |b| && a == b[..|a|]
    ensures Less(a, b) && !Less(b, a)
  {
    CommonPrefixIs(a, b, |a|);
    CommonPrefixIs(b, a, |a|);
  }
}
