/** Parent links as a forest: which entries hang from a root, how deep, and below whom. */
module Forest {
  import opened PackLayout

  type Links = p: seq<int> | InRange(p) witness []

  /** The chain from `i` reaches a root in `d` steps. A chain that loops reaches none. */
  ghost predicate Reaches(parent: Links, i: nat, d: nat)
    requires i < |parent|
    decreases d
  {
    if parent[i] < 0 then d == 0 else d > 0 && Reaches(parent, parent[i], d - 1)
  }

  ghost predicate Rooted(parent: Links, i: nat)
    ensures Rooted(parent, i) ==> i < |parent|
  {
    i < |parent| && exists d: nat :: Reaches(parent, i, d)
  }

  ghost function Depth(parent: Links, i: nat): (d: nat)
    requires Rooted(parent, i)
    ensures Reaches(parent, i, d)
  {
    var d: nat :| Reaches(parent, i, d);
    d
  }

  lemma ReachesOnce(parent: Links, i: nat, a: nat, b: nat)
    requires i < |parent| && Reaches(parent, i, a) && Reaches(parent, i, b)
    ensures a == b
    decreases a
  {
    if parent[i] >= 0 {
      ReachesOnce(parent, parent[i], a - 1, b - 1);
    }
  }

  /** A root has depth 0, and a child is one deeper than its parent; they hang from a root together or not at all. */
  lemma DepthStep(parent: Links, i: nat)
    requires i < |parent|
    ensures parent[i] < 0 ==> Rooted(parent, i) && Depth(parent, i) == 0
    ensures parent[i] >= 0 ==> (Rooted(parent, i) <==> Rooted(parent, parent[i]))
    ensures parent[i] >= 0 && Rooted(parent, i) ==> Depth(parent, i) == Depth(parent, parent[i]) + 1
  {
    if parent[i] < 0 {
      assert Reaches(parent, i, 0);
    } else {
      var p := parent[i];
      if Rooted(parent, i) {
        assert Reaches(parent, p, Depth(parent, i) - 1);
        ReachesOnce(parent, p, Depth(parent, p), Depth(parent, i) - 1);
      } else if Rooted(parent, p) {
        assert Reaches(parent, i, Depth(parent, p) + 1);
      }
    }
  }

  /** A bound on every depth. */
  ghost function Height(parent: Links, k: nat): (h: nat)
    requires k <= |parent|
    ensures forall i | 0 <= i < k && Rooted(parent, i) :: Depth(parent, i) <= h
  {
    if k == 0 then 0
    else
      var h := Height(parent, k - 1);
      if Rooted(parent, k - 1) && Depth(parent, k - 1) > h then Depth(parent, k - 1) else h
  }

  /** How many levels can still lie under an entry. */
  ghost function Room(parent: Links, i: nat): nat
    requires Rooted(parent, i)
  {
    Height(parent, |parent|) - Depth(parent, i)
  }

  lemma ChildRoom(parent: Links, i: nat, c: nat)
    requires Rooted(parent, i) && c < |parent| && parent[c] == i
    ensures Rooted(parent, c) && Room(parent, c) < Room(parent, i)
  {
    DepthStep(parent, c);
  }

  /** `j` is `i` or stands on it, directly or not. */
  ghost predicate Under(parent: Links, j: nat, i: nat)
    requires Rooted(parent, j)
    decreases Depth(parent, j)
  {
    j == i || (parent[j] >= 0 && (DepthStep(parent, j); Under(parent, parent[j], i)))
  }

  lemma {:induction false} UnderDepth(parent: Links, j: nat, i: nat)
    requires Rooted(parent, j) && Under(parent, j, i)
    ensures Rooted(parent, i) && Depth(parent, i) <= Depth(parent, j)
    ensures Depth(parent, i) == Depth(parent, j) ==> i == j
    decreases Depth(parent, j)
  {
    if j != i {
      DepthStep(parent, j);
      UnderDepth(parent, parent[j], i);
    }
  }

  /** Two entries of the same depth have nothing in common below them. */
  lemma {:induction false} UnderOne(parent: Links, j: nat, a: nat, b: nat)
    requires Rooted(parent, j) && Rooted(parent, a) && Rooted(parent, b) && Depth(parent, a) == Depth(parent, b)
    requires Under(parent, j, a) && Under(parent, j, b)
    ensures a == b
    decreases Depth(parent, j)
  {
    DepthStep(parent, j);
    UnderDepth(parent, j, a);
    UnderDepth(parent, j, b);
    if j != a && j != b {
      UnderOne(parent, parent[j], a, b);
    }
  }

  /** What is strictly below an entry is below one of its children, and the other way round. */
  lemma {:induction false} UnderChild(parent: Links, j: nat, i: nat) returns (c: nat)
    requires Rooted(parent, j) && Under(parent, j, i) && j != i
    ensures c < |parent| && parent[c] == i && Under(parent, j, c)
    decreases Depth(parent, j)
  {
    DepthStep(parent, j);
    if parent[j] == i {
      c := j;
    } else {
      c := UnderChild(parent, parent[j], i);
    }
  }

  lemma {:induction false} UnderParent(parent: Links, j: nat, c: nat)
    requires Rooted(parent, j) && c < |parent| && parent[c] >= 0 && Under(parent, j, c)
    ensures Under(parent, j, parent[c]) && j != parent[c]
    decreases Depth(parent, j)
  {
    DepthStep(parent, j);
    UnderDepth(parent, j, c);
    DepthStep(parent, c);
    if j != c {
      UnderParent(parent, parent[j], c);
    }
  }

  /** Everything at or below an entry. */
  ghost function Subtree(parent: Links, i: nat): set<nat>
  {
    set j | 0 <= j < |parent| && Rooted(parent, j) && Under(parent, j, i)
  }

  /** The trees of a list of entries together. */
  ghost function Subtrees(parent: Links, cs: seq<nat>): set<nat>
  {
    if cs == [] then {} else Subtree(parent, cs[0]) + Subtrees(parent, cs[1..])
  }

  lemma InTrees(parent: Links, cs: seq<nat>, j: nat)
    ensures j in Subtrees(parent, cs) <==> exists k :: 0 <= k < |cs| && j in Subtree(parent, cs[k])
  {
    if cs != [] {
      InTrees(parent, cs[1..], j);
      assert forall k | 0 <= k < |cs[1..]| :: cs[1..][k] == cs[k + 1];
      if j in Subtrees(parent, cs[1..]) {
        var k :| 0 <= k < |cs[1..]| && j in Subtree(parent, cs[1..][k]);
        assert j in Subtree(parent, cs[k + 1]);
      }
    }
  }

  /** An entry's tree is the entry and its children's trees. */
  lemma TreeSplits(parent: Links, i: nat, cs: seq<nat>)
    requires Rooted(parent, i)
    requires forall c: nat :: c in cs <==> c < |parent| && parent[c] == i
    ensures Subtree(parent, i) == {i} + Subtrees(parent, cs) && i !in Subtrees(parent, cs)
  {
    forall j: nat | j < |parent|
      ensures j in Subtree(parent, i) && j != i <==> j in Subtrees(parent, cs)
    {
      InTrees(parent, cs, j);
      if j in Subtree(parent, i) && j != i {
        var c := UnderChild(parent, j, i);
        assert c in cs;
        var k :| 0 <= k < |cs| && cs[k] == c;
        assert j in Subtree(parent, cs[k]);
      } else if j in Subtrees(parent, cs) {
        var k :| 0 <= k < |cs| && j in Subtree(parent, cs[k]);
        assert cs[k] in cs;
        UnderParent(parent, j, cs[k]);
      }
    }
    TreesInRange(parent, cs);
  }

  lemma TreesInRange(parent: Links, cs: seq<nat>)
    ensures forall j | j in Subtrees(parent, cs) :: j < |parent|
  {
  }

  /** A child's tree and the later children's trees do not meet. */
  lemma TreesDisjoint(parent: Links, i: nat, cs: seq<nat>)
    requires Rooted(parent, i) && cs != []
    requires forall k | 0 <= k < |cs| :: cs[k] < |parent| && parent[cs[k]] == i
    requires forall k | 0 < k < |cs| :: cs[k] != cs[0]
    ensures Subtree(parent, cs[0]) !! Subtrees(parent, cs[1..])
  {
    forall j | j in Subtree(parent, cs[0])
      ensures j !in Subtrees(parent, cs[1..])
    {
      InTrees(parent, cs[1..], j);
      forall k | 0 <= k < |cs[1..]|
        ensures j !in Subtree(parent, cs[1..][k])
      {
        var c := cs[k + 1];
        assert cs[1..][k] == c;
        DepthStep(parent, cs[0]);
        DepthStep(parent, c);
        if j in Subtree(parent, c) {
          UnderOne(parent, j, cs[0], c);
        }
      }
    }
  }
}
