/**
 The DOM distance: `zss.simple_distance` with its default costs, stated as the
 ordered-forest edit distance the Zhang-Shasha algorithm computes. A forest is
 split at its rightmost root; each step deletes that root of the first forest,
 inserts that root of the second, or matches the two rightmost trees.
 */
module TreeEdit {
  import opened Dom

  /** zss `strdist`: 0 for equal labels, 1 otherwise. */
  function LabelDist(a: string, b: string): nat {
    if a == b then 0 else 1
  }

  /** `simple_distance`'s insert cost, `strdist('', label)`. */
  function InsertCost(t: Tree): (c: nat)
    ensures c == 1
  {
    LabelDist("", t.name)
  }

  /** `simple_distance`'s remove cost, `strdist(label, '')`. */
  function RemoveCost(t: Tree): (c: nat)
    ensures c == 1
  {
    LabelDist(t.name, "")
  }

  /** `simple_distance`'s update cost: 0 exactly when the labels agree. */
  function UpdateCost(a: Tree, b: Tree): (c: nat)
    ensures c == 0 <==> a.name == b.name
    ensures c <= 1
  {
    LabelDist(a.name, b.name)
  }

  function Min3(a: nat, b: nat, c: nat): (m: nat)
    ensures m <= a && m <= b && m <= c
    ensures m == a || m == b || m == c
  {
    if a <= b && a <= c then a else if b <= c then b else c
  }

  function Last(f: seq<Tree>): Tree
    requires |f| > 0
  {
    f[|f| - 1]
  }

  /** The forest without its rightmost tree. */
  function Init(f: seq<Tree>): seq<Tree>
    requires |f| > 0
  {
    f[..|f| - 1]
  }

  /** The forest with its rightmost root deleted: that root's kids take its place. */
  function DropRoot(f: seq<Tree>): (r: seq<Tree>)
    requires |f| > 0
    ensures ForestSize(r) + 1 == ForestSize(f)
  {
    ForestSizeAppend(Init(f), Last(f).kids);
    Init(f) + Last(f).kids
  }

  lemma SplitSize(f: seq<Tree>)
    requires |f| > 0
    ensures ForestSize(f) == ForestSize(Init(f)) + 1 + ForestSize(Last(f).kids)
  {
  }

  /**
   The least total cost of deletions, insertions and relabellings turning `f` into
   `g`. It is at least the difference of the node counts and at most their sum
   (delete everything, insert everything).
   */
  function Dist(f: seq<Tree>, g: seq<Tree>): (d: nat)
    ensures ForestSize(f) - ForestSize(g) <= d
    ensures ForestSize(g) - ForestSize(f) <= d
    ensures d <= ForestSize(f) + ForestSize(g)
    decreases ForestSize(f) + ForestSize(g)
  {
    if |f| == 0 && |g| == 0 then 0
    else if |g| == 0 then Dist(DropRoot(f), g) + RemoveCost(Last(f))
    else if |f| == 0 then Dist(f, DropRoot(g)) + InsertCost(Last(g))
    else
      SplitSize(f);
      SplitSize(g);
      Min3(Dist(DropRoot(f), g) + RemoveCost(Last(f)),
           Dist(f, DropRoot(g)) + InsertCost(Last(g)),
           Dist(Last(f).kids, Last(g).kids) + Dist(Init(f), Init(g)) + UpdateCost(Last(f), Last(g)))
  }

  /** The zss distance between two trees: 0 exactly for equal trees, bounded by the node counts. */
  function TreeDistance(a: Tree, b: Tree): (d: nat)
    ensures d == 0 <==> a == b
    ensures TreeSize(a) - TreeSize(b) <= d && TreeSize(b) - TreeSize(a) <= d
    ensures d <= TreeSize(a) + TreeSize(b)
  {
    DistZeroIff([a], [b]);
    assert [a] == [b] ==> a == b by {
      if [a] == [b] { assert [a][0] == [b][0]; }
    }
    SingletonSize(a);
    SingletonSize(b);
    Dist([a], [b])
  }

  lemma SingletonSize(t: Tree)
    ensures ForestSize([t]) == TreeSize(t)
  {
    assert [t][..0] == [];
  }

  /** A forest is at distance 0 from itself. */
  lemma {:induction false} DistSelf(f: seq<Tree>)
    ensures Dist(f, f) == 0
    decreases ForestSize(f)
  {
    if |f| > 0 {
      SplitSize(f);
      DistSelf(Last(f).kids);
      DistSelf(Init(f));
    }
  }

  /** Distance 0 between two non-empty forests leaves only the matching step, at no cost. */
  lemma ZeroMeansMatch(f: seq<Tree>, g: seq<Tree>)
    requires |f| > 0 && |g| > 0 && Dist(f, g) == 0
    ensures Dist(Last(f).kids, Last(g).kids) == 0 && Dist(Init(f), Init(g)) == 0
    ensures Last(f).name == Last(g).name
  {
    DistIsCheapestStep(f, g);
  }

  /** Two non-empty forests with the same rightmost tree and the same rest are equal. */
  lemma SameSplit(f: seq<Tree>, g: seq<Tree>)
    requires |f| > 0 && |g| > 0 && Init(f) == Init(g) && Last(f) == Last(g)
    ensures f == g
  {
    assert f == Init(f) + [Last(f)];
    assert g == Init(g) + [Last(g)];
  }

  /** Distance 0 means the forests are identical. */
  lemma {:induction false} DistZeroOnlyForEqual(f: seq<Tree>, g: seq<Tree>)
    requires Dist(f, g) == 0
    ensures f == g
    decreases ForestSize(f) + ForestSize(g)
  {
    if |f| > 0 && |g| > 0 {
      ZeroMeansMatch(f, g);
      SplitSize(f);
      SplitSize(g);
      DistZeroOnlyForEqual(Last(f).kids, Last(g).kids);
      DistZeroOnlyForEqual(Init(f), Init(g));
      SameSplit(f, g);
    } else if |f| > 0 {
      SplitSize(f);
    } else if |g| > 0 {
      SplitSize(g);
    }
  }

  /** The distance is zero exactly for identical forests. */
  lemma {:induction false} DistZeroIff(f: seq<Tree>, g: seq<Tree>)
    ensures Dist(f, g) == 0 <==> f == g
  {
    if f == g {
      DistSelf(f);
    } else if Dist(f, g) == 0 {
      DistZeroOnlyForEqual(f, g);
    }
  }

  /** For two non-empty forests the distance is the cheapest of deleting, inserting and matching the rightmost roots. */
  lemma DistIsCheapestStep(f: seq<Tree>, g: seq<Tree>)
    requires |f| > 0 && |g| > 0
    ensures var d := Dist(f, g);
            var del := Dist(DropRoot(f), g) + 1;
            var ins := Dist(f, DropRoot(g)) + 1;
            var keep := Dist(Last(f).kids, Last(g).kids) + Dist(Init(f), Init(g)) + UpdateCost(Last(f), Last(g));
            && d <= del && d <= ins && d <= keep
            && (d == del || d == ins || d == keep)
  {
  }

  /** For two non-empty forests, the distance is symmetric once it is for the three smaller problems. */
  lemma SymmetricStep(f: seq<Tree>, g: seq<Tree>)
    requires |f| > 0 && |g| > 0
    requires Dist(DropRoot(f), g) == Dist(g, DropRoot(f))
    requires Dist(f, DropRoot(g)) == Dist(DropRoot(g), f)
    requires Dist(Last(f).kids, Last(g).kids) == Dist(Last(g).kids, Last(f).kids)
    requires Dist(Init(f), Init(g)) == Dist(Init(g), Init(f))
    ensures Dist(f, g) == Dist(g, f)
  {
    DistIsCheapestStep(f, g);
    DistIsCheapestStep(g, f);
  }

  /** Swapping the forests does not change the distance. */
  lemma {:induction false} DistSymmetric(f: seq<Tree>, g: seq<Tree>)
    ensures Dist(f, g) == Dist(g, f)
    decreases ForestSize(f) + ForestSize(g)
  {
    if |f| > 0 && |g| == 0 {
      DistSymmetric(DropRoot(f), g);
    } else if |f| == 0 && |g| > 0 {
      DistSymmetric(f, DropRoot(g));
    } else if |f| > 0 && |g| > 0 {
      SplitSize(f);
      SplitSize(g);
      DistSymmetric(DropRoot(f), g);
      DistSymmetric(f, DropRoot(g));
      DistSymmetric(Last(f).kids, Last(g).kids);
      DistSymmetric(Init(f), Init(g));
      SymmetricStep(f, g);
    }
  }

  /** Turning a forest into nothing deletes every node. */
  lemma {:induction false} DistToEmpty(f: seq<Tree>)
    ensures Dist(f, []) == ForestSize(f)
    decreases ForestSize(f)
  {
    if |f| > 0 {
      DistToEmpty(DropRoot(f));
    }
  }

  /** Appending one leaf to a forest costs exactly one insertion. */
  lemma AppendLeafCostsOne(f: seq<Tree>, leaf: TagName)
    ensures Dist(f, f + [Node(leaf, [])]) == 1
  {
    var g := f + [Node(leaf, [])];
    assert Last(g) == Node(leaf, []);
    assert DropRoot(g) == f;
    DistSelf(f);
    if |f| == 0 {
      assert Dist(f, g) == Dist(f, f) + 1;
    }
    DistZeroIff(f, g);
    assert f != g by { assert |f| != |g|; }
  }

  /**
   Where a new leaf goes: at position `index` of a forest, or inside the kids of
   the forest's tree number `child`.
   */
  datatype Spot = At(index: nat) | Below(child: nat, spot: Spot)

  /** The spot exists in the forest. */
  predicate Fits(f: seq<Tree>, s: Spot) {
    match s
    case At(i) => i <= |f|
    case Below(j, inner) => j < |f| && Fits(f[j].kids, inner)
  }

  /** The forest with one new leaf labelled `leaf` at spot `s`; everything else is kept. */
  function InsertLeaf(f: seq<Tree>, s: Spot, leaf: TagName): (g: seq<Tree>)
    requires Fits(f, s)
    ensures ForestSize(g) == ForestSize(f) + 1
  {
    match s
    case At(i) =>
      assert f == f[..i] + f[i..];
      ForestSizeAppend(f[..i], f[i..]);
      ForestSizeAppend(f[..i] + [Node(leaf, [])], f[i..]);
      ForestSizeAppend(f[..i], [Node(leaf, [])]);
      SingletonSize(Node(leaf, []));
      f[..i] + [Node(leaf, [])] + f[i..]
    case Below(j, inner) =>
      var t := Node(f[j].name, InsertLeaf(f[j].kids, inner, leaf));
      assert f == f[..j] + [f[j]] + f[j + 1..];
      ForestSizeAppend(f[..j] + [f[j]], f[j + 1..]);
      ForestSizeAppend(f[..j], [f[j]]);
      ForestSizeAppend(f[..j] + [t], f[j + 1..]);
      ForestSizeAppend(f[..j], [t]);
      SingletonSize(f[j]);
      SingletonSize(t);
      f[..j] + [t] + f[j + 1..]
  }

  /**
   When two non-empty forests agree on one side of the rightmost split, their
   distance is at most the distance on the other side: matching the rightmost
   trees costs that much.
   */
  lemma MatchRightmost(f: seq<Tree>, g: seq<Tree>)
    requires |f| > 0 && |g| > 0 && Last(f).name == Last(g).name
    ensures Dist(f, g) <= Dist(Last(f).kids, Last(g).kids) + Dist(Init(f), Init(g))
  {
    SplitSize(f);
    SplitSize(g);
  }

  /** A leaf inserted left of the rightmost tree leaves that tree alone and goes into the rest. */
  lemma InsertBeforeLast(f: seq<Tree>, s: Spot, leaf: TagName)
    requires Fits(f, s) && |f| > 0
    requires (s.At? && s.index < |f|) || (s.Below? && s.child < |f| - 1)
    ensures Fits(Init(f), s)
    ensures var g := InsertLeaf(f, s, leaf);
            |g| > 0 && Last(g) == Last(f) && Init(g) == InsertLeaf(Init(f), s, leaf)
  {
    var n := |f| - 1;
    var g := InsertLeaf(f, s, leaf);
    match s
    case At(i) =>
      assert g == f[..i] + [Node(leaf, [])] + f[i..];
      assert Init(f)[..i] == f[..i] && Init(f)[i..] == f[i..n];
      assert Init(g) == f[..i] + [Node(leaf, [])] + f[i..n];
    case Below(j, inner) =>
      assert Init(f)[j] == f[j];
      var t := Node(f[j].name, InsertLeaf(f[j].kids, inner, leaf));
      assert g == f[..j] + [t] + f[j + 1..];
      assert Init(f)[..j] == f[..j] && Init(f)[j + 1..] == f[j + 1..n];
      assert Init(g) == f[..j] + [t] + f[j + 1..n];
  }

  /** A leaf inserted inside the rightmost tree leaves the rest alone. */
  lemma InsertInLast(f: seq<Tree>, inner: Spot, leaf: TagName)
    requires |f| > 0 && Fits(f, Below(|f| - 1, inner))
    ensures var g := InsertLeaf(f, Below(|f| - 1, inner), leaf);
            && |g| > 0 && Init(g) == Init(f)
            && Last(g) == Node(Last(f).name, InsertLeaf(Last(f).kids, inner, leaf))
  {
  }

  /** Inserting one leaf anywhere, at any depth, costs exactly one insertion. */
  lemma {:induction false} InsertLeafCostsOne(f: seq<Tree>, s: Spot, leaf: TagName)
    requires Fits(f, s)
    ensures Dist(f, InsertLeaf(f, s, leaf)) == 1
    decreases ForestSize(f)
  {
    var g := InsertLeaf(f, s, leaf);
    if s.At? && s.index == |f| {
      assert g == f + [Node(leaf, [])];
      AppendLeafCostsOne(f, leaf);
    } else if s.Below? && s.child == |f| - 1 {
      InsertInLast(f, s.spot, leaf);
      SplitSize(f);
      InsertLeafCostsOne(Last(f).kids, s.spot, leaf);
      DistSelf(Init(f));
      MatchRightmost(f, g);
    } else {
      InsertBeforeLast(f, s, leaf);
      SplitSize(f);
      InsertLeafCostsOne(Init(f), s, leaf);
      DistSelf(Last(f).kids);
      MatchRightmost(f, g);
    }
  }

  /**
   Two trees that differ by one leaf inserted anywhere below the root are at
   distance exactly 1, in either direction.
   */
  lemma TreeWithInsertedLeaf(t: Tree, s: Spot, leaf: TagName)
    requires Fits(t.kids, s)
    ensures TreeDistance(t, Node(t.name, InsertLeaf(t.kids, s, leaf))) == 1
    ensures TreeDistance(Node(t.name, InsertLeaf(t.kids, s, leaf)), t) == 1
  {
    var u := Node(t.name, InsertLeaf(t.kids, s, leaf));
    assert Fits([t], Below(0, s));
    assert InsertLeaf([t], Below(0, s), leaf) == [u];
    InsertLeafCostsOne([t], Below(0, s), leaf);
    DistSymmetric([t], [u]);
  }
}
