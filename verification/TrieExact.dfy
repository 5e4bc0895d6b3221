/** When a diff of two settled tries is exactly the difference of their path sets, and how it can miss one. */
module TrieExact {
  import opened Wrappers
  import opened ByteStrings
  import opened Trie
  import opened TrieLookup
  import opened TrieHash
  import opened TrieNorm
  import opened TrieRuns
  import opened TrieDiff

  /** The report a comparison of the two path sets would make: a path in one set only, with its parent in both. */
  predicate Minimal(a: Tree, b: Tree, d: Diff) {
    d.path != [] &&
    var p, parent := d.path, d.path[..|d.path| - 1];
    Has(a, parent) && Has(b, parent) &&
    match d
    case MissingOther(_) => Has(a, p) && !Has(b, p)
    case MissingSelf(_) => Has(b, p) && !Has(a, p)
    case HashMismatch(_) => false
  }

  ghost predicate Exact(a: Tree, b: Tree) {
    forall d :: d in DiffTrees(a, b) <==> Minimal(a, b, d)
  }

  ghost predicate SamePaths(x: Tree, y: Tree) {
    forall q :: Has(x, q) <==> Has(y, q)
  }

  /** Clean and canonical throughout, with no pinned hash: what a rehash leaves of a trie of plain inserts. */
  ghost predicate SettledPlain(h: Digest, t: Tree) {
    t == Norm(h, t) && Unpinned(t)
  }

  ghost predicate Unpinned(t: Tree) {
    t.manual == None && forall c :: c in t.children ==> Unpinned(c)
  }

  predicate Collide(h: Digest, x: Bytes, y: Bytes) {
    x != y && Low32(h(x)) == Low32(h(y))
  }

  /** Nodes with one parent path are hashed from different bytes only if the digests differ in their low halves. */
  ghost predicate CollisionFree(h: Digest, a: Tree, b: Tree) {
    forall p, x, y :: Siblings(a, b, p, x, y) ==> !Collide(h, HashInput(x), HashInput(y))
  }

  /** x and y are children of the two nodes found at p. */
  predicate Siblings(a: Tree, b: Tree, p: Path, x: Tree, y: Tree) {
    Has(a, p) && Has(b, p) && x in Lookup(a, p).value.children && y in Lookup(b, p).value.children
  }

  predicate SameNames(xs: seq<Tree>, ys: seq<Tree>) {
    |xs| == |ys| && forall i :: 0 <= i < |xs| ==> xs[i].value == ys[i].value
  }

  /** If both have the path with equal hashes, the nodes there have equally named children. */
  predicate AgreeAt(a: Tree, b: Tree, p: Path) {
    Has(a, p) && Has(b, p) && !Differ(a, b, p) ==> SameNames(Lookup(a, p).value.children, Lookup(b, p).value.children)
  }

  /** Wherever the diff prunes, the pruned nodes at least have equally named children. */
  ghost predicate PrunedAgree(a: Tree, b: Tree) {
    forall p :: p != [] ==> AgreeAt(a, b, p)
  }

  // ----- settled tries -----

  lemma {:induction false} SettledBelow(h: Digest, t: Tree, p: Path)
    requires t == Norm(h, t) && Has(t, p)
    ensures var n := Lookup(t, p).value; n == Norm(h, n)
    decreases |p|
  {
    if p == [] {
    } else {
      KidFound(t.children, p[0]);
      var c := Kid(t.children, p[0]).value;
      SettledChild(h, t, c);
      SettledBelow(h, c, p[1..]);
    }
  }

  lemma SettledChild(h: Digest, t: Tree, c: Tree)
    requires t == Norm(h, t) && c in t.children
    ensures c == Norm(h, c)
  {
  }

  lemma SettledHash(h: Digest, t: Tree)
    requires t == Norm(h, t)
    ensures t.manual == None ==> t.hash == h(HashInput(t))
  {
    CanonOfNorm(h, t);
  }

  lemma {:induction false} UnpinnedBelow(t: Tree, p: Path)
    requires Unpinned(t) && Has(t, p)
    ensures Unpinned(Lookup(t, p).value)
    decreases |p|
  {
    if p == [] {
    } else {
      KidFound(t.children, p[0]);
      UnpinnedBelow(Kid(t.children, p[0]).value, p[1..]);
    }
  }

  lemma {:induction false} SortedBelow(t: Tree, p: Path)
    requires Sorted(t) && Has(t, p)
    ensures Sorted(Lookup(t, p).value)
    decreases |p|
  {
    if p == [] {
    } else {
      KidFound(t.children, p[0]);
      SortedBelow(Kid(t.children, p[0]).value, p[1..]);
    }
  }

  lemma {:induction false} LookupLast(t: Tree, p: Path)
    requires p != [] && Has(t, p)
    ensures Lookup(t, p).value.value == p[|p| - 1]
    decreases |p|
  {
    KidFound(t.children, p[0]);
    if |p| > 1 {
      LookupLast(Kid(t.children, p[0]).value, p[1..]);
    } else {
      assert p[1..] == [];
    }
  }

  lemma {:induction false} LookupJoin(t: Tree, p: Path, q: Path)
    requires Has(t, p)
    ensures Lookup(t, p + q) == Lookup(Lookup(t, p).value, q)
    decreases |p|
  {
    if p == [] {
      assert p + q == q;
    } else {
      KidFound(t.children, p[0]);
      assert (p + q)[1..] == p[1..] + q;
      LookupJoin(Kid(t.children, p[0]).value, p[1..], q);
    }
  }

  lemma {:induction false} PrefixClosed(t: Tree, p: Path, k: nat)
    requires Has(t, p) && k <= |p|
    ensures Has(t, p[..k])
    decreases |p|
  {
    if k > 0 {
      assert p[..k][1..] == p[1..][..k - 1];
      PrefixClosed(Kid(t.children, p[0]).value, p[1..], k - 1);
    }
  }

  // ----- hash mismatches point at pinned nodes -----

  /** Between two settled tries a hash mismatch is only reported where at least one side carries a pinned hash. */
  lemma MismatchIsPinned(h: Digest, a: Tree, b: Tree, p: Path)
    requires Sorted(a) && Sorted(b) && a == Norm(h, a) && b == Norm(h, b)
    requires HashMismatch(p) in DiffTrees(a, b)
    ensures Has(a, p) && Has(b, p) && (ManualAt(a, p).Some? || ManualAt(b, p).Some?)
  {
    DiffMeetsSpecification(a, b, HashMismatch(p));
    assert Differ(a, b, p[..|p|]) && p[..|p|] == p;
    var x, y := Lookup(a, p).value, Lookup(b, p).value;
    LookupLast(a, p);
    LookupLast(b, p);
    SettledBelow(h, a, p);
    SettledBelow(h, b, p);
    SettledHash(h, x);
    SettledHash(h, y);
    assert Hashes(x.children) == Hashes(y.children);
  }

  // ----- pruning -----

  /** v and w could end the same hash input: one is the other after a positive multiple of four bytes. */
  predicate Confusable(v: Bytes, w: Bytes) {
    var (s, l) := if |v| <= |w| then (v, w) else (w, v);
    |s| < |l| && (|l| - |s|) % 4 == 0 && l[|l| - |s|..] == s
  }

  lemma TwoSplits(x: Bytes, v: Bytes, y: Bytes, w: Bytes)
    requires x + v == y + w && |x| <= |y|
    ensures |v| - |w| == |y| - |x| && v[|y| - |x|..] == w
    ensures |x| == |y| ==> x == y && v == w
  {
    var s := x + v;
    assert |s| == |x| + |v| == |y| + |w|;
    assert v == s[|x|..];
    assert w == s[|y|..];
    assert x == s[..|x|];
    assert y == s[..|y|];
  }

  lemma SplitsConfusable(x: Bytes, m: nat, v: Bytes, y: Bytes, n: nat, w: Bytes)
    requires x + v == y + w && |x| == 4 * m && |y| == 4 * n && m <= n
    ensures v != w ==> Confusable(v, w) && Confusable(w, v)
    ensures v == w ==> m == n && x == y
  {
    TwoSplits(x, v, y, w);
    assert |v| - |w| == 4 * (n - m);
  }

  /** Two splits of one byte string into four-byte groups and a value. */
  lemma EqualSplits(a: seq<u64>, v: Bytes, b: seq<u64>, w: Bytes)
    requires LowBytes(a) + v == LowBytes(b) + w
    ensures v != w ==> Confusable(v, w)
    ensures v == w ==> |a| == |b| && LowBytes(a) == LowBytes(b)
  {
    LowBytesLength(a);
    LowBytesLength(b);
    var x, y := LowBytes(a), LowBytes(b);
    if |a| <= |b| {
      SplitsConfusable(x, |a|, v, y, |b|, w);
    } else {
      SplitsConfusable(y, |b|, w, x, |a|, v);
    }
  }

  /** Equal hash inputs end in the same value, unless the values are confusable, and then list equal low halves. */
  lemma EqualInputs(x: Tree, y: Tree)
    requires HashInput(x) == HashInput(y)
    ensures x.value == y.value || Confusable(x.value, y.value)
    ensures x.value == y.value ==> SameLows(x.children, y.children)
  {
    var a, b := Hashes(x.children), Hashes(y.children);
    EqualSplits(a, x.value, b, y.value);
    if x.value == y.value {
      LowBytesEqual(a, b);
      forall i | 0 <= i < |a|
        ensures Low32(x.children[i].hash) == Low32(y.children[i].hash)
      {
        assert a[i] == x.children[i].hash && b[i] == y.children[i].hash;
      }
    }
  }

  predicate SameLows(xs: seq<Tree>, ys: seq<Tree>) {
    |xs| == |ys| && forall i :: 0 <= i < |xs| ==> Low32(xs[i].hash) == Low32(ys[i].hash)
  }

  /** The collision and agreement hypotheses for a pair of nodes and everything below. */
  ghost predicate PairClear(h: Digest, x: Tree, y: Tree) {
    CollisionFree(h, x, y) && PrunedAgree(x, y) && AgreeAt(x, y, [])
  }

  /** The hypotheses for two tries give those for any two nodes at one path below the roots. */
  lemma PairClearAt(h: Digest, a: Tree, b: Tree, p: Path, x: Tree, y: Tree)
    requires CollisionFree(h, a, b) && PrunedAgree(a, b)
    requires p != [] && Lookup(a, p) == Some(x) && Lookup(b, p) == Some(y)
    ensures PairClear(h, x, y)
  {
    forall q
      ensures Lookup(x, q) == Lookup(a, p + q) && Lookup(y, q) == Lookup(b, p + q)
    {
      LookupJoin(a, p, q);
      LookupJoin(b, p, q);
    }
    forall q, u, w | Siblings(x, y, q, u, w)
      ensures !Collide(h, HashInput(u), HashInput(w))
    {
      assert Siblings(a, b, p + q, u, w);
    }
    forall q
      ensures AgreeAt(x, y, q)
    {
      assert AgreeAt(a, b, p + q);
    }
  }

  lemma PairClearChild(h: Digest, x: Tree, y: Tree, c: Tree, d: Tree)
    requires PairClear(h, x, y) && Kid(x.children, c.value) == Some(c) && Kid(y.children, c.value) == Some(d)
    ensures PairClear(h, c, d)
  {
    LookupOne(x, c.value);
    LookupOne(y, c.value);
    PairClearAt(h, x, y, [c.value], c, d);
  }

  /** Equal hashes of equally named settled nodes mean equal path sets below, once nothing collides and names agree. */
  lemma {:induction false} PrunedSamePaths(h: Digest, x: Tree, y: Tree)
    requires Sorted(x) && Sorted(y) && SettledPlain(h, x) && SettledPlain(h, y)
    requires HashInput(x) == HashInput(y) && x.value == y.value && PairClear(h, x, y)
    ensures SamePaths(x, y)
  {
    EqualInputs(x, y);
    SettledHash(h, x);
    SettledHash(h, y);
    assert !Differ(x, y, []);
    assert SameNames(x.children, y.children);
    forall i | 0 <= i < |x.children|
      ensures SamePaths(x.children[i], y.children[i])
    {
      PrunedChild(h, x, y, i);
      PrunedSamePaths(h, x.children[i], y.children[i]);
    }
    SamePathsFromChildren(x, y);
  }

  lemma PrunedChild(h: Digest, x: Tree, y: Tree, i: nat)
    requires Sorted(x) && Sorted(y) && SettledPlain(h, x) && SettledPlain(h, y) && PairClear(h, x, y)
    requires SameNames(x.children, y.children) && i < |x.children|
    requires Low32(x.children[i].hash) == Low32(y.children[i].hash)
    ensures var c, d := x.children[i], y.children[i];
      && Sorted(c) && Sorted(d) && SettledPlain(h, c) && SettledPlain(h, d)
      && HashInput(c) == HashInput(d) && PairClear(h, c, d)
  {
    var c, d := x.children[i], y.children[i];
    assert c in x.children && d in y.children;
    SettledChild(h, x, c);
    SettledChild(h, y, d);
    SettledHash(h, c);
    SettledHash(h, d);
    assert Siblings(x, y, [], c, d);
    KidAt(x.children, i);
    KidAt(y.children, i);
    PairClearChild(h, x, y, c, d);
  }

  lemma SamePathsFromChildren(x: Tree, y: Tree)
    requires Sorted(x) && Sorted(y) && SameNames(x.children, y.children)
    requires forall i :: 0 <= i < |x.children| ==> SamePaths(x.children[i], y.children[i])
    ensures SamePaths(x, y)
  {
    forall q
      ensures Has(x, q) <==> Has(y, q)
    {
      if q != [] { SamePathFromChildren(x, y, q); }
    }
  }

  lemma SamePathFromChildren(x: Tree, y: Tree, q: Path)
    requires SortedValues(x.children) && SortedValues(y.children) && SameNames(x.children, y.children) && q != []
    requires forall i :: 0 <= i < |x.children| ==> SamePaths(x.children[i], y.children[i])
    ensures Has(x, q) <==> Has(y, q)
  {
    LookupKid(x, q);
    LookupKid(y, q);
    SameKidIndex(x.children, y.children, q[0]);
    if Kid(x.children, q[0]).Some? {
      var xs, ys := x.children, y.children;
      var i :| 0 <= i < |xs| && Kid(xs, q[0]) == Some(xs[i]) && Kid(ys, q[0]) == Some(ys[i]);
      assert Has(x.children[i], q[1..]) <==> Has(y.children[i], q[1..]);
    }
  }

  lemma SameKidIndex(xs: seq<Tree>, ys: seq<Tree>, v: Bytes)
    requires SortedValues(xs) && SortedValues(ys) && SameNames(xs, ys)
    ensures (Kid(xs, v) == None && Kid(ys, v) == None) ||
      exists i :: 0 <= i < |xs| && Kid(xs, v) == Some(xs[i]) && Kid(ys, v) == Some(ys[i])
  {
    if i :| 0 <= i < |xs| && xs[i].value == v {
      KidAt(xs, i);
      KidAt(ys, i);
    } else {
      KidAbsent(xs, v);
      KidAbsent(ys, v);
    }
  }

  // ----- exactness -----

  /** The nodes at a common path, with everything pruning needs to know about them. */
  lemma PrunedAt(h: Digest, a: Tree, b: Tree, p: Path)
    requires Sorted(a) && Sorted(b) && SettledPlain(h, a) && SettledPlain(h, b)
    requires CollisionFree(h, a, b) && PrunedAgree(a, b)
    requires p != [] && Has(a, p) && Has(b, p) && !Differ(a, b, p)
    ensures SamePaths(Lookup(a, p).value, Lookup(b, p).value)
  {
    var x, y := Lookup(a, p).value, Lookup(b, p).value;
    SortedBelow(a, p);
    SortedBelow(b, p);
    SettledBelow(h, a, p);
    SettledBelow(h, b, p);
    UnpinnedBelow(a, p);
    UnpinnedBelow(b, p);
    LookupLast(a, p);
    LookupLast(b, p);
    SettledHash(h, x);
    SettledHash(h, y);
    EqualInputsAt(h, a, b, p);
    PairClearAt(h, a, b, p, x, y);
    PrunedSamePaths(h, x, y);
  }

  /** A pruned pair was hashed from the same bytes. */
  lemma EqualInputsAt(h: Digest, a: Tree, b: Tree, p: Path)
    requires SettledPlain(h, a) && SettledPlain(h, b) && CollisionFree(h, a, b)
    requires p != [] && Has(a, p) && Has(b, p) && !Differ(a, b, p)
    ensures HashInput(Lookup(a, p).value) == HashInput(Lookup(b, p).value)
  {
    var x, y := Lookup(a, p).value, Lookup(b, p).value;
    var parent := p[..|p| - 1];
    var v := p[|p| - 1];
    assert p == parent + [v];
    PrefixClosed(a, p, |p| - 1);
    PrefixClosed(b, p, |p| - 1);
    LookupJoin(a, parent, [v]);
    LookupJoin(b, parent, [v]);
    LookupOne(Lookup(a, parent).value, v);
    LookupOne(Lookup(b, parent).value, v);
    assert Siblings(a, b, parent, x, y);
    SettledBelow(h, a, p);
    SettledBelow(h, b, p);
    UnpinnedBelow(a, p);
    UnpinnedBelow(b, p);
    SettledHash(h, x);
    SettledHash(h, y);
  }

  lemma LookupOne(t: Tree, v: Bytes)
    ensures Lookup(t, [v]) == Kid(t.children, v)
    ensures Has(t, [v]) ==> Kid(t.children, v).value in t.children && Kid(t.children, v).value.value == v
  {
    KidFound(t.children, v);
    LookupKid(t, [v]);
    assert [v] + [] == [v];
  }

  /**
   * For two settled tries without pinned hashes and without digest collisions, the diff is exactly the minimal
   * difference of the path sets if and only if the nodes it prunes have equally named children.
   */
  lemma DiffExactIff(h: Digest, a: Tree, b: Tree)
    requires Sorted(a) && Sorted(b) && SettledPlain(h, a) && SettledPlain(h, b) && CollisionFree(h, a, b)
    ensures Exact(a, b) <==> PrunedAgree(a, b)
  {
    if PrunedAgree(a, b) {
      forall d
        ensures d in DiffTrees(a, b) <==> Minimal(a, b, d)
      {
        DiffMeetsSpecification(a, b, d);
        SpecifiedIsMinimal(h, a, b, d);
      }
    }
    if Exact(a, b) {
      forall p | p != [] && Has(a, p) && Has(b, p) && !Differ(a, b, p)
        ensures SameNames(Lookup(a, p).value.children, Lookup(b, p).value.children)
      {
        ExactNames(a, b, p);
      }
    }
  }

  /** Nothing differs below a pruned node. */
  lemma PrunedHidesNothing(h: Digest, a: Tree, b: Tree, p: Path, k: nat)
    requires Sorted(a) && Sorted(b) && SettledPlain(h, a) && SettledPlain(h, b)
    requires CollisionFree(h, a, b) && PrunedAgree(a, b)
    requires 1 <= k <= |p| && Has(a, p[..k]) && Has(b, p[..k]) && !Differ(a, b, p[..k])
    ensures Has(a, p) <==> Has(b, p)
  {
    var q, r := p[..k], p[k..];
    PrunedAt(h, a, b, q);
    assert p == q + r;
    LookupJoin(a, q, r);
    LookupJoin(b, q, r);
    assert Has(Lookup(a, q).value, r) <==> Has(Lookup(b, q).value, r);
  }

  lemma SpecifiedIsMinimal(h: Digest, a: Tree, b: Tree, d: Diff)
    requires Sorted(a) && Sorted(b) && SettledPlain(h, a) && SettledPlain(h, b)
    requires CollisionFree(h, a, b) && PrunedAgree(a, b)
    ensures Specified(a, b, d) <==> Minimal(a, b, d)
  {
    var p := d.path;
    if Specified(a, b, d) {
      if d.HashMismatch? {
        DiffMeetsSpecification(a, b, d);
        MismatchIsPinned(h, a, b, p);
        UnpinnedBelow(a, p);
        UnpinnedBelow(b, p);
      } else if Has(a, p) {
        PrefixClosed(a, p, |p| - 1);
      } else {
        PrefixClosed(b, p, |p| - 1);
      }
    }
    if Minimal(a, b, d) {
      var parent := p[..|p| - 1];
      forall k | 1 <= k <= |parent|
        ensures Differ(a, b, parent[..k])
      {
        PrefixClosed(a, parent, k);
        PrefixClosed(b, parent, k);
        assert parent[..k] == p[..k];
        if !Differ(a, b, p[..k]) {
          PrunedHidesNothing(h, a, b, p, k);
        }
      }
    }
  }

  /** If the diff is exact, a pruned pair cannot have differently named children. */
  lemma ExactNames(a: Tree, b: Tree, p: Path)
    requires Sorted(a) && Sorted(b) && Exact(a, b)
    requires p != [] && Has(a, p) && Has(b, p) && !Differ(a, b, p)
    ensures SameNames(Lookup(a, p).value.children, Lookup(b, p).value.children)
  {
    var x, y := Lookup(a, p).value, Lookup(b, p).value;
    forall v
      ensures Kid(x.children, v).Some? <==> Kid(y.children, v).Some?
    {
      LookupJoin(a, p, [v]);
      LookupJoin(b, p, [v]);
      LookupOne(x, v);
      LookupOne(y, v);
      assert (p + [v])[..|p|] == p;
      assert p[..|p|] == p;
      DiffMeetsSpecification(a, b, MissingOther(p + [v]));
      DiffMeetsSpecification(a, b, MissingSelf(p + [v]));
    }
    SortedBelow(a, p);
    SortedBelow(b, p);
    KidsAlign(x.children, y.children);
  }

  /** No two siblings of the two tries have confusable values; for instance, values of one length at each depth. */
  ghost predicate Unconfusable(a: Tree, b: Tree) {
    forall p, x, y :: Siblings(a, b, p, x, y) ==> !Confusable(x.value, y.value)
  }

  /**
   * With no digest collision and no confusable values the diff is exact: it reports the minimal paths of the symmetric
   * difference, each with the right side, in order, and no hash mismatch.
   */
  lemma DiffExact(h: Digest, a: Tree, b: Tree)
    requires Sorted(a) && Sorted(b) && SettledPlain(h, a) && SettledPlain(h, b)
    requires CollisionFree(h, a, b) && Unconfusable(a, b)
    ensures Exact(a, b) && Ascending(DiffTrees(a, b))
  {
    forall p | p != [] && Has(a, p) && Has(b, p) && !Differ(a, b, p)
      ensures SameNames(Lookup(a, p).value.children, Lookup(b, p).value.children)
    {
      UnconfusableNames(h, a, b, p);
    }
    DiffExactIff(h, a, b);
    DiffAscending(a.children, b.children);
  }

  lemma UnconfusableNames(h: Digest, a: Tree, b: Tree, p: Path)
    requires SettledPlain(h, a) && SettledPlain(h, b) && CollisionFree(h, a, b) && Unconfusable(a, b)
    requires p != [] && Has(a, p) && Has(b, p) && !Differ(a, b, p)
    ensures SameNames(Lookup(a, p).value.children, Lookup(b, p).value.children)
  {
    var x, y := Lookup(a, p).value, Lookup(b, p).value;
    EqualInputsAt(h, a, b, p);
    LookupLast(a, p);
    LookupLast(b, p);
    EqualInputs(x, y);
    SettledBelow(h, a, p);
    SettledBelow(h, b, p);
    UnpinnedBelow(a, p);
    UnpinnedBelow(b, p);
    forall i | 0 <= i < |x.children|
      ensures x.children[i].value == y.children[i].value
    {
      var c, d := x.children[i], y.children[i];
      assert Siblings(a, b, p, c, d);
      SettledChild(h, x, c);
      SettledChild(h, y, d);
      SettledHash(h, c);
      SettledHash(h, d);
      EqualInputs(c, d);
    }
  }

  // ----- exactness over runs -----

  /** A run that never gives a hash. */
  ghost predicate GivesNoHash(ops: seq<Op>) {
    forall op :: op in ops && op.Put? ==> op.hash == None
  }

  lemma {:induction false} NoHashNoPin(ops: seq<Op>, q: Path)
    requires GivesNoHash(ops)
    ensures Pin(ops, q) == None
  {
    if ops == [] {
    } else {
      assert Last(ops) in ops;
      NoHashNoPin(Init(ops), q);
    }
  }

  lemma {:induction false} UnpinnedByLookup(t: Tree)
    requires Sorted(t) && forall q :: ManualAt(t, q) == None
    ensures Unpinned(t)
  {
    assert ManualAt(t, []) == None;
    forall c | c in t.children
      ensures Unpinned(c)
    {
      KidIn(t.children, c);
      forall q
        ensures ManualAt(c, q) == None
      {
        LookupKid(t, [c.value] + q);
        assert ManualAt(t, [c.value] + q) == None;
      }
      UnpinnedByLookup(c);
    }
  }

  /** What a rehash leaves of a safe run that never gives a hash. */
  lemma RehashedRun(h: Digest, ops: seq<Op>)
    requires Safe(h, ops) && GivesNoHash(ops)
    ensures var t := Rehash(h, Run(h, ops)); Sorted(t) && SettledPlain(h, t) && forall q :: Has(t, q) <==> Names(ops, q)
  {
    var r := Run(h, ops);
    var t := Rehash(h, r);
    RunStructure(h, ops);
    RunCoherent(h, ops);
    RehashCanonicalIff(h, r);
    NormTwice(h, r);
    RehashKeepsStructure(h, r);
    forall q
      ensures (Has(t, q) <==> Names(ops, q)) && ManualAt(t, q) == None
    {
      RunHas(h, ops, q);
      RehashLookup(h, r, q);
      NoHashNoPin(ops, q);
    }
    UnpinnedByLookup(t);
  }

  /** The report a comparison of what two runs inserted would make. */
  ghost predicate NamesMinimal(xs: seq<Op>, ys: seq<Op>, d: Diff) {
    d.path != [] &&
    var p, parent := d.path, d.path[..|d.path| - 1];
    Names(xs, parent) && Names(ys, parent) &&
    match d
    case MissingOther(_) => Names(xs, p) && !Names(ys, p)
    case MissingSelf(_) => Names(ys, p) && !Names(xs, p)
    case HashMismatch(_) => false
  }

  /**
   * Reconciliation: two sets built by any safe runs that give no hash, then rehashed, are told apart exactly by what
   * was inserted in one and not the other, if no digests collide and no values are confusable.
   */
  lemma RunsDiffExact(h: Digest, xs: seq<Op>, ys: seq<Op>, d: Diff)
    requires Safe(h, xs) && Safe(h, ys) && GivesNoHash(xs) && GivesNoHash(ys)
    requires var a, b := Rehash(h, Run(h, xs)), Rehash(h, Run(h, ys)); CollisionFree(h, a, b) && Unconfusable(a, b)
    ensures d in DiffTrees(Rehash(h, Run(h, xs)), Rehash(h, Run(h, ys))) <==> NamesMinimal(xs, ys, d)
  {
    var a, b := Rehash(h, Run(h, xs)), Rehash(h, Run(h, ys));
    RehashedRun(h, xs);
    RehashedRun(h, ys);
    DiffExact(h, a, b);
    assert Minimal(a, b, d) <==> NamesMinimal(xs, ys, d);
  }

  // ----- a difference every digest misses -----

  /** A one-child trie: the path name/value, as two one-element inserts would name it. */
  function Chain(p: Path): seq<Op>
    requires p != []
  {
    [Put(p[..|p| - 1], p[|p| - 1], None, false)]
  }

  /**
   * For every digest there are two rehashed sets with different paths and an empty diff, although no digests collide:
   * the bytes of a child's hash followed by its parent's value are the same whether they come from a child or spell out
   * a longer value.
   */
  lemma EveryDigestMisses(h: Digest)
    ensures var spelled := Be32(h([2])) + [1];
      var a, b := Rehash(h, Run(h, Chain([[0], spelled]))), Rehash(h, Run(h, Chain([[0], [1], [2]])));
      && DiffTrees(a, b) == [] && Has(a, [[0], spelled]) && !Has(b, [[0], spelled])
      && Sorted(a) && Sorted(b) && SettledPlain(h, a) && SettledPlain(h, b) && CollisionFree(h, a, b)
  {
    var spelled := Be32(h([2])) + [1];
    var xs, ys := Chain([[0], spelled]), Chain([[0], [1], [2]]);
    var a, b := Rehash(h, Run(h, xs)), Rehash(h, Run(h, ys));
    MissedPath(h, xs, ys, spelled);
    ChainSettled(h, xs);
    ChainSettled(h, ys);
    SpelledShape(h, spelled);
    HashedShape(h, spelled);
    DiffEmptyIff(a.children, b.children);
    ShapesCollisionFree(h, a, spelled, b, [1], spelled);
  }

  lemma ChainSettled(h: Digest, ops: seq<Op>)
    requires |ops| == 1 && ops[0].Put? && !ops[0].update && ops[0].hash == None
    ensures var t := Rehash(h, Run(h, ops)); Sorted(t) && SettledPlain(h, t)
  {
    ChainSafe(h, ops);
    RehashedRun(h, ops);
  }

  lemma SpelledShape(h: Digest, v: Bytes)
    ensures Shape(h, Rehash(h, Run(h, Chain([[0], v]))), v, v)
  {
    ChainSettles(h, Chain([[0], v]));
    ChainTree(h, [0], v);
    LeafInput(h, v, 2);
    ShapeSettles(h, Run(h, Chain([[0], v])), Leaf(v, 2), v);
  }

  lemma HashedShape(h: Digest, input: Bytes)
    requires input == Be32(h([2])) + [1]
    ensures Shape(h, Rehash(h, Run(h, Chain([[0], [1], [2]]))), [1], input)
  {
    var ys := Chain([[0], [1], [2]]);
    ChainSettles(h, ys);
    ChainTree3(h, [0], [1], [2]);
    var c := Leaf([1], 2).(children := [Leaf([2], 3)]);
    LeafCanon(h, [2], 3);
    OneChildInput(h, c);
    ShapeSettles(h, Run(h, ys), c, input);
  }

  lemma ChainSafe(h: Digest, ops: seq<Op>)
    requires |ops| == 1 && ops[0].Put? && !ops[0].update
    ensures Safe(h, ops)
  {
    assert Init(ops) == [];
  }

  /** One node named 0 above one named v that is hashed from the given bytes, both with the hashes that gives. */
  ghost predicate Shape(h: Digest, t: Tree, v: Bytes, input: Bytes) {
    && |t.children| == 1
    && var x := t.children[0];
    && x.value == [0] && x.hash == h(HashInput(x)) && HashInput(x) == Be32(h(input)) + [0]
    && |x.children| == 1 && x.children[0].value == v && HashInput(x.children[0]) == input
  }

  lemma ShapeSettles(h: Digest, r: Tree, c: Tree, input: Bytes)
    requires r.children == [Leaf([0], 1).(children := [c])] && c.manual == None && CanonInput(h, c) == input
    ensures Shape(h, Norm(h, r), c.value, input)
  {
    var x := r.children[0];
    assert Norm(h, r).children[0] == Norm(h, x);
    assert Norm(h, x).children[0] == Norm(h, c);
    CanonOfNorm(h, x);
    CanonOfNorm(h, c);
    OneChildInput(h, x);
  }

  /** Two such tries with different names below have no collision: they hash equal bytes where they can be compared. */
  lemma ShapesCollisionFree(h: Digest, a: Tree, v: Bytes, b: Tree, w: Bytes, input: Bytes)
    requires Shape(h, a, v, input) && Shape(h, b, w, input) && v != w
    ensures CollisionFree(h, a, b)
  {
    forall p, x, y | Siblings(a, b, p, x, y)
      ensures HashInput(x) == HashInput(y)
    {
      if |p| > 0 {
        ShapeLookup(h, a, v, input, p);
        ShapeLookup(h, b, w, input, p);
      }
    }
  }

  lemma ShapeLookup(h: Digest, t: Tree, v: Bytes, input: Bytes, p: Path)
    requires Shape(h, t, v, input) && p != [] && Has(t, p)
    ensures p[0] == [0] && (|p| == 1 ==> Lookup(t, p) == Some(t.children[0])) && (|p| > 1 ==> p[1] == v)
  {
    var x := t.children[0];
    OneKid(t.children, p[0]);
    LookupKid(t, p);
    if |p| > 1 {
      OneKid(x.children, p[1]);
      LookupKid(x, p[1..]);
    }
  }

  lemma OneKid(kids: seq<Tree>, v: Bytes)
    requires |kids| == 1
    ensures Kid(kids, v) == if kids[0].value == v then Some(kids[0]) else None
  {
    assert kids[1..] == [];
  }

  lemma MissedPath(h: Digest, xs: seq<Op>, ys: seq<Op>, spelled: Bytes)
    requires |spelled| == 5 && xs == Chain([[0], spelled]) && ys == Chain([[0], [1], [2]])
    ensures Has(Rehash(h, Run(h, xs)), [[0], spelled]) && !Has(Rehash(h, Run(h, ys)), [[0], spelled])
  {
    var p: Path := [[0], spelled];
    var q: Path := [[0], [1], [2]];
    RunHas(h, xs, p);
    RunHas(h, ys, p);
    RehashLookup(h, Run(h, xs), p);
    RehashLookup(h, Run(h, ys), p);
    assert xs[0].path + [xs[0].value] == p;
    assert ys[0].path + [ys[0].value] == q;
    assert |q[1]| != |p[1]|;
    assert !(p <= q);
  }

  lemma ChainSettles(h: Digest, ops: seq<Op>)
    requires |ops| == 1 && ops[0].Put? && !ops[0].update
    ensures Rehash(h, Run(h, ops)) == Norm(h, Run(h, ops))
  {
    assert Init(ops) == [];
    RunCoherent(h, ops);
    RehashCanonicalIff(h, Run(h, ops));
  }

  lemma OneChildInput(h: Digest, t: Tree)
    requires |t.children| == 1
    ensures CanonInput(h, t) == Be32(Canon(h, t.children[0])) + t.value
  {
    var cs := Canons(h, t.children);
    assert cs == [Canon(h, t.children[0])];
    assert LowBytes(cs) == Be32(cs[0]);
  }

  /** Inserting below a childless node makes one child. */
  lemma InsertIntoLeaf(h: Digest, t: Tree, path: Path, value: Bytes)
    requires t.children == []
    ensures var child := if path == [] then Leaf(value, t.level + 1)
                         else Insert(h, Leaf(path[0], t.level + 1), path[1..], value, None, false);
      Insert(h, t, path, value, None, false) == t.(dirty := true, children := [child])
  {
  }

  lemma ChainTree(h: Digest, u: Bytes, v: Bytes)
    ensures Run(h, Chain([u, v])).children == [Leaf(u, 1).(children := [Leaf(v, 2)])]
  {
    var ops := Chain([u, v]);
    assert [u, v][..1] == [u] && Init(ops) == [];
    assert Run(h, ops) == Insert(h, EMPTY, [u], v, None, false);
    InsertIntoLeaf(h, EMPTY, [u], v);
    InsertIntoLeaf(h, Leaf(u, 1), [], v);
    assert [u][1..] == [];
  }

  lemma ChainTree3(h: Digest, u: Bytes, v: Bytes, w: Bytes)
    ensures Run(h, Chain([u, v, w])).children == [Leaf(u, 1).(children := [Leaf(v, 2).(children := [Leaf(w, 3)])])]
  {
    var ops := Chain([u, v, w]);
    assert [u, v, w][..2] == [u, v] && Init(ops) == [];
    assert Run(h, ops) == Insert(h, EMPTY, [u, v], w, None, false);
    InsertIntoLeaf(h, EMPTY, [u, v], w);
    assert [u, v][1..] == [v] && [v][1..] == [];
    InsertIntoLeaf(h, Leaf(u, 1), [v], w);
    InsertIntoLeaf(h, Leaf(v, 2), [], w);
  }
}
