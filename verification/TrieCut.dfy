/** What an extract holds, and how cutting two tries at a depth coarsens their diff. */
module TrieCut {
  import opened Wrappers
  import opened ByteStrings
  import opened Trie
  import opened TrieLookup
  import opened TrieHash
  import opened TrieRuns
  import opened TrieDiff
  import opened TrieExact
  import opened TrieVisit

  // ----- a pre-order listing against lookup -----

  /** The node at the end of a path below a sibling list. */
  function Find(ts: seq<Tree>, p: Path): Option<Tree>
    requires p != []
  {
    match Kid(ts, p[0]) case None => None case Some(c) => Lookup(c, p[1..])
  }

  /** The listing entry for a node found at p below `path`. */
  function Entry(path: Path, p: Path, n: Tree): Seen
    requires p != []
  {
    Seen(path + p[..|p| - 1], n)
  }

  /** The listing names exactly the nodes that can be looked up. */
  lemma {:induction false} PreorderLists(path: Path, ts: seq<Tree>, p: Path, n: Tree)
    requires SortedList(ts) && p != [] && n.value == p[|p| - 1]
    ensures Entry(path, p, n) in Preorder(path, ts) <==> Find(ts, p) == Some(n)
    decreases ts
  {
    if ts == [] {
    } else {
      var t, x := ts[0], Entry(path, p, n);
      TailSorted(ts);
      PreorderLists(path, ts[1..], p, n);
      assert x in Preorder(path, ts) <==>
        x == Seen(path, t) || x in Preorder(path + [t.value], t.children) || x in Preorder(path, ts[1..]);
      if |p| > 1 {
        PreorderLists(path + [t.value], t.children, p[1..], n);
        EntryBelow(path, t, p, n);
        LookupKid(t, p[1..]);
      } else {
        EntryHere(path, t, p, n);
      }
    }
  }

  lemma EntryHere(path: Path, t: Tree, p: Path, n: Tree)
    requires |p| == 1 && n.value == p[0]
    ensures Entry(path, p, n) == Seen(path, t) <==> n == t
    ensures Entry(path, p, n) !in Preorder(path + [t.value], t.children)
    ensures p[1..] == []
  {
    assert path + p[..0] == path;
    PreorderBelow(path + [t.value], t.children);
  }

  lemma EntryBelow(path: Path, t: Tree, p: Path, n: Tree)
    requires |p| > 1
    ensures Entry(path, p, n) != Seen(path, t)
    ensures p[0] == t.value ==> Entry(path, p, n) == Entry(path + [t.value], p[1..], n)
    ensures p[0] != t.value ==> Entry(path, p, n) !in Preorder(path + [t.value], t.children)
  {
    PreorderBelow(path + [t.value], t.children);
    assert p[..|p| - 1] == [p[0]] + p[1..][..|p| - 2];
    assert Entry(path, p, n).path == path + [p[0]] + p[1..][..|p| - 2];
    assert Entry(path, p, n).path[|path|] == p[0];
  }

  lemma {:induction false} InKept(keep: Path -> bool, l: seq<Seen>, x: Seen)
    ensures x in Kept(keep, l) <==> x in l && keep(Full(x))
  {
    if l == [] {
    } else {
      InKept(keep, l[1..], x);
      assert x in l <==> x == l[0] || x in l[1..];
    }
  }

  function HashAt(t: Tree, p: Path): Option<u64> {
    match Lookup(t, p) case Some(n) => Some(n.hash) case None => None
  }

  // ----- what an extract holds -----

  lemma {:induction false} PinsName(l: seq<Seen>, q: Path)
    ensures Names(Pins(l), q) <==> q == [] || exists x :: x in l && q <= Full(x)
  {
    var ops := Pins(l);
    if q != [] && Names(ops, q) {
      var i :| 0 <= i < |ops| && ops[i].Put? && q <= ops[i].path + [ops[i].value];
      assert ops[i] == PinOf(l[i]);
      assert l[i] in l && q <= Full(l[i]);
    }
    if x :| x in l && q <= Full(x) {
      var i :| 0 <= i < |l| && l[i] == x;
      assert ops[i] == PinOf(l[i]);
      assert ops[i].Put? && q <= ops[i].path + [ops[i].value];
    }
  }

  lemma {:induction false} PinsPin(l: seq<Seen>, q: Path)
    ensures (Pin(Pins(l), q) == None && forall x :: x in l ==> Full(x) != q) ||
      exists x :: x in l && Full(x) == q && Pin(Pins(l), q) == Some(x.node.hash)
  {
    if l == [] {
    } else {
      var l1, x := l[..|l| - 1], l[|l| - 1];
      assert l == l1 + [x];
      PinsPin(l1, q);
      assert Init(Pins(l)) == Pins(l1) && Last(Pins(l)) == PinOf(x);
      if Full(x) == q {
        assert Pin(Pins(l), q) == Some(x.node.hash);
      } else {
        assert Pin(Pins(l), q) == Pin(Pins(l1), q);
        assert forall y :: y in l1 ==> y in l;
      }
    }
  }

  lemma FindIsLookup(t: Tree, p: Path)
    requires p != []
    ensures Find(t.children, p) == Lookup(t, p)
  {
  }

  lemma ListedAt(t: Tree, x: Seen)
    requires Sorted(t)
    ensures x in Preorder([], t.children) <==> Lookup(t, Full(x)) == Some(x.node)
  {
    var p := Full(x);
    assert p[..|p| - 1] == x.path;
    assert [] + x.path == x.path;
    PreorderLists([], t.children, p, x.node);
    FindIsLookup(t, p);
  }

  /** The list holds exactly the nodes of t within reach. */
  ghost predicate Copies(l: seq<Seen>, t: Tree, prefix: Path, maxLen: nat) {
    forall x :: x in l <==> Copied(t, prefix, maxLen, x)
  }

  predicate Copied(t: Tree, prefix: Path, maxLen: nat, x: Seen) {
    Lookup(t, Full(x)) == Some(x.node) && InReach(prefix, maxLen, Full(x))
  }

  lemma KeptCopies(t: Tree, prefix: Path, maxLen: nat)
    requires Sorted(t)
    ensures Copies(Kept(Within(prefix, maxLen), Preorder([], t.children)), t, prefix, maxLen)
  {
    var l := Kept(Within(prefix, maxLen), Preorder([], t.children));
    forall x
      ensures x in l <==> Copied(t, prefix, maxLen, x)
    {
      InKept(Within(prefix, maxLen), Preorder([], t.children), x);
      ListedAt(t, x);
    }
  }

  lemma CopiedEntry(l: seq<Seen>, t: Tree, prefix: Path, maxLen: nat, q: Path)
    requires Copies(l, t, prefix, maxLen) && q != [] && Has(t, q) && InReach(prefix, maxLen, q)
    ensures exists x :: x in l && Full(x) == q
  {
    var x := Seen(q[..|q| - 1], Lookup(t, q).value);
    LookupLast(t, q);
    assert Full(x) == q;
    assert Copied(t, prefix, maxLen, x);
  }

  lemma CopiedNames(l: seq<Seen>, t: Tree, prefix: Path, maxLen: nat, q: Path)
    requires Copies(l, t, prefix, maxLen) && q != []
    ensures Names(Pins(l), q) <==> Has(t, q) && InReach(prefix, maxLen, q)
  {
    PinsName(l, q);
    if x :| x in l && q <= Full(x) {
      assert Copied(t, prefix, maxLen, x);
      PrefixClosed(t, Full(x), |q|);
      NearClosed(prefix, Full(x), |q|);
      assert Full(x)[..|q|] == q;
    }
    if Has(t, q) && InReach(prefix, maxLen, q) {
      CopiedEntry(l, t, prefix, maxLen, q);
    }
  }

  lemma CopiedPin(l: seq<Seen>, t: Tree, prefix: Path, maxLen: nat, q: Path)
    requires Copies(l, t, prefix, maxLen) && q != [] && Has(t, q) && InReach(prefix, maxLen, q)
    ensures Pin(Pins(l), q) == Some(Lookup(t, q).value.hash)
  {
    CopiedEntry(l, t, prefix, maxLen, q);
    PinsPin(l, q);
    var x :| x in l && Full(x) == q && Pin(Pins(l), q) == Some(x.node.hash);
    assert Copied(t, prefix, maxLen, x);
  }

  /** The hash the run of pins stores at a path, before and after a rehash. */
  lemma PinsHold(h: Digest, l: seq<Seen>, t: Tree, prefix: Path, maxLen: nat, q: Path, e: Tree)
    requires Copies(l, t, prefix, maxLen) && q != [] && e == Run(h, Pins(l))
    ensures HashAt(e, q) == if InReach(prefix, maxLen, q) then HashAt(t, q) else None
    ensures HashAt(Rehash(h, e), q) == HashAt(e, q)
  {
    RunStructure(h, Pins(l));
    RunHas(h, Pins(l), q);
    CopiedNames(l, t, prefix, maxLen, q);
    if Has(t, q) && InReach(prefix, maxLen, q) {
      CopiedPin(l, t, prefix, maxLen, q);
    }
    PinnedHash(h, e, q);
  }

  /** A node with a pinned hash stores it, and keeps storing it when rehashed. */
  lemma PinnedHash(h: Digest, e: Tree, q: Path)
    requires Pinned(e)
    ensures ManualAt(e, q).Some? ==> HashAt(e, q) == ManualAt(e, q) && HashAt(Rehash(h, e), q) == ManualAt(e, q)
    ensures HashAt(e, q) == None ==> HashAt(Rehash(h, e), q) == None
  {
    RehashLookup(h, e, q);
    RehashKeepsStructure(h, e);
    PinnedAt(e, q);
    PinnedAt(Rehash(h, e), q);
  }

  /** The nodes an extract pins. */
  lemma ExtractPins(h: Digest, t: Tree, prefix: Path, depth: nat) returns (l: seq<Seen>)
    ensures Extract(h, t, prefix, depth) == Run(h, Pins(l))
    ensures Sorted(t) ==> Copies(l, t, prefix, |prefix| + depth)
  {
    l := Kept(Within(prefix, |prefix| + depth), Preorder([], t.children));
    ExtractIsRun(h, t, prefix, depth);
    if Sorted(t) { KeptCopies(t, prefix, |prefix| + depth); }
  }

  /**
   * An extract holds exactly the source's paths near the prefix and within the depth, each with the source's hash, and
   * a later rehash leaves those hashes alone although children are missing.
   */
  lemma ExtractExact(h: Digest, t: Tree, prefix: Path, depth: nat, q: Path)
    requires Sorted(t) && q != []
    ensures var e := Extract(h, t, prefix, depth);
      && HashAt(e, q) == (if Near(prefix, q) && |q| <= |prefix| + depth then HashAt(t, q) else None)
      && HashAt(Rehash(h, e), q) == HashAt(e, q)
  {
    var l := ExtractPins(h, t, prefix, depth);
    PinsHold(h, l, t, prefix, |prefix| + depth, q, Extract(h, t, prefix, depth));
  }

  lemma ExtractSorted(h: Digest, t: Tree, prefix: Path, depth: nat)
    ensures Sorted(Extract(h, t, prefix, depth))
  {
    var l := ExtractPins(h, t, prefix, depth);
    RunStructure(h, Pins(l));
  }

  lemma {:induction false} PinnedAt(t: Tree, p: Path)
    requires Pinned(t)
    ensures ManualAt(t, p).Some? ==> Has(t, p) && Lookup(t, p).value.hash == ManualAt(t, p).value
    decreases |p|
  {
    if p != [] && Kid(t.children, p[0]).Some? {
      KidFound(t.children, p[0]);
      PinnedAt(Kid(t.children, p[0]).value, p[1..]);
    }
  }

  // ----- cutting at a depth -----

  /** es is ts down to depth d, as far as a diff reads: names, hashes and children. */
  ghost predicate IsCut(es: seq<Tree>, ts: seq<Tree>, d: nat)
    decreases d
  {
    if d == 0 then es == []
    else SameFront(es, ts) && forall i :: 0 <= i < |es| ==> IsCut(es[i].children, ts[i].children, d - 1)
  }

  /** e answers every path of length at most d as t does, and no other. */
  ghost predicate LooksCut(t: Tree, e: Tree, d: nat) {
    forall q :: q != [] ==> LooksCutAt(t, e, d, q)
  }

  predicate LooksCutAt(t: Tree, e: Tree, d: nat, q: Path) {
    HashAt(e, q) == if |q| <= d then HashAt(t, q) else None
  }

  /** A sorted trie that looks like t cut at d is, to a diff, t cut at d. */
  lemma {:induction false} CutFace(t: Tree, e: Tree, d: nat)
    requires Sorted(t) && Sorted(e) && LooksCut(t, e, d)
    ensures IsCut(e.children, t.children, d)
    decreases d
  {
    CutNames(t, e, d);
    if d == 0 {
    } else {
      for i := 0 to |e.children|
        invariant forall j :: 0 <= j < i ==> ChildIsCut(e.children, t.children, d, j)
      {
        CutFaceChild(t, e, d, i);
        CutFace(t.children[i], e.children[i], d - 1);
      }
      CutFromChildren(e.children, t.children, d);
    }
  }

  /** The i-th child is stored alike and cut one level higher up. */
  ghost predicate ChildIsCut(es: seq<Tree>, ts: seq<Tree>, d: nat, i: nat)
    requires i < |es| == |ts| && d > 0
  {
    es[i].hash == ts[i].hash && IsCut(es[i].children, ts[i].children, d - 1)
  }

  lemma CutFromChildren(es: seq<Tree>, ts: seq<Tree>, d: nat)
    requires d > 0 && SameNames(es, ts) && forall i :: 0 <= i < |es| ==> ChildIsCut(es, ts, d, i)
    ensures IsCut(es, ts, d)
  {
    assert forall i :: 0 <= i < |es| ==> ChildIsCut(es, ts, d, i) && es[i].value == ts[i].value;
  }

  lemma CutNames(t: Tree, e: Tree, d: nat)
    requires Sorted(t) && Sorted(e) && LooksCut(t, e, d)
    ensures if d == 0 then e.children == [] else SameNames(e.children, t.children)
  {
    forall v
      ensures Kid(e.children, v).Some? <==> d > 0 && Kid(t.children, v).Some?
    {
      LookupOne(e, v);
      LookupOne(t, v);
      assert LooksCutAt(t, e, d, [v]);
    }
    if d == 0 {
      if e.children != [] { KidAt(e.children, 0); }
    } else {
      KidsAlign(e.children, t.children);
    }
  }

  lemma CutFaceChild(t: Tree, e: Tree, d: nat, i: nat)
    requires Sorted(t) && Sorted(e) && LooksCut(t, e, d)
    requires SameNames(e.children, t.children) && d > 0 && i < |e.children|
    ensures var x, y := e.children[i], t.children[i];
      Sorted(x) && Sorted(y) && x.hash == y.hash && LooksCut(y, x, d - 1)
  {
    var x, y := e.children[i], t.children[i];
    KidAt(e.children, i);
    KidAt(t.children, i);
    var below: nat := d - 1;
    forall q
      ensures LooksCutAt(y, x, below, q)
    {
      LookupKid(e, [x.value] + q);
      LookupKid(t, [x.value] + q);
      assert LooksCutAt(t, e, d, [x.value] + q);
    }
    assert LooksCutAt(y, x, d - 1, []);
  }

  // ----- coarsening a report -----

  /** An entry deeper than d becomes a hash mismatch at its first d names. */
  function Shorten(d: nat, e: Diff): Diff {
    if |e.path| > d then HashMismatch(e.path[..d]) else e
  }

  function ShortenAll(d: nat, ds: seq<Diff>): (r: seq<Diff>)
    ensures |r| == |ds|
  {
    seq(|ds|, i requires 0 <= i < |ds| => Shorten(d, ds[i]))
  }

  /** Neighbouring duplicates merged. */
  function Merge(ds: seq<Diff>): seq<Diff> {
    if ds == [] then []
    else if |ds| > 1 && ds[0] == ds[1] then Merge(ds[1..])
    else [ds[0]] + Merge(ds[1..])
  }

  function Coarsen(d: nat, ds: seq<Diff>): seq<Diff> {
    Merge(ShortenAll(d, ds))
  }

  lemma {:induction false} MergeAppend(a: seq<Diff>, b: seq<Diff>)
    requires a != [] && b != [] ==> a[|a| - 1] != b[0]
    ensures Merge(a + b) == Merge(a) + Merge(b)
  {
    if a == [] {
      assert a + b == b;
    } else if b == [] {
      assert a + b == a;
    } else {
      var s := a + b;
      assert s[1..] == a[1..] + b && s[0] == a[0];
      MergeAppend(a[1..], b);
      if |a| == 1 {
        assert s[1] == b[0];
      } else {
        assert s[1] == a[1];
      }
    }
  }

  lemma {:induction false} MergeConstant(ds: seq<Diff>, e: Diff)
    requires ds != [] && forall d :: d in ds ==> d == e
    ensures Merge(ds) == [e]
  {
    assert ds[0] in ds;
    if |ds| > 1 {
      assert ds[1] in ds && forall d :: d in ds[1..] ==> d in ds;
      MergeConstant(ds[1..], e);
    }
  }

  lemma {:induction false} MergePrefixed(v: Bytes, ds: seq<Diff>)
    ensures Merge(Prefixed([v], ds)) == Prefixed([v], Merge(ds))
  {
    if ds == [] {
    } else {
      var ps := Prefixed([v], ds);
      assert ps[1..] == Prefixed([v], ds[1..]);
      MergePrefixed(v, ds[1..]);
      if |ds| > 1 {
        assert ps[0].path[1..] == ds[0].path && ps[1].path[1..] == ds[1].path;
        assert ps[0] == ps[1] <==> ds[0] == ds[1];
      }
      assert Prefixed([v], [ds[0]] + Merge(ds[1..])) == [ps[0]] + Prefixed([v], Merge(ds[1..]));
    }
  }

  lemma {:induction false} MergeEmpty(ds: seq<Diff>)
    ensures Merge(ds) == [] <==> ds == []
  {
    if ds != [] { MergeEmpty(ds[1..]); }
  }

  lemma CutTail(es: seq<Tree>, ts: seq<Tree>, d: nat)
    requires IsCut(es, ts, d) && d > 0 && ts != []
    ensures es != [] && es[0].value == ts[0].value && es[0].hash == ts[0].hash
    ensures IsCut(es[0].children, ts[0].children, d - 1) && IsCut(es[1..], ts[1..], d)
  {
  }

  lemma CoarsenOne(d: nat, e: Diff)
    requires d > 0 && |e.path| == 1
    ensures Coarsen(d, [e]) == [e]
  {
    assert ShortenAll(d, [e]) == [e];
    MergeConstant([e], e);
  }

  /** A pair of nodes against their cut versions. */
  lemma CoarsenNodes(e: Tree, f: Tree, x: Tree, y: Tree, d: nat)
    requires d > 0 && x.value == y.value && e.value == x.value && e.hash == x.hash && f.hash == y.hash
    requires DiffLists(e.children, f.children) ==
      if d == 1 then [] else Coarsen(d - 1, DiffLists(x.children, y.children))
    ensures DiffNodes(e, f) == Coarsen(d, DiffNodes(x, y))
  {
    var below := DiffLists(x.children, y.children);
    var v := x.value;
    if x.hash == y.hash {
    } else if below == [] {
      MergeEmpty(ShortenAll(d - 1, below));
      CoarsenOne(d, HashMismatch([v]));
    } else {
      PathsNonEmpty(x.children, y.children);
      var ps := ShortenAll(d, Prefixed([v], below));
      if d == 1 {
        forall q | q in ps
          ensures q == HashMismatch([v])
        {
          var i :| 0 <= i < |below| && q == ps[i];
          assert below[i] in below;
          assert ([v] + below[i].path)[..1] == [v];
        }
        MergeConstant(ps, HashMismatch([v]));
      } else {
        forall i | 0 <= i < |below|
          ensures ps[i] == Prefixed([v], ShortenAll(d - 1, below))[i]
        {
          var p := below[i].path;
          if |p| > d - 1 { assert ([v] + p)[..d] == [v] + p[..d - 1]; }
        }
        assert ps == Prefixed([v], ShortenAll(d - 1, below));
        MergePrefixed(v, ShortenAll(d - 1, below));
        MergeEmpty(ShortenAll(d - 1, below));
      }
    }
  }

  /** A report under one name followed by reports under larger names coarsens part by part. */
  lemma CoarsenAppend(d: nat, ds: seq<Diff>, es: seq<Diff>, v: Bytes)
    requires d > 0 && HeadsAbove(es, v) && forall e :: e in ds ==> e.path != [] && e.path[0] == v
    ensures Coarsen(d, ds + es) == Coarsen(d, ds) + Coarsen(d, es)
  {
    var a, b := ShortenAll(d, ds), ShortenAll(d, es);
    assert ShortenAll(d, ds + es) == a + b;
    if a != [] && b != [] {
      assert ds[|ds| - 1] in ds && es[0] in es;
      assert a[|a| - 1].path[0] == v && Cmp(v, b[0].path[0]) == Less;
      CmpOrder(v, v, v);
    }
    MergeAppend(a, b);
  }

  /**
   * Diffing two sorted sibling lists cut at depth d >= 1 coarsens their diff: entries deeper than d become hash
   * mismatches at depth d, merged where they coincide.
   */
  lemma {:induction false} CutCoarsens(es: seq<Tree>, fs: seq<Tree>, xs: seq<Tree>, ys: seq<Tree>, d: nat)
    requires SortedList(xs) && SortedList(ys) && d > 0 && IsCut(es, xs, d) && IsCut(fs, ys, d)
    ensures DiffLists(es, fs) == Coarsen(d, DiffLists(xs, ys))
    decreases xs, ys
  {
    if xs != [] { TailSorted(xs); CutTail(es, xs, d); }
    if ys != [] { TailSorted(ys); CutTail(fs, ys, d); }
    if xs == [] && ys == [] {
    } else if ys == [] || (xs != [] && Cmp(xs[0].value, ys[0].value) == Less) {
      CutCoarsens(es[1..], fs, xs[1..], ys, d);
      CoarsenLeft(xs, ys, d);
    } else if xs == [] || Cmp(xs[0].value, ys[0].value) == Greater {
      CutCoarsens(es, fs[1..], xs, ys[1..], d);
      CoarsenRight(xs, ys, d);
    } else {
      if d > 1 {
        CutCoarsens(es[0].children, fs[0].children, xs[0].children, ys[0].children, d - 1);
      }
      CutCoarsens(es[1..], fs[1..], xs[1..], ys[1..], d);
      CmpEqual(xs[0].value, ys[0].value);
      CoarsenNodes(es[0], fs[0], xs[0], ys[0], d);
      CoarsenBoth(xs, ys, d);
    }
  }

  lemma CoarsenLeft(xs: seq<Tree>, ys: seq<Tree>, d: nat)
    requires SortedList(xs) && SortedList(ys) && d > 0
    requires xs != [] && (ys != [] ==> Cmp(xs[0].value, ys[0].value) == Less)
    ensures Coarsen(d, DiffLists(xs, ys)) == [MissingOther([xs[0].value])] + Coarsen(d, DiffLists(xs[1..], ys))
  {
    var v := xs[0].value;
    TailAbove(xs, v);
    if ys != [] { TailAbove(ys, v); }
    DiffHeadsAbove(xs[1..], ys, v);
    CoarsenAppend(d, [MissingOther([v])], DiffLists(xs[1..], ys), v);
    CoarsenOne(d, MissingOther([v]));
  }

  lemma CoarsenRight(xs: seq<Tree>, ys: seq<Tree>, d: nat)
    requires SortedList(xs) && SortedList(ys) && d > 0
    requires ys != [] && (xs != [] ==> Cmp(xs[0].value, ys[0].value) == Greater)
    ensures Coarsen(d, DiffLists(xs, ys)) == [MissingSelf([ys[0].value])] + Coarsen(d, DiffLists(xs, ys[1..]))
  {
    var v := ys[0].value;
    TailAbove(ys, v);
    if xs != [] { CmpOrder(xs[0].value, v, v); TailAbove(xs, v); }
    DiffHeadsAbove(xs, ys[1..], v);
    CoarsenAppend(d, [MissingSelf([v])], DiffLists(xs, ys[1..]), v);
    CoarsenOne(d, MissingSelf([v]));
  }

  lemma CoarsenBoth(xs: seq<Tree>, ys: seq<Tree>, d: nat)
    requires SortedList(xs) && SortedList(ys) && d > 0 && xs != [] && ys != [] && xs[0].value == ys[0].value
    ensures Coarsen(d, DiffLists(xs, ys)) ==
      Coarsen(d, DiffNodes(xs[0], ys[0])) + Coarsen(d, DiffLists(xs[1..], ys[1..]))
  {
    var v := xs[0].value;
    CmpEqual(v, ys[0].value);
    TailAbove(xs, v);
    TailAbove(ys, v);
    NodesHead(xs[0], ys[0]);
    DiffHeadsAbove(xs[1..], ys[1..], v);
    CoarsenAppend(d, DiffNodes(xs[0], ys[0]), DiffLists(xs[1..], ys[1..]), v);
  }

  lemma ExtractLooksCut(h: Digest, t: Tree, d: nat)
    requires Sorted(t)
    ensures LooksCut(t, Extract(h, t, [], d), d)
  {
    forall q | q != []
      ensures LooksCutAt(t, Extract(h, t, [], d), d, q)
    {
      ExtractExact(h, t, [], d, q);
    }
  }

  /**
   * The depth cut: for every d >= 1, the diff of two extracts of depth d is the diff of the sources with each entry
   * deeper than d replaced by a hash mismatch at depth d and duplicates merged.  Nothing is assumed of the hashes.
   */
  lemma DepthCutCoarsensDiff(h: Digest, a: Tree, b: Tree, d: nat)
    requires Sorted(a) && Sorted(b) && d > 0
    ensures DiffTrees(Extract(h, a, [], d), Extract(h, b, [], d)) == Coarsen(d, DiffTrees(a, b))
  {
    ExtractLooksCut(h, a, d);
    ExtractLooksCut(h, b, d);
    ExtractSorted(h, a, [], d);
    ExtractSorted(h, b, [], d);
    var x, y := Extract(h, a, [], d), Extract(h, b, [], d);
    CutFace(a, x, d);
    CutFace(b, y, d);
    CutCoarsens(x.children, y.children, a.children, b.children, d);
  }
}
