/** Cutting two tries around a prefix: how the reach of an extract coarsens their diff. */
module TrieReach {
  import opened Wrappers
  import opened ByteStrings
  import opened Trie
  import opened TrieLookup
  import opened TrieDiff
  import opened TrieExact
  import opened TrieVisit
  import opened TrieCut

  // ----- reach -----

  lemma ReachClosed(prefix: Path, maxLen: nat, q: Path, k: nat)
    requires InReach(prefix, maxLen, q) && 1 <= k <= |q|
    ensures InReach(prefix, maxLen, q[..k])
  {
    NearClosed(prefix, q, k);
  }

  /** The longest beginning of a path within reach. */
  function Clip(prefix: Path, maxLen: nat, q: Path): Path {
    if q == [] || InReach(prefix, maxLen, q) then q else Clip(prefix, maxLen, q[..|q| - 1])
  }

  lemma {:induction false} ClipIs(prefix: Path, maxLen: nat, q: Path)
    ensures var c := Clip(prefix, maxLen, q);
      && c <= q && (c != [] ==> InReach(prefix, maxLen, c))
      && (|c| < |q| ==> !InReach(prefix, maxLen, q[..|c| + 1]))
  {
    if q == [] || InReach(prefix, maxLen, q) {
    } else {
      var front := q[..|q| - 1];
      ClipIs(prefix, maxLen, front);
      var c := Clip(prefix, maxLen, front);
      if |c| < |front| {
        assert front[..|c| + 1] == q[..|c| + 1];
      } else {
        assert q[..|c| + 1] == q;
      }
    }
  }

  /** Whatever begins the path within reach begins the clipped path. */
  lemma ClipKeeps(prefix: Path, maxLen: nat, q: Path, p: Path)
    requires p != [] && p <= q && InReach(prefix, maxLen, p)
    ensures p <= Clip(prefix, maxLen, q)
  {
    var c := Clip(prefix, maxLen, q);
    ClipIs(prefix, maxLen, q);
    if |c| < |p| {
      assert p[..|c| + 1] == q[..|c| + 1];
      ReachClosed(prefix, maxLen, p, |c| + 1);
    } else {
      assert p == q[..|p|] == c[..|p|];
    }
  }

  /** A path that leaves reach after p is clipped to p. */
  lemma ClipAt(prefix: Path, maxLen: nat, q: Path, p: Path)
    requires p != [] && p <= q && |p| < |q| && InReach(prefix, maxLen, p) && !InReach(prefix, maxLen, q[..|p| + 1])
    ensures Clip(prefix, maxLen, q) == p && !InReach(prefix, maxLen, q)
  {
    var c, k: nat := Clip(prefix, maxLen, q), |p| + 1;
    ClipIs(prefix, maxLen, q);
    ClipKeeps(prefix, maxLen, q, p);
    if |c| > |p| {
      assert c[..k] == q[..k];
      ReachClosed(prefix, maxLen, c, k);
    }
    if InReach(prefix, maxLen, q) {
      ReachClosed(prefix, maxLen, q, k);
    }
  }

  // ----- reports and hashes -----

  /** The two tries store different hashes at the path, or only one of them has it. */
  predicate Clash(a: Tree, b: Tree, p: Path) {
    HashAt(a, p) != HashAt(b, p)
  }

  /** At every name on its way a report passes a clash. */
  lemma ReportPasses(a: Tree, b: Tree, r: Diff, k: nat)
    requires Specified(a, b, r) && 1 <= k <= |r.path|
    ensures Clash(a, b, r.path[..k])
    ensures k < |r.path| || r.HashMismatch? ==> Open(a, b, r.path[..k]) && Differ(a, b, r.path[..k])
  {
    var p, parent := r.path, r.path[..|r.path| - 1];
    if k < |p| {
      assert parent[..k] == p[..k];
      forall j | 1 <= j <= k
        ensures p[..k][..j] == parent[..j] == p[..j]
      {
      }
      assert Differ(a, b, parent[..k]);
    } else {
      assert p[..k] == p;
      if r.HashMismatch? {
        assert Differ(a, b, p[..k]);
      }
    }
  }

  /** A report on the nodes at an open path is one on the tries, below that path. */
  lemma ReportBelow(a: Tree, b: Tree, p: Path, x: Tree, y: Tree, r: Diff)
    requires Open(a, b, p) && Lookup(a, p) == Some(x) && Lookup(b, p) == Some(y) && Specified(x, y, r)
    ensures Specified(a, b, r.(path := p + r.path))
  {
    var q, parent := r.path, r.path[..|r.path| - 1];
    assert (p + q)[..|p + q| - 1] == p + parent;
    LookupJoin(a, p, q);
    LookupJoin(b, p, q);
    LookupJoin(a, p, parent);
    LookupJoin(b, p, parent);
    var open := if r.HashMismatch? then q else parent;
    OpenBelow(a, b, p, x, y, open);
  }

  lemma OpenBelow(a: Tree, b: Tree, p: Path, x: Tree, y: Tree, q: Path)
    requires Open(a, b, p) && Lookup(a, p) == Some(x) && Lookup(b, p) == Some(y) && Open(x, y, q)
    ensures Open(a, b, p + q)
  {
    forall k | 1 <= k <= |p + q|
      ensures Differ(a, b, (p + q)[..k])
    {
      if k <= |p| {
        assert (p + q)[..k] == p[..k];
      } else {
        assert (p + q)[..k] == p + q[..k - |p|];
        LookupJoin(a, p, q[..k - |p|]);
        LookupJoin(b, p, q[..k - |p|]);
        assert Differ(x, y, q[..k - |p|]);
      }
    }
  }

  /** At or below an open path there is a report. */
  lemma OpenReports(a: Tree, b: Tree, p: Path) returns (r: Diff)
    requires Sorted(a) && Sorted(b) && p != [] && Open(a, b, p)
    ensures Specified(a, b, r) && p <= r.path
  {
    assert p[..|p|] == p && Differ(a, b, p[..|p|]);
    var x, y := Lookup(a, p).value, Lookup(b, p).value;
    SortedBelow(a, p);
    SortedBelow(b, p);
    DiffEmptyIff(x.children, y.children);
    if DiffTrees(x, y) == [] {
      r := HashMismatch(p);
    } else {
      var below := DiffTrees(x, y)[0];
      DiffMeetsSpecification(x, y, below);
      ReportBelow(a, b, p, x, y, below);
      r := below.(path := p + below.path);
    }
  }

  /** So there is at or below a clash under an open parent. */
  lemma ClashReports(a: Tree, b: Tree, p: Path, v: Bytes) returns (r: Diff)
    requires Sorted(a) && Sorted(b) && Has(a, p) && Has(b, p) && Open(a, b, p) && Clash(a, b, p + [v])
    ensures Specified(a, b, r) && p + [v] <= r.path
  {
    var q := p + [v];
    assert q[..|q| - 1] == p;
    if !Has(b, q) {
      r := MissingOther(q);
    } else if !Has(a, q) {
      r := MissingSelf(q);
    } else {
      forall k | 1 <= k <= |q|
        ensures Differ(a, b, q[..k])
      {
        if k <= |p| {
          assert q[..k] == p[..k];
        } else {
          assert q[..k] == q;
        }
      }
      r := OpenReports(a, b, q);
    }
  }

  /** Sorted siblings agree on names and hashes exactly if no name clashes. */
  lemma FrontIff(x: Tree, y: Tree)
    requires Sorted(x) && Sorted(y)
    ensures SameFront(x.children, y.children) <==> forall v :: !Clash(x, y, [v])
  {
    var xs, ys := x.children, y.children;
    if SameFront(xs, ys) {
      forall v
        ensures !Clash(x, y, [v])
      {
        LookupOne(x, v);
        LookupOne(y, v);
        SameKidIndex(xs, ys, v);
      }
    }
    if forall v :: !Clash(x, y, [v]) {
      forall v
        ensures Kid(xs, v).Some? <==> Kid(ys, v).Some?
      {
        LookupOne(x, v);
        LookupOne(y, v);
        assert !Clash(x, y, [v]);
      }
      KidsAlign(xs, ys);
      forall i | 0 <= i < |xs|
        ensures xs[i].hash == ys[i].hash
      {
        KidAt(xs, i);
        KidAt(ys, i);
        LookupOne(x, xs[i].value);
        LookupOne(y, xs[i].value);
        assert !Clash(x, y, [xs[i].value]);
      }
    }
  }

  // ----- what the extracts report -----

  /** e answers every path within reach as t does, and no other. */
  ghost predicate Reaches(t: Tree, e: Tree, prefix: Path, maxLen: nat) {
    forall q :: q != [] ==> ReachesAt(t, e, prefix, maxLen, q)
  }

  predicate ReachesAt(t: Tree, e: Tree, prefix: Path, maxLen: nat, q: Path) {
    HashAt(e, q) == if InReach(prefix, maxLen, q) then HashAt(t, q) else None
  }

  /** Two tries and their extracts around a prefix. */
  ghost predicate Cuts(a: Tree, b: Tree, e: Tree, f: Tree, prefix: Path, maxLen: nat) {
    && Sorted(a) && Sorted(b) && Sorted(e) && Sorted(f) && maxLen > 0
    && Reaches(a, e, prefix, maxLen) && Reaches(b, f, prefix, maxLen)
  }

  lemma DifferCut(a: Tree, b: Tree, e: Tree, f: Tree, prefix: Path, maxLen: nat, q: Path)
    requires Cuts(a, b, e, f, prefix, maxLen) && q != []
    ensures Differ(e, f, q) <==> Differ(a, b, q) && InReach(prefix, maxLen, q)
    ensures Clash(e, f, q) <==> Clash(a, b, q) && InReach(prefix, maxLen, q)
    ensures Has(e, q) <==> Has(a, q) && InReach(prefix, maxLen, q)
    ensures Has(f, q) <==> Has(b, q) && InReach(prefix, maxLen, q)
  {
    assert ReachesAt(a, e, prefix, maxLen, q) && ReachesAt(b, f, prefix, maxLen, q);
  }

  lemma OpenCut(a: Tree, b: Tree, e: Tree, f: Tree, prefix: Path, maxLen: nat, p: Path)
    requires Cuts(a, b, e, f, prefix, maxLen)
    ensures Open(e, f, p) <==> Open(a, b, p) && (p == [] || InReach(prefix, maxLen, p))
  {
    forall k | 1 <= k <= |p|
      ensures Differ(e, f, p[..k]) <==> Differ(a, b, p[..k]) && InReach(prefix, maxLen, p[..k])
      ensures InReach(prefix, maxLen, p) ==> InReach(prefix, maxLen, p[..k])
    {
      DifferCut(a, b, e, f, prefix, maxLen, p[..k]);
      if InReach(prefix, maxLen, p) { ReachClosed(prefix, maxLen, p, k); }
    }
    assert p[..|p|] == p;
  }

  /** The extracts report a missing path exactly if the sources do and it is within reach. */
  lemma MissingCut(a: Tree, b: Tree, e: Tree, f: Tree, prefix: Path, maxLen: nat, r: Diff)
    requires Cuts(a, b, e, f, prefix, maxLen) && !r.HashMismatch? && r.path != []
    ensures Specified(e, f, r) <==> Specified(a, b, r) && InReach(prefix, maxLen, r.path)
  {
    var p, parent := r.path, r.path[..|r.path| - 1];
    DifferCut(a, b, e, f, prefix, maxLen, p);
    OpenCut(a, b, e, f, prefix, maxLen, parent);
    if parent != [] {
      DifferCut(a, b, e, f, prefix, maxLen, parent);
      if InReach(prefix, maxLen, p) { ReachClosed(prefix, maxLen, p, |parent|); }
    }
  }

  /** The path is open within reach, and within reach nothing clashes just below it. */
  ghost predicate LastInReach(a: Tree, b: Tree, prefix: Path, maxLen: nat, p: Path) {
    && p != [] && InReach(prefix, maxLen, p) && Open(a, b, p)
    && forall v :: Quiet(a, b, prefix, maxLen, p, v)
  }

  predicate Quiet(a: Tree, b: Tree, prefix: Path, maxLen: nat, p: Path, v: Bytes) {
    InReach(prefix, maxLen, p + [v]) ==> !Clash(a, b, p + [v])
  }

  lemma MismatchCut(a: Tree, b: Tree, e: Tree, f: Tree, prefix: Path, maxLen: nat, p: Path)
    requires Cuts(a, b, e, f, prefix, maxLen)
    ensures Specified(e, f, HashMismatch(p)) <==> LastInReach(a, b, prefix, maxLen, p)
  {
    if p != [] {
      OpenCut(a, b, e, f, prefix, maxLen, p);
      if Open(e, f, p) {
        assert p[..|p|] == p && Differ(e, f, p[..|p|]);
        var x, y := Lookup(e, p).value, Lookup(f, p).value;
        SortedBelow(e, p);
        SortedBelow(f, p);
        FrontIff(x, y);
        forall v
          ensures Clash(x, y, [v]) <==> !Quiet(a, b, prefix, maxLen, p, v)
        {
          LookupJoin(e, p, [v]);
          LookupJoin(f, p, [v]);
          DifferCut(a, b, e, f, prefix, maxLen, p + [v]);
        }
      }
    }
  }

  // ----- the coarsened report -----

  /** A report beyond reach becomes a hash mismatch where it leaves it. */
  function ClipDiff(prefix: Path, maxLen: nat, r: Diff): Diff {
    if InReach(prefix, maxLen, r.path) then r else HashMismatch(Clip(prefix, maxLen, r.path))
  }

  /** Some report of the diff still leads below p when clipped. */
  ghost predicate GoesOn(a: Tree, b: Tree, prefix: Path, maxLen: nat, p: Path) {
    exists r :: r in DiffTrees(a, b) && LeadsBelow(prefix, maxLen, r, p)
  }

  predicate LeadsBelow(prefix: Path, maxLen: nat, r: Diff, p: Path) {
    var c := Clip(prefix, maxLen, r.path); p <= c && |p| < |c|
  }

  /** The diff's reports clipped to the reach, without those that others lead beyond. */
  ghost predicate Clipped(a: Tree, b: Tree, prefix: Path, maxLen: nat, d: Diff) {
    && (exists r :: r in DiffTrees(a, b) && ClipDiff(prefix, maxLen, r) == d)
    && !GoesOn(a, b, prefix, maxLen, d.path)
  }

  /** A report that leads below p passes a clash just below it, within reach. */
  lemma LeadsToClash(a: Tree, b: Tree, prefix: Path, maxLen: nat, r: Diff, p: Path) returns (v: Bytes)
    requires Sorted(a) && Sorted(b) && r in DiffTrees(a, b) && LeadsBelow(prefix, maxLen, r, p)
    ensures !Quiet(a, b, prefix, maxLen, p, v)
    ensures p != [] ==> Open(a, b, p) && Differ(a, b, p)
  {
    var c := Clip(prefix, maxLen, r.path);
    DiffMeetsSpecification(a, b, r);
    ClipIs(prefix, maxLen, r.path);
    v := c[|p|];
    ReachClosed(prefix, maxLen, c, |p| + 1);
    assert c[..|p| + 1] == p + [v] == r.path[..|p| + 1];
    ReportPasses(a, b, r, |p| + 1);
    if p != [] {
      assert r.path[..|p|] == p;
      ReportPasses(a, b, r, |p|);
    }
  }

  lemma ClippedMissing(a: Tree, b: Tree, prefix: Path, maxLen: nat, d: Diff)
    requires Sorted(a) && Sorted(b) && !d.HashMismatch?
    ensures Clipped(a, b, prefix, maxLen, d) <==> Specified(a, b, d) && InReach(prefix, maxLen, d.path)
  {
    DiffMeetsSpecification(a, b, d);
    if Specified(a, b, d) && InReach(prefix, maxLen, d.path) {
      assert ClipDiff(prefix, maxLen, d) == d;
      if r :| r in DiffTrees(a, b) && LeadsBelow(prefix, maxLen, r, d.path) {
        var v := LeadsToClash(a, b, prefix, maxLen, r, d.path);
      }
    }
  }

  /** The mismatch a report leaves where it leaves the reach, or as it is. */
  lemma ClippedIsOpen(a: Tree, b: Tree, prefix: Path, maxLen: nat, r: Diff, p: Path)
    requires Sorted(a) && Sorted(b) && maxLen > 0 && r in DiffTrees(a, b)
    requires ClipDiff(prefix, maxLen, r) == HashMismatch(p)
    ensures p != [] && InReach(prefix, maxLen, p) && Open(a, b, p) && Differ(a, b, p)
  {
    DiffMeetsSpecification(a, b, r);
    if InReach(prefix, maxLen, r.path) {
      assert r.path[..|p|] == p;
      ReportPasses(a, b, r, |p|);
    } else {
      ClipIs(prefix, maxLen, r.path);
      ClipKeeps(prefix, maxLen, r.path, r.path[..1]);
      assert r.path[..|p|] == p;
      ReportPasses(a, b, r, |p|);
    }
  }

  /** The last open path within reach is where its reports are clipped to, and nothing goes on. */
  lemma LastIsClipped(a: Tree, b: Tree, prefix: Path, maxLen: nat, p: Path)
    requires Sorted(a) && Sorted(b) && LastInReach(a, b, prefix, maxLen, p)
    ensures Clipped(a, b, prefix, maxLen, HashMismatch(p))
  {
    var r := OpenReports(a, b, p);
    DiffMeetsSpecification(a, b, r);
    assert p[..|p|] == p && Differ(a, b, p[..|p|]);
    if |r.path| == |p| {
      assert r.path == p && r == HashMismatch(p);
    } else {
      var v := r.path[|p|];
      assert r.path[..|p| + 1] == p + [v];
      ReportPasses(a, b, r, |p| + 1);
      assert Quiet(a, b, prefix, maxLen, p, v);
      ClipAt(prefix, maxLen, r.path, p);
    }
    assert ClipDiff(prefix, maxLen, r) == HashMismatch(p);
    if o :| o in DiffTrees(a, b) && LeadsBelow(prefix, maxLen, o, p) {
      var v := LeadsToClash(a, b, prefix, maxLen, o, p);
    }
  }

  lemma ClippedMismatch(a: Tree, b: Tree, prefix: Path, maxLen: nat, p: Path)
    requires Sorted(a) && Sorted(b) && maxLen > 0
    ensures Clipped(a, b, prefix, maxLen, HashMismatch(p)) <==> LastInReach(a, b, prefix, maxLen, p)
  {
    if LastInReach(a, b, prefix, maxLen, p) {
      LastIsClipped(a, b, prefix, maxLen, p);
    }
    if Clipped(a, b, prefix, maxLen, HashMismatch(p)) {
      var r :| r in DiffTrees(a, b) && ClipDiff(prefix, maxLen, r) == HashMismatch(p);
      ClippedIsOpen(a, b, prefix, maxLen, r, p);
      forall v
        ensures Quiet(a, b, prefix, maxLen, p, v)
      {
        if InReach(prefix, maxLen, p + [v]) && Clash(a, b, p + [v]) {
          var o := ClashReports(a, b, p, v);
          DiffMeetsSpecification(a, b, o);
          ClipKeeps(prefix, maxLen, o.path, p + [v]);
          assert LeadsBelow(prefix, maxLen, o, p);
        }
      }
    }
  }

  /** The extracts report exactly the clipped reports of the sources. */
  lemma CutReports(a: Tree, b: Tree, e: Tree, f: Tree, prefix: Path, maxLen: nat, d: Diff)
    requires Cuts(a, b, e, f, prefix, maxLen)
    ensures d in DiffTrees(e, f) <==> Clipped(a, b, prefix, maxLen, d)
  {
    DiffMeetsSpecification(e, f, d);
    if d.HashMismatch? {
      MismatchCut(a, b, e, f, prefix, maxLen, d.path);
      ClippedMismatch(a, b, prefix, maxLen, d.path);
    } else {
      ClippedMissing(a, b, prefix, maxLen, d);
      if d.path != [] { MissingCut(a, b, e, f, prefix, maxLen, d); }
    }
  }

  lemma ExtractReaches(h: Digest, t: Tree, prefix: Path, d: nat)
    requires Sorted(t)
    ensures Reaches(t, Extract(h, t, prefix, d), prefix, |prefix| + d)
  {
    var e, maxLen := Extract(h, t, prefix, d), |prefix| + d;
    forall q | q != []
      ensures ReachesAt(t, e, prefix, maxLen, q)
    {
      ExtractExact(h, t, prefix, d, q);
    }
  }

  lemma ExtractsCut(h: Digest, a: Tree, b: Tree, prefix: Path, d: nat)
    requires Sorted(a) && Sorted(b) && |prefix| + d > 0
    ensures Cuts(a, b, Extract(h, a, prefix, d), Extract(h, b, prefix, d), prefix, |prefix| + d)
  {
    ExtractReaches(h, a, prefix, d);
    ExtractReaches(h, b, prefix, d);
    ExtractSorted(h, a, prefix, d);
    ExtractSorted(h, b, prefix, d);
  }

  /**
   * The cut around any prefix, to any depth: the diff of two extracts is the ascending list of the sources' reports,
   * each clipped to its longest beginning within reach, except those that another clipped report leads beyond.
   * Nothing is assumed of the hashes.
   */
  lemma ExtractCoarsensDiff(h: Digest, a: Tree, b: Tree, prefix: Path, d: nat, ds: seq<Diff>)
    requires Sorted(a) && Sorted(b) && |prefix| + d > 0
    ensures ds == DiffTrees(Extract(h, a, prefix, d), Extract(h, b, prefix, d)) <==>
      Ascending(ds) && forall r :: r in ds <==> Clipped(a, b, prefix, |prefix| + d, r)
  {
    var e, f, maxLen := Extract(h, a, prefix, d), Extract(h, b, prefix, d), |prefix| + d;
    ExtractsCut(h, a, b, prefix, d);
    forall r
      ensures Specified(e, f, r) <==> Clipped(a, b, prefix, maxLen, r)
    {
      CutReports(a, b, e, f, prefix, maxLen, r);
      DiffMeetsSpecification(e, f, r);
    }
    DiffIsTheSpecifiedList(e, f, ds);
  }

  /** A mismatch where one report leaves the reach gives way to any report that leads beyond it within reach. */
  lemma MismatchGivesWay(h: Digest, a: Tree, b: Tree, prefix: Path, d: nat, r: Diff, o: Diff)
    requires Sorted(a) && Sorted(b) && |prefix| + d > 0 && r in DiffTrees(a, b) && o in DiffTrees(a, b)
    requires LeadsBelow(prefix, |prefix| + d, o, Clip(prefix, |prefix| + d, r.path))
    ensures ClipDiff(prefix, |prefix| + d, r) !in DiffTrees(Extract(h, a, prefix, d), Extract(h, b, prefix, d))
  {
    var e, f, maxLen := Extract(h, a, prefix, d), Extract(h, b, prefix, d), |prefix| + d;
    ExtractsCut(h, a, b, prefix, d);
    CutReports(a, b, e, f, prefix, maxLen, ClipDiff(prefix, maxLen, r));
    assert ClipDiff(prefix, maxLen, r).path == Clip(prefix, maxLen, r.path);
  }
}
