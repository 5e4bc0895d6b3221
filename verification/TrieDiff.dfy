/** What a diff reports: a specification on paths, the order of the report, duality and emptiness. */
module TrieDiff {
  import opened Wrappers
  import opened ByteStrings
  import opened Trie
  import opened TrieLookup

  /** The two child lists agree on names and stored hashes. */
  predicate SameFront(xs: seq<Tree>, ys: seq<Tree>) {
    |xs| == |ys| && forall i :: 0 <= i < |xs| ==> xs[i].value == ys[i].value && xs[i].hash == ys[i].hash
  }

  /** Both tries have the path, with different stored hashes. */
  predicate Differ(a: Tree, b: Tree, p: Path) {
    Has(a, p) && Has(b, p) && Lookup(a, p).value.hash != Lookup(b, p).value.hash
  }

  /** No node on the way to p, p included, is pruned. */
  ghost predicate Open(a: Tree, b: Tree, p: Path) {
    forall k :: 1 <= k <= |p| ==> Differ(a, b, p[..k])
  }

  /** What the diff of two tries should contain, said on paths only. */
  ghost predicate Specified(a: Tree, b: Tree, d: Diff) {
    d.path != [] &&
    var p, parent := d.path, d.path[..|d.path| - 1];
    match d
    case MissingOther(_) => Has(a, p) && !Has(b, p) && Has(b, parent) && Open(a, b, parent)
    case MissingSelf(_) => Has(b, p) && !Has(a, p) && Has(a, parent) && Open(a, b, parent)
    case HashMismatch(_) =>
      Has(a, p) && Has(b, p) && Open(a, b, p) && SameFront(Lookup(a, p).value.children, Lookup(b, p).value.children)
  }

  // ----- emptiness and duality -----

  /** The diff is empty exactly when the child lists agree on names and hashes. */
  lemma {:induction false} DiffEmptyIff(xs: seq<Tree>, ys: seq<Tree>)
    ensures DiffLists(xs, ys) == [] <==> SameFront(xs, ys)
    decreases |xs| + |ys|
  {
    if xs == [] || ys == [] {
    } else {
      CmpEqual(xs[0].value, ys[0].value);
      DiffEmptyIff(xs[1..], ys[1..]);
      assert |xs| == |ys| ==> forall i :: 0 < i < |xs| ==> xs[i] == xs[1..][i - 1] && ys[i] == ys[1..][i - 1];
      assert |xs| == |ys| ==> forall i :: 0 <= i < |xs[1..]| ==> xs[1..][i] == xs[i + 1] && ys[1..][i] == ys[i + 1];
    }
  }

  function Swap(d: Diff): Diff {
    match d
    case MissingOther(p) => MissingSelf(p)
    case MissingSelf(p) => MissingOther(p)
    case HashMismatch(p) => HashMismatch(p)
  }

  function SwapAll(ds: seq<Diff>): (r: seq<Diff>)
    ensures |r| == |ds|
  {
    seq(|ds|, i requires 0 <= i < |ds| => Swap(ds[i]))
  }

  lemma SwapAppend(a: seq<Diff>, b: seq<Diff>)
    ensures SwapAll(a + b) == SwapAll(a) + SwapAll(b)
    ensures |a| == 1 ==> SwapAll(a) == [Swap(a[0])]
  {
  }

  /** Diffing the other way round reports the same paths in the same order with the sides exchanged. */
  lemma {:induction false} DiffDual(xs: seq<Tree>, ys: seq<Tree>)
    ensures DiffLists(ys, xs) == SwapAll(DiffLists(xs, ys))
    decreases xs, ys
  {
    if xs == [] && ys == [] {
    } else if ys == [] {
      DiffDual(xs[1..], ys);
      SwapAppend([MissingOther([xs[0].value])], DiffLists(xs[1..], ys));
    } else if xs == [] {
      DiffDual(xs, ys[1..]);
      SwapAppend([MissingSelf([ys[0].value])], DiffLists(xs, ys[1..]));
    } else {
      CmpOrder(xs[0].value, ys[0].value, []);
      match Cmp(xs[0].value, ys[0].value)
      case Equal =>
        DiffDual(xs[0].children, ys[0].children);
        DiffDual(xs[1..], ys[1..]);
        NodesDual(xs[0], ys[0]);
        SwapAppend(DiffNodes(xs[0], ys[0]), DiffLists(xs[1..], ys[1..]));
      case Less =>
        DiffDual(xs[1..], ys);
        SwapAppend([MissingOther([xs[0].value])], DiffLists(xs[1..], ys));
      case Greater =>
        DiffDual(xs, ys[1..]);
        SwapAppend([MissingSelf([ys[0].value])], DiffLists(xs, ys[1..]));
    }
  }

  lemma NodesDual(x: Tree, y: Tree)
    requires x.value == y.value && DiffLists(y.children, x.children) == SwapAll(DiffLists(x.children, y.children))
    ensures DiffNodes(y, x) == SwapAll(DiffNodes(x, y))
  {
  }

  // ----- membership -----

  /** What the merge reports, following the path one name at a time. */
  predicate Reported(xs: seq<Tree>, ys: seq<Tree>, d: Diff)
    decreases |d.path|, 1
  {
    d.path != [] &&
    match (Kid(xs, d.path[0]), Kid(ys, d.path[0]))
    case (None, None) => false
    case (Some(_), None) => d == MissingOther([d.path[0]])
    case (None, Some(_)) => d == MissingSelf([d.path[0]])
    case (Some(x), Some(y)) => ReportedBelow(x, y, d)
  }

  predicate ReportedBelow(x: Tree, y: Tree, d: Diff)
    requires d.path != []
    decreases |d.path|, 0
  {
    x.hash != y.hash &&
    if |d.path| == 1 then d.HashMismatch? && SameFront(x.children, y.children)
    else Reported(x.children, y.children, d.(path := d.path[1..]))
  }

  lemma InPrefixed(v: Bytes, ds: seq<Diff>, d: Diff)
    ensures d in Prefixed([v], ds) <==> d.path != [] && d.path[0] == v && d.(path := d.path[1..]) in ds
  {
    if d in Prefixed([v], ds) {
      var i :| 0 <= i < |ds| && Prefixed([v], ds)[i] == d;
      assert d == ds[i].(path := [v] + ds[i].path);
      assert d.(path := d.path[1..]) == ds[i];
    }
    if d.path != [] && d.path[0] == v && d.(path := d.path[1..]) in ds {
      var i :| 0 <= i < |ds| && ds[i] == d.(path := d.path[1..]);
      assert [v] + d.path[1..] == d.path;
      assert Prefixed([v], ds)[i] == d;
    }
  }

  lemma {:induction false} PathsNonEmpty(xs: seq<Tree>, ys: seq<Tree>)
    ensures forall d :: d in DiffLists(xs, ys) ==> d.path != []
    decreases xs, ys
  {
    if xs != [] && ys != [] {
      match Cmp(xs[0].value, ys[0].value)
      case Equal => PathsNonEmpty(xs[1..], ys[1..]);
      case Less => PathsNonEmpty(xs[1..], ys);
      case Greater => PathsNonEmpty(xs, ys[1..]);
    } else if xs != [] {
      PathsNonEmpty(xs[1..], ys);
    } else if ys != [] {
      PathsNonEmpty(xs, ys[1..]);
    }
  }

  lemma NodesReport(x: Tree, y: Tree, d: Diff)
    requires x.value == y.value
    requires forall e :: e in DiffLists(x.children, y.children) <==> Reported(x.children, y.children, e)
    ensures d in DiffNodes(x, y) <==> d.path != [] && d.path[0] == x.value && ReportedBelow(x, y, d)
  {
    var below := DiffLists(x.children, y.children);
    DiffEmptyIff(x.children, y.children);
    PathsNonEmpty(x.children, y.children);
    InPrefixed(x.value, below, d);
    if |d.path| == 1 {
      assert d.path == [d.path[0]];
    }
  }

  lemma KidBelowHead(ys: seq<Tree>, v: Bytes)
    requires SortedValues(ys) && (ys != [] ==> Cmp(v, ys[0].value) == Less)
    ensures Kid(ys, v) == None
  {
    if ys == [] {
    } else {
      HeadIsLeast(ys, v);
      CmpOrder(v, ys[0].value, v);
      CmpOrder(v, v, v);
    }
  }

  lemma TailSorted(xs: seq<Tree>)
    requires SortedList(xs) && xs != []
    ensures SortedList(xs[1..]) && SortedList(xs[0].children) && Kid(xs[1..], xs[0].value) == None
  {
    assert xs[0] in xs;
    HeadIsLeast(xs, xs[0].value);
  }

  ghost predicate ReportsExactly(xs: seq<Tree>, ys: seq<Tree>) {
    forall d :: d in DiffLists(xs, ys) <==> Reported(xs, ys, d)
  }

  /** The merge reports exactly what the names and hashes along each path say. */
  lemma {:induction false} DiffReports(xs: seq<Tree>, ys: seq<Tree>)
    requires SortedList(xs) && SortedList(ys)
    ensures ReportsExactly(xs, ys)
    decreases xs, ys
  {
    if xs != [] { TailSorted(xs); }
    if ys != [] { TailSorted(ys); }
    if xs == [] && ys == [] {
    } else if ys == [] {
      DiffReports(xs[1..], ys);
      StepLeft(xs, ys);
    } else if xs == [] {
      DiffReports(xs, ys[1..]);
      StepRight(xs, ys);
    } else {
      CmpOrder(xs[0].value, ys[0].value, []);
      match Cmp(xs[0].value, ys[0].value)
      case Equal =>
        DiffReports(xs[0].children, ys[0].children);
        DiffReports(xs[1..], ys[1..]);
        StepBoth(xs, ys);
      case Less =>
        DiffReports(xs[1..], ys);
        StepLeft(xs, ys);
      case Greater =>
        DiffReports(xs, ys[1..]);
        StepRight(xs, ys);
    }
  }

  lemma StepLeft(xs: seq<Tree>, ys: seq<Tree>)
    requires SortedList(xs) && SortedList(ys) && xs != [] && (ys != [] ==> Cmp(xs[0].value, ys[0].value) == Less)
    requires ReportsExactly(xs[1..], ys)
    ensures ReportsExactly(xs, ys)
  {
    TailSorted(xs);
    KidBelowHead(ys, xs[0].value);
    forall d
      ensures d in DiffLists(xs, ys) <==> Reported(xs, ys, d)
    {
      assert d in DiffLists(xs, ys) <==> d == MissingOther([xs[0].value]) || d in DiffLists(xs[1..], ys);
    }
  }

  lemma StepRight(xs: seq<Tree>, ys: seq<Tree>)
    requires SortedList(xs) && SortedList(ys) && ys != [] && (xs != [] ==> Cmp(xs[0].value, ys[0].value) == Greater)
    requires ReportsExactly(xs, ys[1..])
    ensures ReportsExactly(xs, ys)
  {
    TailSorted(ys);
    if xs != [] { CmpOrder(xs[0].value, ys[0].value, []); }
    KidBelowHead(xs, ys[0].value);
    forall d
      ensures d in DiffLists(xs, ys) <==> Reported(xs, ys, d)
    {
      assert d in DiffLists(xs, ys) <==> d == MissingSelf([ys[0].value]) || d in DiffLists(xs, ys[1..]);
    }
  }

  lemma StepBoth(xs: seq<Tree>, ys: seq<Tree>)
    requires SortedList(xs) && SortedList(ys) && xs != [] && ys != [] && Cmp(xs[0].value, ys[0].value) == Equal
    requires ReportsExactly(xs[0].children, ys[0].children) && ReportsExactly(xs[1..], ys[1..])
    ensures ReportsExactly(xs, ys)
  {
    TailSorted(xs);
    TailSorted(ys);
    CmpEqual(xs[0].value, ys[0].value);
    forall d
      ensures d in DiffLists(xs, ys) <==> Reported(xs, ys, d)
    {
      NodesReport(xs[0], ys[0], d);
      assert d in DiffLists(xs, ys) <==> d in DiffNodes(xs[0], ys[0]) || d in DiffLists(xs[1..], ys[1..]);
    }
  }

  // ----- the same said on whole paths -----

  lemma OpenStep(a: Tree, b: Tree, x: Tree, y: Tree, p: Path)
    requires p != [] && Kid(a.children, p[0]) == Some(x) && Kid(b.children, p[0]) == Some(y)
    ensures Open(a, b, p) <==> x.hash != y.hash && Open(x, y, p[1..])
  {
    forall k | 1 <= k <= |p|
      ensures Differ(a, b, p[..k]) <==> Differ(x, y, p[1..][..k - 1])
    {
      assert p[..k][1..] == p[1..][..k - 1];
      LookupKid(a, p[..k]);
      LookupKid(b, p[..k]);
    }
    assert Differ(x, y, p[1..][..0]) <==> x.hash != y.hash;
    if Open(a, b, p) {
      assert Differ(a, b, p[..1]);
      forall k | 1 <= k <= |p[1..]|
        ensures Differ(x, y, p[1..][..k])
      {
        assert Differ(a, b, p[..k + 1]);
      }
    }
    if x.hash != y.hash && Open(x, y, p[1..]) {
      forall k | 1 <= k <= |p|
        ensures Differ(a, b, p[..k])
      {
        if k > 1 { assert Differ(x, y, p[1..][..k - 1]); }
      }
    }
  }

  lemma NotOpen(a: Tree, b: Tree, p: Path)
    requires p != [] && !(Kid(a.children, p[0]).Some? && Kid(b.children, p[0]).Some?)
    ensures !Open(a, b, p)
  {
    LookupKid(a, p[..1]);
    LookupKid(b, p[..1]);
    assert !Differ(a, b, p[..1]);
  }

  lemma {:induction false} ReportedIsSpecified(a: Tree, b: Tree, d: Diff)
    ensures Reported(a.children, b.children, d) <==> Specified(a, b, d)
    decreases |d.path|
  {
    var p := d.path;
    if p != [] {
      var parent := p[..|p| - 1];
      LookupKid(a, p);
      LookupKid(b, p);
      match (Kid(a.children, p[0]), Kid(b.children, p[0]))
      case (Some(x), Some(y)) =>
        var e := d.(path := p[1..]);
        OpenStep(a, b, x, y, p);
        assert Open(a, b, p) ==> Differ(a, b, p[..|p|]) && p[..|p|] == p;
        if |p| > 1 {
          assert parent[0] == p[0] && parent[1..] == p[1..][..|p[1..]| - 1];
          OpenStep(a, b, x, y, parent);
          LookupKid(a, parent);
          LookupKid(b, parent);
          ReportedIsSpecified(x, y, e);
        } else {
          assert p[1..] == [];
        }
      case _ =>
        NotOpen(a, b, p);
        if |p| > 1 {
          NotOpen(a, b, parent);
          LookupKid(a, parent);
          LookupKid(b, parent);
        } else {
          assert p == [p[0]] && parent == [] && p[1..] == [];
        }
    }
  }

  /**
   * The diff of two sorted tries, whatever their hashes: a path is reported missing exactly when one side has it, the
   * other has only its parent and nothing on the way is pruned; a hash mismatch exactly when nothing on the way, the
   * path included, is pruned and the children agree on names and hashes.
   */
  lemma DiffMeetsSpecification(a: Tree, b: Tree, d: Diff)
    requires Sorted(a) && Sorted(b)
    ensures d in DiffTrees(a, b) <==> Specified(a, b, d)
  {
    DiffReports(a.children, b.children);
    ReportedIsSpecified(a, b, d);
  }

  // ----- order -----

  /** Each path before all later ones, and none a prefix of another. */
  ghost predicate Ascending(ds: seq<Diff>) {
    forall i, j :: 0 <= i < j < |ds| ==> Before(ds[i].path, ds[j].path)
  }

  ghost predicate HeadsAbove(ds: seq<Diff>, v: Bytes) {
    forall d :: d in ds ==> d.path != [] && Cmp(v, d.path[0]) == Less
  }

  ghost predicate ValuesAbove(xs: seq<Tree>, v: Bytes) {
    forall x :: x in xs ==> Cmp(v, x.value) == Less
  }

  lemma {:induction false} DiffHeadsAbove(xs: seq<Tree>, ys: seq<Tree>, v: Bytes)
    requires ValuesAbove(xs, v) && ValuesAbove(ys, v)
    ensures HeadsAbove(DiffLists(xs, ys), v)
    decreases |xs| + |ys|
  {
    if xs != [] && ys != [] {
      match Cmp(xs[0].value, ys[0].value)
      case Equal =>
        DiffHeadsAbove(xs[1..], ys[1..], v);
        NodesHead(xs[0], ys[0]);
      case Less => DiffHeadsAbove(xs[1..], ys, v);
      case Greater => DiffHeadsAbove(xs, ys[1..], v);
    } else if xs != [] {
      DiffHeadsAbove(xs[1..], ys, v);
    } else if ys != [] {
      DiffHeadsAbove(xs, ys[1..], v);
    }
  }

  lemma NodesHead(x: Tree, y: Tree)
    ensures forall d :: d in DiffNodes(x, y) ==> d.path != [] && d.path[0] == x.value
  {
  }

  lemma TailAbove(xs: seq<Tree>, v: Bytes)
    requires SortedList(xs) && xs != [] && (v == xs[0].value || Cmp(v, xs[0].value) == Less)
    ensures ValuesAbove(xs[1..], v)
    ensures Cmp(v, xs[0].value) == Less ==> ValuesAbove(xs, v)
  {
    forall x | x in xs[1..]
      ensures Cmp(v, x.value) == Less
    {
      var i :| 1 <= i < |xs| && xs[i] == x;
      CmpOrder(v, xs[0].value, x.value);
    }
    assert xs == [xs[0]] + xs[1..];
  }

  /** A group of reports under one name, then reports under larger names. */
  lemma AscendingAppend(ds: seq<Diff>, es: seq<Diff>, v: Bytes)
    requires Ascending(ds) && Ascending(es) && HeadsAbove(es, v)
    requires forall d :: d in ds ==> d.path != [] && d.path[0] == v
    ensures Ascending(ds + es)
  {
  }

  lemma NodesAscending(x: Tree, y: Tree)
    requires Ascending(DiffLists(x.children, y.children))
    ensures Ascending(DiffNodes(x, y))
  {
  }

  /** Reported paths strictly increase and no reported path is a prefix of another. */
  lemma {:induction false} DiffAscending(xs: seq<Tree>, ys: seq<Tree>)
    requires SortedList(xs) && SortedList(ys)
    ensures Ascending(DiffLists(xs, ys))
    decreases xs, ys
  {
    if xs != [] { TailSorted(xs); }
    if ys != [] { TailSorted(ys); }
    if xs == [] && ys == [] {
    } else if ys == [] || (xs != [] && Cmp(xs[0].value, ys[0].value) == Less) {
      var v := xs[0].value;
      DiffAscending(xs[1..], ys);
      TailAbove(xs, v);
      if ys != [] { TailAbove(ys, v); }
      DiffHeadsAbove(xs[1..], ys, v);
      AscendingAppend([MissingOther([v])], DiffLists(xs[1..], ys), v);
    } else if xs == [] || Cmp(xs[0].value, ys[0].value) == Greater {
      var v := ys[0].value;
      DiffAscending(xs, ys[1..]);
      TailAbove(ys, v);
      if xs != [] { CmpOrder(xs[0].value, v, v); TailAbove(xs, v); }
      DiffHeadsAbove(xs, ys[1..], v);
      AscendingAppend([MissingSelf([v])], DiffLists(xs, ys[1..]), v);
    } else {
      var v := xs[0].value;
      CmpEqual(v, ys[0].value);
      DiffAscending(xs[0].children, ys[0].children);
      NodesAscending(xs[0], ys[0]);
      NodesHead(xs[0], ys[0]);
      DiffAscending(xs[1..], ys[1..]);
      TailAbove(xs, v);
      TailAbove(ys, v);
      DiffHeadsAbove(xs[1..], ys[1..], v);
      AscendingAppend(DiffNodes(xs[0], ys[0]), DiffLists(xs[1..], ys[1..]), v);
    }
  }

  lemma PrefixTail(p: Path, q: Path)
    requires p != [] && q != []
    ensures p <= q ==> p[0] == q[0] && p[1..] <= q[1..]
  {
  }

  lemma {:induction false} BeforeIsStrict(p: Path, q: Path)
    ensures Before(p, q) ==> !Before(q, p) && !(p <= q) && !(q <= p)
  {
    if Before(p, q) {
      CmpOrder(p[0], q[0], p[0]);
      BeforeIsStrict(p[1..], q[1..]);
      PrefixTail(p, q);
      PrefixTail(q, p);
    }
  }

  /** An ascending report is determined by what it contains. */
  lemma {:induction false} AscendingUnique(ds: seq<Diff>, es: seq<Diff>)
    requires Ascending(ds) && Ascending(es) && forall d :: d in ds <==> d in es
    ensures ds == es
  {
    assert es != [] ==> es[0] in es;
    if ds != [] {
      assert ds[0] in ds && ds[0] in es;
      assert es[0] in es && es[0] in ds;
      BeforeIsStrict(ds[0].path, es[0].path);
      assert ds[0] == es[0];
      forall d
        ensures d in ds[1..] <==> d in es[1..]
      {
        BeforeIsStrict(ds[0].path, ds[0].path);
        assert d in ds <==> d == ds[0] || d in ds[1..];
        assert d in es <==> d == es[0] || d in es[1..];
        assert ds[0] !in ds[1..] && es[0] !in es[1..];
      }
      AscendingUnique(ds[1..], es[1..]);
      assert ds == [ds[0]] + ds[1..] && es == [es[0]] + es[1..];
    }
  }

  /** So the diff is the one ascending list holding exactly the specified reports. */
  lemma DiffIsTheSpecifiedList(a: Tree, b: Tree, ds: seq<Diff>)
    requires Sorted(a) && Sorted(b)
    ensures ds == DiffTrees(a, b) <==> Ascending(ds) && forall d :: d in ds <==> Specified(a, b, d)
  {
    DiffAscending(a.children, b.children);
    forall d
      ensures d in DiffTrees(a, b) <==> Specified(a, b, d)
    {
      DiffMeetsSpecification(a, b, d);
    }
    if Ascending(ds) && forall d :: d in ds <==> Specified(a, b, d) {
      AscendingUnique(ds, DiffTrees(a, b));
    }
  }
}
