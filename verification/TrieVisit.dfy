/** Traversals: which nodes a visit reaches, what `Leafs` lists and what `Extract` copies. */
module TrieVisit {
  import opened Wrappers
  import opened ByteStrings
  import opened Trie
  import opened TrieRuns

  /** A node together with the path of its parent. */
  datatype Seen = Seen(path: Path, node: Tree)

  function Full(x: Seen): Path {
    x.path + [x.node.value]
  }

  /** All nodes of the sibling list and below, parents before children, siblings in order. */
  function Preorder(path: Path, ts: seq<Tree>): seq<Seen>
    decreases ts
  {
    if ts == [] then []
    else [Seen(path, ts[0])] + Preorder(path + [ts[0].value], ts[0].children) + Preorder(path, ts[1..])
  }

  function Fold<S>(step: (S, Path, Tree) -> S, s: S, l: seq<Seen>): S {
    if l == [] then s else Fold(step, step(s, l[0].path, l[0].node), l[1..])
  }

  lemma {:induction false} FoldAppend<S>(step: (S, Path, Tree) -> S, s: S, a: seq<Seen>, b: seq<Seen>)
    ensures Fold(step, s, a + b) == Fold(step, Fold(step, s, a), b)
  {
    if a == [] {
      assert a + b == b;
    } else {
      assert (a + b)[1..] == a[1..] + b;
      FoldAppend(step, step(s, a[0].path, a[0].node), a[1..], b);
    }
  }

  // ----- any visitor -----

  /** In a listing, the node at i lies below the one at j when everything from after j up to i is deeper than j. */
  predicate Below(l: seq<Seen>, j: nat, i: nat)
    requires j < i < |l|
  {
    forall m :: j < m <= i ==> |l[m].path| > |l[j].path|
  }

  /** What a visit did at each listed node: its answer, if it was asked, and the states before it and at the end. */
  datatype Account<S> = Account(states: seq<S>, answers: seq<Option<Visit>>)

  /** Nothing earlier answered Stop, and everything above answered Continue. */
  predicate Reached(l: seq<Seen>, answers: seq<Option<Visit>>, i: nat)
    requires i < |l| && |l| == |answers|
  {
    forall j :: 0 <= j < i ==> answers[j] != Some(Stop) && (Below(l, j, i) ==> answers[j] == Some(Continue))
  }

  /** Exactly the reached nodes are asked, in listing order, each with the state the one before it left. */
  ghost predicate Accounts<S>(f: (S, Path, Tree) -> (S, Visit), l: seq<Seen>, s: S, w: Account<S>) {
    && |w.states| == |l| + 1 && |w.answers| == |l| && w.states[0] == s
    && forall i :: 0 <= i < |l| ==> Accounted(f, l, w, i)
  }

  ghost predicate Accounted<S>(f: (S, Path, Tree) -> (S, Visit), l: seq<Seen>, w: Account<S>, i: nat)
    requires i < |l| && |w.states| == |l| + 1 && |w.answers| == |l|
  {
    if Reached(l, w.answers, i) then
      var (s1, r) := f(w.states[i], l[i].path, l[i].node);
      w.states[i + 1] == s1 && w.answers[i] == Some(r)
    else w.states[i + 1] == w.states[i] && w.answers[i] == None
  }

  /** What the nodes listed so far have decided for the next: it is asked, skipped while deeper, or not asked at all. */
  datatype Mode = Asking | Under(depth: nat) | Halted

  predicate Blocks(m: Mode, x: Seen) {
    m.Halted? || (m.Under? && |x.path| > m.depth)
  }

  function ModeAfter(r: Visit, x: Seen): Mode {
    match r case Continue => Asking case Skip => Under(|x.path|) case Stop => Halted
  }

  function Next<S>(f: (S, Path, Tree) -> (S, Visit), s: S, m: Mode, x: Seen): (S, Mode) {
    if Blocks(m, x) then (s, m)
    else
      var (s1, r) := f(s, x.path, x.node);
      (s1, ModeAfter(r, x))
  }

  /** The visit as one pass over the listing. */
  function Walk<S>(f: (S, Path, Tree) -> (S, Visit), s: S, m: Mode, l: seq<Seen>): (S, Mode)
    decreases |l|
  {
    if l == [] then (s, m)
    else
      var (s1, m1) := Next(f, s, m, l[0]);
      Walk(f, s1, m1, l[1..])
  }

  lemma {:induction false} WalkAppend<S>(f: (S, Path, Tree) -> (S, Visit), s: S, m: Mode, a: seq<Seen>, b: seq<Seen>)
    ensures var (s1, m1) := Walk(f, s, m, a); Walk(f, s, m, a + b) == Walk(f, s1, m1, b)
    decreases |a|
  {
    if a == [] {
      assert a + b == b;
    } else {
      assert (a + b)[1..] == a[1..] + b;
      var (s1, m1) := Next(f, s, m, a[0]);
      WalkAppend(f, s1, m1, a[1..], b);
    }
  }

  lemma {:induction false} WalkBlocked<S>(f: (S, Path, Tree) -> (S, Visit), s: S, m: Mode, l: seq<Seen>)
    requires forall x :: x in l ==> Blocks(m, x)
    ensures Walk(f, s, m, l) == (s, m)
    decreases |l|
  {
    if l == [] {
    } else {
      assert l[0] in l;
      WalkBlocked(f, s, m, l[1..]);
    }
  }

  lemma {:induction false} PreorderBelow(path: Path, ts: seq<Tree>)
    ensures forall x :: x in Preorder(path, ts) ==> |x.path| >= |path| && x.path[..|path|] == path
    decreases ts
  {
    if ts == [] {
    } else {
      PreorderBelow(path + [ts[0].value], ts[0].children);
      PreorderBelow(path, ts[1..]);
      forall x | x in Preorder(path, ts)
        ensures |x.path| >= |path| && x.path[..|path|] == path
      {
        assert path <= path + [ts[0].value];
        if x in Preorder(path + [ts[0].value], ts[0].children) {
          assert x.path[..|path|] == x.path[..|path| + 1][..|path|];
        }
      }
    }
  }

  /** A mode in which a node under `path` is asked. */
  predicate Admits(m: Mode, path: Path) {
    m.Asking? || (m.Under? && |path| <= m.depth)
  }

  /** The recursive visit of a sibling list is the pass over its listing. */
  lemma {:induction false} VisitWalks<S>(f: (S, Path, Tree) -> (S, Visit), path: Path, ts: seq<Tree>, s: S, m: Mode)
    requires Admits(m, path)
    ensures var (s1, r) := VisitChildren(f, path, ts, s);
      var (s2, m2) := Walk(f, s, m, Preorder(path, ts));
      s1 == s2 && if m2.Halted? then r == Stop else r == Continue && Admits(m2, path)
    decreases ts
  {
    if ts == [] {
    } else {
      var t := ts[0];
      var x, below, rest := Seen(path, t), Preorder(path + [t.value], t.children), Preorder(path, ts[1..]);
      var (s0, r0) := f(s, path, t);
      var m0 := ModeAfter(r0, x);
      var (s1, m1) := Walk(f, s0, m0, below);
      assert Walk(f, s, m, [x]) == (s0, m0);
      WalkAppend(f, s, m, [x], below);
      WalkAppend(f, s, m, [x] + below, rest);
      PreorderBelow(path + [t.value], t.children);
      match r0
      case Continue =>
        VisitWalks(f, path + [t.value], t.children, s0, m0);
        if m1.Halted? { WalkBlocked(f, s1, m1, rest); } else { VisitWalks(f, path, ts[1..], s1, m1); }
      case Skip =>
        WalkBlocked(f, s0, m0, below);
        VisitWalks(f, path, ts[1..], s0, m0);
      case Stop =>
        WalkBlocked(f, s0, m0, below);
        WalkBlocked(f, s0, m0, rest);
    }
  }

  /** Nothing after j is as shallow as j: the next node may lie below it. */
  predicate Dangling(l: seq<Seen>, j: nat)
    requires j < |l|
  {
    forall m :: j < m < |l| ==> |l[m].path| > |l[j].path|
  }

  /** The mode sums up the answers given so far. */
  ghost predicate Fits(l: seq<Seen>, answers: seq<Option<Visit>>, m: Mode)
    requires |l| == |answers|
  {
    match m
    case Halted => Some(Stop) in answers
    case Asking =>
      && Some(Stop) !in answers
      && forall j :: 0 <= j < |l| && Dangling(l, j) ==> answers[j] == Some(Continue)
    case Under(d) =>
      && Some(Stop) !in answers
      && (exists j :: 0 <= j < |l| && Dangling(l, j) && |l[j].path| == d && answers[j] == Some(Skip))
      && forall j :: 0 <= j < |l| && Dangling(l, j) && |l[j].path| < d ==> answers[j] == Some(Continue)
  }

  lemma DanglingSnoc(l: seq<Seen>, x: Seen)
    ensures Dangling(l + [x], |l|)
    ensures forall j :: 0 <= j < |l| ==> (Below(l + [x], j, |l|) <==> Dangling(l, j) && |x.path| > |l[j].path|)
    ensures forall j :: 0 <= j < |l| ==> (Dangling(l + [x], j) <==> Dangling(l, j) && |x.path| > |l[j].path|)
  {
    var l' := l + [x];
    forall j | 0 <= j < |l|
      ensures Below(l', j, |l|) <==> Dangling(l, j) && |x.path| > |l[j].path|
      ensures Dangling(l', j) <==> Dangling(l, j) && |x.path| > |l[j].path|
    {
      assert l'[|l|] == x && forall m :: 0 <= m < |l| ==> l'[m] == l[m];
    }
  }

  /** The next node is reached exactly when the mode does not block it. */
  lemma ReachedIff(l: seq<Seen>, answers: seq<Option<Visit>>, m: Mode, x: Seen, a: Option<Visit>)
    requires |l| == |answers| && Fits(l, answers, m)
    ensures Reached(l + [x], answers + [a], |l|) <==> !Blocks(m, x)
  {
    DanglingSnoc(l, x);
    var answers' := answers + [a];
    assert forall j :: 0 <= j < |l| ==> answers'[j] == answers[j];
    if Blocks(m, x) {
      if m.Halted? {
        var j :| 0 <= j < |answers| && answers[j] == Some(Stop);
        assert answers'[j] == Some(Stop);
      } else {
        var j :| 0 <= j < |l| && Dangling(l, j) && |l[j].path| == m.depth && answers[j] == Some(Skip);
        assert Below(l + [x], j, |l|) && answers'[j] == Some(Skip);
      }
    }
  }

  /** And the mode after it sums up its answer too. */
  lemma FitsSnoc(l: seq<Seen>, answers: seq<Option<Visit>>, m: Mode, x: Seen, r: Visit)
    requires |l| == |answers| && Fits(l, answers, m)
    ensures if Blocks(m, x) then Fits(l + [x], answers + [None], m)
            else Fits(l + [x], answers + [Some(r)], ModeAfter(r, x))
  {
    DanglingSnoc(l, x);
    if Blocks(m, x) && m.Under? {
      var j :| 0 <= j < |l| && Dangling(l, j) && |l[j].path| == m.depth && answers[j] == Some(Skip);
      assert Dangling(l + [x], j) && (answers + [None])[j] == Some(Skip);
    }
    if !Blocks(m, x) {
      var l', answers' := l + [x], answers + [Some(r)];
      assert answers'[|l|] == Some(r);
      forall j | 0 <= j < |l| && Dangling(l', j)
        ensures answers'[j] == Some(Continue)
      {
        assert Dangling(l, j) && |l[j].path| < |x.path|;
      }
    }
  }

  /** What was reached or accounted for stays so when one more node is listed. */
  lemma AccountedSnoc<S>(f: (S, Path, Tree) -> (S, Visit), l: seq<Seen>, w: Account<S>, x: Seen, s: S,
                         a: Option<Visit>, i: nat)
    requires |w.states| == |l| + 1 && |w.answers| == |l| && i < |l|
    ensures Accounted(f, l + [x], Account(w.states + [s], w.answers + [a]), i) <==> Accounted(f, l, w, i)
  {
    var l', answers' := l + [x], w.answers + [a];
    assert forall m :: 0 <= m <= i ==> l'[m] == l[m] && answers'[m] == w.answers[m];
    assert forall j :: 0 <= j < i ==> (Below(l', j, i) <==> Below(l, j, i));
    assert Reached(l', answers', i) <==> Reached(l, w.answers, i);
  }

  /** Every visitor has an account, and it ends where the pass over the listing ends. */
  lemma {:induction false} WalkAccounts<S>(f: (S, Path, Tree) -> (S, Visit), l: seq<Seen>, s: S)
    returns (w: Account<S>, m: Mode)
    ensures Accounts(f, l, s, w) && Fits(l, w.answers, m) && Walk(f, s, Asking, l) == (w.states[|l|], m)
    decreases |l|
  {
    if l == [] {
      w, m := Account([s], []), Asking;
    } else {
      var front, x := l[..|l| - 1], l[|l| - 1];
      assert l == front + [x];
      var w0, m0 := WalkAccounts(f, front, s);
      var s0 := w0.states[|front|];
      WalkAppend(f, s, Asking, front, [x]);
      var (s1, r) := f(s0, x.path, x.node);
      var blocked := Blocks(m0, x);
      var a := if blocked then None else Some(r);
      w := Account(w0.states + [if blocked then s0 else s1], w0.answers + [a]);
      m := if blocked then m0 else ModeAfter(r, x);
      assert Walk(f, s0, m0, [x]) == (w.states[|l|], m);
      ReachedIff(front, w0.answers, m0, x, a);
      FitsSnoc(front, w0.answers, m0, x, r);
      forall i | 0 <= i < |l|
        ensures Accounted(f, l, w, i)
      {
        if i < |front| {
          AccountedSnoc(f, front, w0, x, w.states[|l|], a, i);
        }
      }
    }
  }

  /**
   * For every visitor, whatever its answers depend on: the traversal asks exactly the nodes above which all answered
   * Continue, in pre-order, up to the first that answers Stop, handing the state on from one to the next.
   */
  lemma VisitReaches<S>(f: (S, Path, Tree) -> (S, Visit), path: Path, ts: seq<Tree>, s: S) returns (w: Account<S>)
    ensures var l := Preorder(path, ts);
      Accounts(f, l, s, w) &&
      VisitChildren(f, path, ts, s) == (w.states[|l|], if Some(Stop) in w.answers then Stop else Continue)
  {
    var m;
    w, m := WalkAccounts(f, Preorder(path, ts), s);
    VisitWalks(f, path, ts, s, Asking);
  }

  /** There is only one such account. */
  lemma {:induction false} AccountUnique<S>(f: (S, Path, Tree) -> (S, Visit), l: seq<Seen>, s: S,
                                            v: Account<S>, w: Account<S>, n: nat)
    requires Accounts(f, l, s, v) && Accounts(f, l, s, w) && n <= |l|
    ensures v.states[..n + 1] == w.states[..n + 1] && v.answers[..n] == w.answers[..n]
    decreases n
  {
    if n == 0 {
      assert v.states[..1] == [s] == w.states[..1];
    } else {
      var i := n - 1;
      AccountUnique(f, l, s, v, w, i);
      assert forall j :: 0 <= j < i ==> v.answers[j] == v.answers[..i][j] == w.answers[j];
      assert v.states[i] == v.states[..n][i] == w.states[i];
      assert Accounted(f, l, v, i) && Accounted(f, l, w, i);
      assert Reached(l, v.answers, i) <==> Reached(l, w.answers, i);
      assert v.states[..n + 1] == v.states[..n] + [v.states[n]] && w.states[..n + 1] == w.states[..n] + [w.states[n]];
      assert v.answers[..n] == v.answers[..i] + [v.answers[i]] && w.answers[..n] == w.answers[..i] + [w.answers[i]];
    }
  }

  lemma {:induction false} PreorderHeads(path: Path, ts: seq<Tree>, v: Bytes)
    requires forall t :: t in ts ==> t.value != v
    ensures forall x :: x in Preorder(path, ts) ==> |Full(x)| > |path| && Full(x)[|path|] != v
    decreases ts
  {
    if ts == [] {
    } else {
      var p := path + [ts[0].value];
      assert ts[0] in ts;
      PreorderBelow(p, ts[0].children);
      PreorderHeads(path, ts[1..], v);
      forall x | x in Preorder(p, ts[0].children)
        ensures |Full(x)| > |path| && Full(x)[|path|] != v
      {
        assert Full(x)[|path|] == x.path[..|p|][|path|] == ts[0].value;
      }
    }
  }

  /** Lying below is the same in a listing and in a longer one that contains it. */
  lemma BelowShift(l: seq<Seen>, part: seq<Seen>, d: nat, j: nat, i: nat)
    requires d + |part| <= |l| && part == l[d..d + |part|] && j < i < |part|
    ensures Below(l, j + d, i + d) <==> Below(part, j, i)
  {
    assert forall m :: 0 <= m < |part| ==> part[m] == l[m + d];
    if Below(part, j, i) {
      forall m | j + d < m <= i + d
        ensures |l[m].path| > |l[j + d].path|
      {
        assert l[m] == part[m - d];
      }
    }
  }

  /** One node lies below another exactly when its path passes through it. */
  ghost predicate Nested(l: seq<Seen>) {
    forall j, i :: 0 <= j < i < |l| ==> NestedAt(l, j, i)
  }

  predicate NestedAt(l: seq<Seen>, j: nat, i: nat)
    requires j < i < |l|
  {
    Below(l, j, i) <==> Full(l[j]) <= l[i].path
  }

  /** A node, what is listed below it, and what is listed from its later siblings. */
  ghost predicate Parts(l: seq<Seen>, x: Seen, below: seq<Seen>, rest: seq<Seen>) {
    && |l| == 1 + |below| + |rest| && l[0] == x && l[1..1 + |below|] == below && l[1 + |below|..] == rest
    && (forall y :: y in below ==> |y.path| > |x.path| && y.path[..|x.path| + 1] == Full(x))
    && (forall y :: y in rest ==> |y.path| >= |x.path| && Full(y)[|x.path|] != x.node.value)
    && (rest != [] ==> |rest[0].path| == |x.path|)
  }

  lemma FirstAbove(l: seq<Seen>, x: Seen, below: seq<Seen>, rest: seq<Seen>, i: nat)
    requires Parts(l, x, below, rest) && 0 < i <= |below|
    ensures NestedAt(l, 0, i)
  {
    forall m | 0 < m <= i
      ensures |l[m].path| > |x.path| && l[m].path[..|x.path| + 1] == Full(x)
    {
      assert l[m] == below[m - 1] && below[m - 1] in below;
    }
  }

  /** Nothing of a later sibling lies below the first one or what is below it, by depth or by path. */
  lemma NotAcross(l: seq<Seen>, x: Seen, below: seq<Seen>, rest: seq<Seen>, j: nat, i: nat)
    requires Parts(l, x, below, rest) && j <= |below| < i < |l|
    ensures NestedAt(l, j, i)
  {
    var n, d := 1 + |below|, |x.path|;
    assert l[n] == rest[0] && l[i] == rest[i - n] && l[i] in rest;
    assert |l[j].path| >= d && Full(l[j])[d] == x.node.value by {
      if j > 0 {
        assert l[j] == below[j - 1];
        assert Full(l[j])[d] == l[j].path[..d + 1][d];
      }
    }
    assert !Below(l, j, i);
  }

  lemma NestedShift(l: seq<Seen>, part: seq<Seen>, d: nat, j: nat, i: nat)
    requires d + |part| <= |l| && part == l[d..d + |part|] && j < i < |part| && Nested(part)
    ensures NestedAt(l, j + d, i + d)
  {
    assert NestedAt(part, j, i);
    BelowShift(l, part, d, j, i);
  }

  lemma NestedInRest(l: seq<Seen>, x: Seen, below: seq<Seen>, rest: seq<Seen>, j: nat, i: nat)
    requires Parts(l, x, below, rest) && Nested(rest) && 1 + |below| <= j < i < |l|
    ensures NestedAt(l, j, i)
  {
    var n := 1 + |below|;
    assert l[n..n + |rest|] == l[n..];
    NestedShift(l, rest, n, j - n, i - n);
  }

  lemma NestedInBelow(l: seq<Seen>, x: Seen, below: seq<Seen>, rest: seq<Seen>, j: nat, i: nat)
    requires Parts(l, x, below, rest) && Nested(below) && 0 < j < i <= |below|
    ensures NestedAt(l, j, i)
  {
    NestedShift(l, below, 1, j - 1, i - 1);
  }

  lemma NestedJoinAt(l: seq<Seen>, x: Seen, below: seq<Seen>, rest: seq<Seen>, j: nat, i: nat)
    requires Parts(l, x, below, rest) && Nested(below) && Nested(rest) && j < i < |l|
    ensures NestedAt(l, j, i)
  {
    var n := 1 + |below|;
    if j == 0 && i < n {
      FirstAbove(l, x, below, rest, i);
    } else if i < n {
      NestedInBelow(l, x, below, rest, j, i);
    } else if j < n {
      NotAcross(l, x, below, rest, j, i);
    } else {
      NestedInRest(l, x, below, rest, j, i);
    }
  }

  lemma NestedJoin(l: seq<Seen>, x: Seen, below: seq<Seen>, rest: seq<Seen>)
    requires Parts(l, x, below, rest) && Nested(below) && Nested(rest)
    ensures Nested(l)
  {
    forall j, i | 0 <= j < i < |l|
      ensures NestedAt(l, j, i)
    {
      NestedJoinAt(l, x, below, rest, j, i);
    }
  }

  /** In the listing of a sorted trie lying below is lying on the path. */
  lemma {:induction false} PreorderNested(path: Path, ts: seq<Tree>)
    requires SortedList(ts)
    ensures Nested(Preorder(path, ts))
    decreases ts
  {
    if ts == [] {
    } else {
      var t, p := ts[0], path + [ts[0].value];
      assert t in ts && SortedList(ts[1..]);
      PreorderNested(p, t.children);
      PreorderNested(path, ts[1..]);
      PreorderParts(path, ts);
      NestedJoin(Preorder(path, ts), Seen(path, t), Preorder(p, t.children), Preorder(path, ts[1..]));
    }
  }

  lemma PreorderParts(path: Path, ts: seq<Tree>)
    requires SortedValues(ts) && ts != []
    ensures var p := path + [ts[0].value];
      Parts(Preorder(path, ts), Seen(path, ts[0]), Preorder(p, ts[0].children), Preorder(path, ts[1..]))
  {
    var p := path + [ts[0].value];
    PreorderBelow(p, ts[0].children);
    PreorderBelow(path, ts[1..]);
    forall u | u in ts[1..]
      ensures u.value != ts[0].value
    {
      CmpEqual(ts[0].value, u.value);
    }
    PreorderHeads(path, ts[1..], ts[0].value);
  }

  // ----- prefix matching -----

  /** A path the prefix leads to or passes through, or any path of one name. */
  predicate Near(prefix: Path, p: Path) {
    |p| == 1 || p <= prefix || prefix <= p
  }

  lemma MatchIsNear(prefix: Path, path: Path, value: Bytes)
    ensures PrefixMatch(prefix, path, value) <==> Near(prefix, path + [value])
  {
  }

  lemma NearClosed(prefix: Path, p: Path, k: nat)
    requires Near(prefix, p) && 1 <= k <= |p|
    ensures Near(prefix, p[..k])
  {
  }

  /** The answers of a visitor that skips what `keep` refuses. */
  function Keeping(keep: Path -> bool): Path -> Visit {
    (p: Path) => if keep(p) then Continue else Skip
  }

  function Kept(keep: Path -> bool, l: seq<Seen>): seq<Seen> {
    if l == [] then []
    else (if keep(Full(l[0])) then [l[0]] else []) + Kept(keep, l[1..])
  }

  ghost predicate PrefixClosedKeep(keep: Path -> bool) {
    forall p, k :: keep(p) && 1 <= k <= |p| ==> keep(p[..k])
  }

  /** A step taken only on kept nodes. */
  function When<S>(keep: Path -> bool, step: (S, Path, Tree) -> S): (S, Path, Tree) -> S {
    (s: S, path: Path, node: Tree) => if keep(path + [node.value]) then step(s, path, node) else s
  }

  lemma {:induction false} KeptAppend(keep: Path -> bool, a: seq<Seen>, b: seq<Seen>)
    ensures Kept(keep, a + b) == Kept(keep, a) + Kept(keep, b)
  {
    if a == [] {
      assert a + b == b;
    } else {
      assert (a + b)[1..] == a[1..] + b && (a + b)[0] == a[0];
      KeptAppend(keep, a[1..], b);
      var head := if keep(Full(a[0])) then [a[0]] else [];
      assert head + (Kept(keep, a[1..]) + Kept(keep, b)) == head + Kept(keep, a[1..]) + Kept(keep, b);
    }
  }

  lemma {:induction false} NoneKept(keep: Path -> bool, l: seq<Seen>)
    requires forall x :: x in l ==> !keep(Full(x))
    ensures Kept(keep, l) == []
  {
    if l == [] {
    } else {
      assert l[0] in l;
      NoneKept(keep, l[1..]);
    }
  }

  /** Below a refused node everything is refused. */
  lemma RefusedBelow(keep: Path -> bool, path: Path, t: Tree)
    requires PrefixClosedKeep(keep) && !keep(path + [t.value])
    ensures Kept(keep, Preorder(path + [t.value], t.children)) == []
  {
    var p, l := path + [t.value], Preorder(path + [t.value], t.children);
    PreorderBelow(p, t.children);
    forall x | x in l
      ensures !keep(Full(x))
    {
      assert Full(x)[..|p|] == x.path[..|p|] == p;
    }
    NoneKept(keep, l);
  }

  /** When refusing is inherited, a visit that skips what is refused folds over exactly the kept nodes. */
  lemma {:induction false} VisitKept<S(!new)>(f: (S, Path, Tree) -> (S, Visit), step: (S, Path, Tree) -> S,
                                              keep: Path -> bool, path: Path, ts: seq<Tree>, s: S)
    requires forall s, p, t :: f(s, p, t) == (When(keep, step)(s, p, t), Keeping(keep)(p + [t.value]))
    requires PrefixClosedKeep(keep)
    ensures VisitChildren(f, path, ts, s) == (Fold(step, s, Kept(keep, Preorder(path, ts))), Continue)
    decreases ts
  {
    if ts == [] {
    } else {
      var t := ts[0];
      var x, below, rest := Seen(path, t), Preorder(path + [t.value], t.children), Preorder(path, ts[1..]);
      KeptAppend(keep, [x], below);
      KeptAppend(keep, [x] + below, rest);
      var s1 := Fold(step, s, Kept(keep, [x] + below));
      FoldAppend(step, s, Kept(keep, [x] + below), Kept(keep, rest));
      if keep(path + [t.value]) {
        var s0 := step(s, path, t);
        assert Kept(keep, [x]) == [x];
        FoldAppend(step, s, [x], Kept(keep, below));
        VisitKept(f, step, keep, path + [t.value], t.children, s0);
      } else {
        RefusedBelow(keep, path, t);
        assert Kept(keep, [x]) == [];
      }
      assert VisitNode(f, path, t, s).0 == s1 && !VisitNode(f, path, t, s).1.Stop?;
      VisitKept(f, step, keep, path, ts[1..], s1);
    }
  }

  // ----- leafs -----

  function NearTo(prefix: Path): Path -> bool {
    (p: Path) => Near(prefix, p)
  }

  function LeafStep(): (seq<Bytes>, Path, Tree) -> seq<Bytes> {
    (acc: seq<Bytes>, path: Path, node: Tree) => if node.children == [] then acc + [node.value] else acc
  }

  /** The values of the childless nodes of a list, in order. */
  function LeafValues(l: seq<Seen>): seq<Bytes> {
    if l == [] then [] else (if l[0].node.children == [] then [l[0].node.value] else []) + LeafValues(l[1..])
  }

  lemma {:induction false} LeafFold(acc: seq<Bytes>, l: seq<Seen>)
    ensures Fold(LeafStep(), acc, l) == acc + LeafValues(l)
    decreases |l|
  {
    if l == [] {
    } else {
      LeafFold(LeafStep()(acc, l[0].path, l[0].node), l[1..]);
    }
  }

  /** `Leafs` lists, in pre-order, exactly the values of the leaves near the prefix. */
  lemma LeafsExact(t: Tree, prefix: Path)
    ensures Leafs(t, prefix) == LeafValues(Kept(NearTo(prefix), Preorder([], t.children)))
  {
    var keep, f := NearTo(prefix), LeafVisitor(prefix);
    forall s, p, n
      ensures f(s, p, n) == (When(keep, LeafStep())(s, p, n), Keeping(keep)(p + [n.value]))
    {
      MatchIsNear(prefix, p, n.value);
    }
    forall p, k | keep(p) && 1 <= k <= |p|
      ensures keep(p[..k])
    {
      NearClosed(prefix, p, k);
    }
    VisitKept(f, LeafStep(), keep, [], t.children, []);
    LeafFold([], Kept(keep, Preorder([], t.children)));
  }

  // ----- extract -----

  /** Near the prefix and not too deep. */
  predicate InReach(prefix: Path, maxLen: nat, q: Path) {
    Near(prefix, q) && |q| <= maxLen
  }

  /** What an extract copies. */
  function Within(prefix: Path, maxLen: nat): Path -> bool {
    (p: Path) => InReach(prefix, maxLen, p)
  }

  lemma WithinClosed(prefix: Path, maxLen: nat)
    ensures PrefixClosedKeep(Within(prefix, maxLen))
  {
  }

  function PinStep(h: Digest): (Tree, Path, Tree) -> Tree {
    (sparse: Tree, path: Path, node: Tree) => Insert(h, sparse, path, node.value, Some(node.hash), false)
  }

  /** The plain insert that pins a node's hash at its path. */
  function PinOf(x: Seen): Op {
    Put(x.path, x.node.value, Some(x.node.hash), false)
  }

  function Pins(l: seq<Seen>): (ops: seq<Op>)
    ensures |ops| == |l|
  {
    seq(|l|, i requires 0 <= i < |l| => PinOf(l[i]))
  }

  lemma PinsSnoc(h: Digest, l: seq<Seen>, x: Seen)
    ensures Run(h, Pins(l + [x])) == Insert(h, Run(h, Pins(l)), x.path, x.node.value, Some(x.node.hash), false)
  {
    assert Init(Pins(l + [x])) == Pins(l);
    assert Last(Pins(l + [x])) == PinOf(x);
  }

  /** A fold whose step extends a run by one node is the run over all of them. */
  lemma {:induction false} FoldIsRun<S(!new)>(step: (S, Path, Tree) -> S, run: seq<Seen> -> S,
                                              done: seq<Seen>, l: seq<Seen>)
    requires forall d, x :: run(d + [x]) == step(run(d), x.path, x.node)
    ensures Fold(step, run(done), l) == run(done + l)
    decreases |l|
  {
    if l == [] {
      assert done + l == done;
    } else {
      assert run(done + [l[0]]) == step(run(done), l[0].path, l[0].node);
      FoldIsRun(step, run, done + [l[0]], l[1..]);
      assert done + [l[0]] + l[1..] == done + l;
    }
  }

  function PinRun(h: Digest): seq<Seen> -> Tree {
    (l: seq<Seen>) => Run(h, Pins(l))
  }

  lemma ExtractSteps(h: Digest, prefix: Path, maxLen: nat)
    ensures var keep := Within(prefix, maxLen);
      var f := ExtractVisitor(h, prefix, maxLen);
      forall s, p, n :: f(s, p, n) == (When(keep, PinStep(h))(s, p, n), Keeping(keep)(p + [n.value]))
  {
    var keep, f := Within(prefix, maxLen), ExtractVisitor(h, prefix, maxLen);
    forall s, p, n
      ensures f(s, p, n) == (When(keep, PinStep(h))(s, p, n), Keeping(keep)(p + [n.value]))
    {
      MatchIsNear(prefix, p, n.value);
    }
  }

  lemma PinRunSteps(h: Digest)
    ensures forall d, x :: PinRun(h)(d + [x]) == PinStep(h)(PinRun(h)(d), x.path, x.node)
  {
    forall d, x
      ensures PinRun(h)(d + [x]) == PinStep(h)(PinRun(h)(d), x.path, x.node)
    {
      PinsSnoc(h, d, x);
    }
  }

  lemma ExtractIsFold(h: Digest, t: Tree, prefix: Path, depth: nat)
    ensures Extract(h, t, prefix, depth) ==
      Fold(PinStep(h), EMPTY, Kept(Within(prefix, |prefix| + depth), Preorder([], t.children)))
  {
    var maxLen := |prefix| + depth;
    ExtractSteps(h, prefix, maxLen);
    WithinClosed(prefix, maxLen);
    VisitKept(ExtractVisitor(h, prefix, maxLen), PinStep(h), Within(prefix, maxLen), [], t.children, EMPTY);
  }

  lemma PinsFold(h: Digest, l: seq<Seen>)
    ensures Fold(PinStep(h), EMPTY, l) == Run(h, Pins(l))
  {
    PinRunSteps(h);
    FoldIsRun(PinStep(h), PinRun(h), [], l);
    assert [] + l == l;
  }

  /** An extract is the run that pins, in pre-order, the hash of every node within reach. */
  lemma ExtractIsRun(h: Digest, t: Tree, prefix: Path, depth: nat)
    ensures Extract(h, t, prefix, depth) ==
      Run(h, Pins(Kept(Within(prefix, |prefix| + depth), Preorder([], t.children))))
  {
    ExtractIsFold(h, t, prefix, depth);
    PinsFold(h, Kept(Within(prefix, |prefix| + depth), Preorder([], t.children)));
  }
}
