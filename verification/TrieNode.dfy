/** The trie as the program builds it: nodes that own their children and are updated in place. */
module TrieNode {
  import opened Wrappers
  import opened ByteStrings
  import opened Trie
  import opened TrieLookup
  import TrieRuns

  lemma {:induction false} LowBytesSnoc(a: seq<u64>, x: u64)
    ensures LowBytes(a + [x]) == LowBytes(a) + Be32(x)
  {
    if a == [] {
      assert [] + [x] == [x] && [x][1..] == [];
    } else {
      assert (a + [x])[1..] == a[1..] + [x];
      LowBytesSnoc(a[1..], x);
    }
  }

  /** Position is the split between smaller and not smaller. */
  lemma {:induction false} PositionIs(kids: seq<Tree>, v: Bytes, p: nat)
    requires p <= |kids|
    requires forall i :: 0 <= i < p ==> Cmp(kids[i].value, v) == Less
    requires forall i :: p <= i < |kids| ==> Cmp(kids[i].value, v) != Less
    ensures Position(kids, v) == p
  {
    if p > 0 {
      assert Cmp(kids[0].value, v) == Less;
      PositionIs(kids[1..], v, p - 1);
    }
  }

  /** What one comparison with a sorted list says of everything on either side. */
  lemma SmallerAndLarger(kids: seq<Tree>, m: nat, v: Bytes)
    requires SortedValues(kids) && m < |kids|
    ensures Cmp(kids[m].value, v) == Less ==> forall i :: 0 <= i <= m ==> Cmp(kids[i].value, v) == Less
    ensures Cmp(kids[m].value, v) == Greater ==> forall i :: m <= i < |kids| ==> Cmp(kids[i].value, v) == Greater
    ensures Cmp(kids[m].value, v) == Equal ==>
      && (forall i :: 0 <= i < m ==> Cmp(kids[i].value, v) == Less)
      && (forall i :: m < i < |kids| ==> Cmp(kids[i].value, v) == Greater)
  {
    CmpOrder(kids[m].value, v, v);
    forall i | 0 <= i < |kids|
      ensures i < m && Cmp(kids[m].value, v) != Greater ==> Cmp(kids[i].value, v) == Less
      ensures m < i && Cmp(kids[m].value, v) != Less ==> Cmp(kids[i].value, v) == Greater
    {
      if i < m { CmpOrder(kids[i].value, kids[m].value, v); }
      if m < i {
        CmpOrder(v, kids[m].value, kids[i].value);
        CmpOrder(v, kids[i].value, v);
      }
    }
  }

  /** Whatever child an insert continues in, it is sorted. */
  lemma ChildrenSorted(h: Digest, t: Tree, v: Bytes, update: bool)
    requires Sorted(t)
    ensures Sorted(Trie.GetOrCreateChild(h, t, v, update).children[Position(t.children, v)])
  {
  }

  /** The tree an insert leaves but for the last refresh of the root. */
  function Grown(h: Digest, t: Tree, path: Path, v: Bytes, given: Option<u64>, update: bool): Tree {
    var name := if path == [] then v else path[0];
    var t1 := Trie.GetOrCreateChild(h, t.(dirty := true), name, update);
    var p := Position(t.children, name);
    var c := t1.children[p];
    t1.(children := t1.children[p :=
      if path == [] then Trie.SetHash(h, c, given, update) else Trie.Insert(h, c, path[1..], v, given, update)])
  }

  lemma GrownIsInsert(h: Digest, t: Tree, path: Path, v: Bytes, given: Option<u64>, update: bool)
    ensures var r := Grown(h, t, path, v, given, update);
      Trie.Insert(h, t, path, v, given, update) == if update then Trie.UpdateHash(h, r) else r
  {
  }

  lemma Associative<T>(a: seq<T>, b: seq<T>, c: seq<T>)
    ensures a + (b + c) == a + b + c
  {
  }

  lemma PrefixedAppend(p: Path, a: seq<Diff>, b: seq<Diff>)
    ensures Prefixed(p, a + b) == Prefixed(p, a) + Prefixed(p, b)
  {
  }

  lemma PrefixedTwice(p: Path, q: Path, ds: seq<Diff>)
    ensures Prefixed(p + q, ds) == Prefixed(p, Prefixed(q, ds))
  {
    forall i | 0 <= i < |ds|
      ensures Prefixed(p + q, ds)[i] == Prefixed(p, Prefixed(q, ds))[i]
    {
      assert p + q + ds[i].path == p + (q + ds[i].path);
    }
  }

  /** How the values under the cursors compare; an exhausted list counts as larger. */
  function Order(xs: seq<Tree>, ys: seq<Tree>, i: nat, j: nat): Ordering
    requires i <= |xs| && j <= |ys| && (i < |xs| || j < |ys|)
  {
    if i < |xs| && j < |ys| then Cmp(xs[i].value, ys[j].value) else if i < |xs| then Less else Greater
  }

  /** What the merge still has to report with the cursors at i and j. */
  function Pending(p: Path, xs: seq<Tree>, ys: seq<Tree>, i: nat, j: nat): seq<Diff>
    requires i <= |xs| && j <= |ys|
    decreases |xs| - i + |ys| - j
  {
    if i == |xs| && j == |ys| then []
    else match Order(xs, ys, i, j)
      case Equal => Prefixed(p, DiffNodes(xs[i], ys[j])) + Pending(p, xs, ys, i + 1, j + 1)
      case Less => [MissingOther(p + [xs[i].value])] + Pending(p, xs, ys, i + 1, j)
      case Greater => [MissingSelf(p + [ys[j].value])] + Pending(p, xs, ys, i, j + 1)
  }

  lemma {:induction false} PendingIsDiff(p: Path, xs: seq<Tree>, ys: seq<Tree>, i: nat, j: nat)
    requires i <= |xs| && j <= |ys|
    ensures Pending(p, xs, ys, i, j) == Prefixed(p, DiffLists(xs[i..], ys[j..]))
    decreases |xs| - i + |ys| - j
  {
    assert i < |xs| ==> xs[i..][0] == xs[i] && xs[i..][1..] == xs[i + 1..];
    assert j < |ys| ==> ys[j..][0] == ys[j] && ys[j..][1..] == ys[j + 1..];
    if i < |xs| || j < |ys| {
      match Order(xs, ys, i, j)
      case Equal =>
        PendingIsDiff(p, xs, ys, i + 1, j + 1);
        PrefixedAppend(p, DiffNodes(xs[i], ys[j]), DiffLists(xs[i + 1..], ys[j + 1..]));
      case Less =>
        PendingIsDiff(p, xs, ys, i + 1, j);
        PrefixedAppend(p, [MissingOther([xs[i].value])], DiffLists(xs[i + 1..], ys[j..]));
      case Greater =>
        PendingIsDiff(p, xs, ys, i, j + 1);
        PrefixedAppend(p, [MissingSelf([ys[j].value])], DiffLists(xs[i..], ys[j + 1..]));
    }
  }

  /** With both cursors at the start the whole diff is pending. */
  lemma PendingAtStart(p: Path, xs: seq<Tree>, ys: seq<Tree>)
    ensures Pending(p, xs, ys, 0, 0) == Prefixed(p, DiffLists(xs, ys))
  {
    PendingIsDiff(p, xs, ys, 0, 0);
    assert xs[0..] == xs && ys[0..] == ys;
  }

  /** The vector of names the recursive calls push to and pop from. */
  class PathStack {
    var items: Path

    constructor ()
      ensures items == []
    {
      items := [];
    }

    method Push(v: Bytes)
      modifies this
      ensures items == old(items) + [v]
    {
      items := items + [v];
    }

    /** The path extended by one name: pushed, copied, popped. */
    method With(v: Bytes) returns (full: Path)
      modifies this
      ensures items == old(items) && full == items + [v]
    {
      Push(v);
      full := items;
      Pop();
    }

    method Pop()
      requires items != []
      modifies this
      ensures items == old(items)[..|old(items)| - 1]
    {
      items := items[..|items| - 1];
    }
  }

  /** Nodes with disjoint footprints that stand for the given trees. */
  ghost predicate Family(cs: seq<Node>, kids: seq<Tree>)
    reads cs
  {
    && |cs| == |kids|
    && (forall i :: 0 <= i < |cs| ==> cs[i].model == kids[i])
    && (forall i, j :: 0 <= i < j < |cs| ==> cs[i].Repr !! cs[j].Repr)
  }

  lemma SpliceFamily(cs: seq<Node>, kids: seq<Tree>, p: nat, node: Node)
    requires Family(cs, kids) && p <= |cs|
    requires forall c :: c in cs ==> c.Repr !! node.Repr
    ensures Family(cs[..p] + [node] + cs[p..], kids[..p] + [node.model] + kids[p..])
    ensures forall c :: c in cs[..p] + [node] + cs[p..] ==> c == node || c in cs
  {
  }

  /** A node none of whose objects changed still stands for the same tree. */
  twostate lemma Undisturbed(c: Node)
    requires old(c.Valid()) && unchanged(old(c.Repr))
    ensures c.Valid() && c.Repr == old(c.Repr) && c.model == old(c.model)
  {
    assert c in old(c.Repr);
  }

  class Node {
    var value: Bytes
    var level: nat
    var hash: u64
    var manualHash: Option<u64>
    var children: seq<Node>
    var dirty: bool

    ghost var model: Tree
    ghost var Repr: set<object>

    ghost predicate Valid()
      reads this, Repr
      decreases Repr
    {
      && this in Repr
      && (forall c :: c in children ==> c in Repr && c.Repr <= Repr && this !in c.Repr && c.Valid())
      && model == Tree(value, level, hash, manualHash, model.children, dirty)
      && Family(children, model.children)
    }

    constructor (v: Bytes, l: nat)
      ensures Valid() && fresh(Repr)
      ensures model == EMPTY.(value := v, level := l)
    {
      value, level, hash, manualHash, children, dirty := v, l, 0, None, [], true;
      model := EMPTY.(value := v, level := l);
      Repr := {this};
    }

    /** The bytes the children contribute to this node's hash. */
    method ChildBytes() returns (fed: Bytes)
      requires Valid()
      ensures fed == LowBytes(Hashes(model.children))
    {
      ghost var hashes := Hashes(model.children);
      var buf := new byte[4];
      fed := [];
      var i := 0;
      while i < |children|
        invariant 0 <= i <= |children|
        invariant fed == LowBytes(hashes[..i])
        modifies buf
      {
        assert children[i] in children && children[i].hash == hashes[i];
        UpdateBuffer(buf, children[i].hash);
        fed := fed + buf[..];
        LowBytesSnoc(hashes[..i], hashes[i]);
        assert hashes[..i] + [hashes[i]] == hashes[..i + 1];
        i := i + 1;
      }
      assert hashes[..i] == hashes;
    }

    /** Refreshes this node's hash from its children's stored hashes, unless it is pinned or clean. */
    method UpdateHash(h: Digest)
      requires Valid()
      modifies this`hash, this`dirty, this`model
      ensures Valid() && model == Trie.UpdateHash(h, old(model))
    {
      if manualHash.Some? {
        hash := manualHash.value;
        dirty := false;
      } else {
        if !dirty {
          return;
        }
        var fed := ChildBytes();
        hash := h(fed + value);
        dirty := false;
      }
      model := Trie.UpdateHash(h, model);
    }

    method RehashChildren(h: Digest)
      requires Valid()
      modifies Repr
      ensures unchanged(this)
      ensures forall c :: c in children ==> c.Valid() && c.Repr == old(c.Repr)
      ensures Family(children, RehashList(h, model.children))
      decreases Repr, 0
    {
      var i := 0;
      while i < |children|
        invariant 0 <= i <= |children|
        invariant unchanged(this)
        invariant forall j :: 0 <= j < |children| ==> children[j].Valid() && children[j].Repr == old(children[j].Repr)
        invariant forall j :: 0 <= j < i ==> children[j].model == Trie.Rehash(h, model.children[j])
        invariant forall j :: i <= j < |children| ==> children[j].model == model.children[j]
      {
        assert forall j :: 0 <= j < |children| && j != i ==> children[j].Repr !! children[i].Repr;
        label Before:
        children[i].Rehash(h);
        forall j | 0 <= j < |children| && j != i
          ensures children[j].Valid() && children[j].Repr == old@Before(children[j].Repr)
          ensures children[j].model == old@Before(children[j].model)
        {
          Undisturbed@Before(children[j]);
        }
        i := i + 1;
      }
    }

    /** Rehashes the children first, then this node. */
    method Rehash(h: Digest)
      requires Valid()
      modifies Repr
      ensures Valid() && Repr == old(Repr) && model == Trie.Rehash(h, old(model))
      decreases Repr, 1
    {
      RehashChildren(h);
      model := model.(children := RehashList(h, model.children));
      UpdateHash(h);
    }

    /** Binary search among the children: the match, or where one belongs. */
    method Search(v: Bytes) returns (found: bool, position: nat)
      requires Valid() && SortedValues(model.children)
      ensures position == Position(model.children, v) && found == HasAt(model.children, position, v)
    {
      ghost var kids := model.children;
      var lo, hi := 0, |children|;
      while lo < hi
        invariant 0 <= lo <= hi <= |children|
        invariant forall i :: 0 <= i < lo ==> Cmp(kids[i].value, v) == Less
        invariant forall i :: hi <= i < |children| ==> Cmp(kids[i].value, v) == Greater
      {
        var mid := (lo + hi) / 2;
        assert children[mid] in children && children[mid].value == kids[mid].value;
        SmallerAndLarger(kids, mid, v);
        match Cmp(children[mid].value, v)
        case Less => lo := mid + 1;
        case Greater => hi := mid;
        case Equal =>
          PositionIs(kids, v, mid);
          CmpOrder(kids[mid].value, v, v);
          return true, mid;
      }
      PositionIs(kids, v, lo);
      if lo < |children| { CmpOrder(kids[lo].value, v, v); }
      return false, lo;
    }

    /** Inserts a node among the children. */
    method InsertChild(position: nat, node: Node)
      requires Valid() && node.Valid() && node.Repr !! Repr && position <= |children|
      modifies this`children, this`model, this`Repr
      ensures Valid() && Repr == old(Repr) + node.Repr
      ensures var kids := old(model.children);
        model == old(model).(children := kids[..position] + [node.model] + kids[position..])
    {
      SpliceFamily(children, model.children, position, node);
      ghost var kids := model.children[..position] + [node.model] + model.children[position..];
      children, model, Repr :=
        children[..position] + [node] + children[position..], model.(children := kids), Repr + node.Repr;
    }

    /** The index of the child named v, made if it was missing. */
    method GetOrCreateChild(h: Digest, v: Bytes, update: bool) returns (position: nat)
      requires Valid() && SortedValues(model.children)
      modifies this`children, this`model, this`Repr
      ensures Valid() && fresh(Repr - old(Repr)) && old(Repr) <= Repr
      ensures model == Trie.GetOrCreateChild(h, old(model), v, update)
      ensures position == Position(old(model).children, v) && HasAt(model.children, position, v)
    {
      var found;
      found, position := Search(v);
      if !found {
        var node := new Node(v, level + 1);
        if update {
          node.UpdateHash(h);
        }
        assert node.model == FreshChild(h, model, v, update);
        InsertChild(position, node);
      }
    }

    /** What an insert does to the node it ends at. */
    method SetHash(h: Digest, v: Bytes, given: Option<u64>, update: bool)
      requires Valid() && v == value
      modifies this`value, this`hash, this`manualHash, this`dirty, this`model
      ensures Valid() && model == Trie.SetHash(h, old(model), given, update)
    {
      value := v;
      if given.Some? {
        hash := given.value;
        manualHash := given;
        model := Trie.SetHash(h, model, given, update);
      } else if update {
        UpdateHash(h);
      }
    }

    /** Valid but for the child at `position`, which has changed on its own. */
    ghost predicate ValidExcept(position: nat)
      requires position < |children|
      reads this, children, set c, o | c in children && o in c.Repr :: o
    {
      && this in Repr
      && (forall c :: c in children ==> this !in c.Repr && c.Valid())
      && (forall c :: c in children && c != children[position] ==> c in Repr && c.Repr <= Repr)
      && model == Tree(value, level, hash, manualHash, model.children, dirty)
      && |model.children| == |children|
      && Family(children, model.children[position := children[position].model])
    }

    /** Brings the ghost state up to date with that child. */
    ghost method Adopt(position: nat)
      requires position < |children| && ValidExcept(position)
      modifies this`model, this`Repr
      ensures Valid() && Repr == old(Repr) + children[position].Repr
      ensures model == old(model).(children := old(model).children[position := children[position].model])
    {
      Repr := Repr + children[position].Repr;
      model := model.(children := model.children[position := children[position].model]);
    }

    /** What an insert does to the child it moves to: it ends here, or goes on with the rest of the path. */
    method Arrive(h: Digest, path: Path, v: Bytes, given: Option<u64>, update: bool)
      requires Valid() && Sorted(model) && (path == [] ==> value == v)
      modifies Repr
      ensures Valid() && fresh(Repr - old(Repr)) && old(Repr) <= Repr
      ensures model == if path == [] then Trie.SetHash(h, old(model), given, update)
                       else Trie.Insert(h, old(model), path[1..], v, given, update)
      decreases |path|, 0
    {
      if path == [] {
        SetHash(h, v, given, update);
      } else {
        Insert(h, path[1..], v, given, update);
      }
    }

    /** Valid but for the child at `position`, of whose objects only the old ones were this node's. */
    lemma ExceptOne(position: nat, reprs: seq<set<object>>)
      requires position < |children| == |model.children| == |reprs|
      requires this in Repr && model == Tree(value, level, hash, manualHash, model.children, dirty)
      requires forall k :: 0 <= k < |children| ==> children[k].Valid() && this !in children[k].Repr
      requires forall k :: 0 <= k < |children| && k != position ==>
        children[k] in Repr && children[k].Repr == reprs[k] <= Repr && children[k].model == model.children[k]
      requires forall j, k :: 0 <= j < k < |children| ==> children[j].Repr !! children[k].Repr
      ensures ValidExcept(position)
    {
      forall c | c in children && c != children[position]
        ensures c in Repr && c.Repr <= Repr
      {
        var k :| 0 <= k < |children| && children[k] == c;
      }
    }

    method ArriveInChild(h: Digest, position: nat, path: Path, v: Bytes, given: Option<u64>, update: bool)
      requires Valid() && position < |children| && Sorted(model.children[position])
      requires path == [] ==> model.children[position].value == v
      modifies Repr
      ensures unchanged(this) && ValidExcept(position) && fresh(children[position].Repr - old(children[position].Repr))
      ensures old(children[position].Repr) <= children[position].Repr
      ensures var c := old(model.children[position]);
        children[position].model ==
          if path == [] then Trie.SetHash(h, c, given, update) else Trie.Insert(h, c, path[1..], v, given, update)
      decreases |path|, 1
    {
      ghost var c := children[position];
      ghost var reprs := seq(|children|, k requires 0 <= k < |children| reads this, children => children[k].Repr);
      assert forall k :: 0 <= k < |children| && k != position ==> children[k].Repr !! c.Repr;
      children[position].Arrive(h, path, v, given, update);
      forall k | 0 <= k < |children| && k != position
        ensures children[k].Valid() && children[k].Repr == reprs[k] && children[k].model == old(children[k].model)
      {
        assert reprs[k] !! old(c.Repr);
        Undisturbed(children[k]);
      }
      ExceptOne(position, reprs);
    }

    /** Continues an insert in the child at `position`. */
    method InsertInChild(h: Digest, position: nat, path: Path, v: Bytes, given: Option<u64>, update: bool)
      requires Valid() && position < |children| && Sorted(model.children[position])
      requires path == [] ==> model.children[position].value == v
      modifies Repr
      ensures Valid() && fresh(Repr - old(Repr)) && old(Repr) <= Repr
      ensures var c := old(model.children[position]);
        model == old(model).(children := old(model).children[position :=
          if path == [] then Trie.SetHash(h, c, given, update) else Trie.Insert(h, c, path[1..], v, given, update)])
      decreases |path|, 2
    {
      ArriveInChild(h, position, path, v, given, update);
      Adopt(position);
    }

    /** Finds or makes the child on the path and carries on in it. */
    method InsertBelow(h: Digest, path: Path, v: Bytes, given: Option<u64>, update: bool)
      requires Valid() && Sorted(model)
      modifies Repr
      ensures Valid() && fresh(Repr - old(Repr)) && old(Repr) <= Repr
      ensures model == Grown(h, old(model), path, v, given, update)
      decreases |path|, 3
    {
      dirty := true;
      model := model.(dirty := true);
      var name := if path == [] then v else path[0];
      ChildrenSorted(h, model, name, update);
      var position := GetOrCreateChild(h, name, update);
      InsertInChild(h, position, path, v, given, update);
    }

    /** Inserts a value below a path, making the nodes that are missing. */
    method Insert(h: Digest, path: Path, v: Bytes, given: Option<u64>, update: bool)
      requires Valid() && Sorted(model)
      modifies Repr
      ensures Valid() && fresh(Repr - old(Repr)) && old(Repr) <= Repr
      ensures model == Trie.Insert(h, old(model), path, v, given, update)
      decreases |path|, 4
    {
      InsertBelow(h, path, v, given, update);
      if update {
        UpdateHash(h);
      }
      GrownIsInsert(h, old(model), path, v, given, update);
    }

    // ----- diff -----

    /** The reports for two nodes of the same name; the stack comes back as it was. */
    method DiffNode(path: PathStack, other: Node) returns (diffs: seq<Diff>)
      requires Valid() && other.Valid() && path !in Repr && path !in other.Repr
      modifies path
      ensures path.items == old(path.items)
      ensures diffs == Prefixed(path.items, DiffNodes(model, other.model))
      decreases Repr, 2
    {
      diffs := [];
      if hash != other.hash {
        ghost var below := DiffLists(model.children, other.model.children);
        path.Push(value);
        var childrenDiff := Diff(path, other);
        if childrenDiff == [] {
          diffs := [HashMismatch(path.items)];
        } else {
          diffs := childrenDiff;
          PrefixedTwice(old(path.items), [value], below);
        }
        path.Pop();
      }
    }

    /** One round of the merge: compares the children under the cursors and moves one cursor or both. */
    method DiffStep(path: PathStack, other: Node, i: nat, j: nat) returns (diffs: seq<Diff>, i': nat, j': nat)
      requires Valid() && other.Valid() && path !in Repr && path !in other.Repr
      requires i <= |children| && j <= |other.children| && (i < |children| || j < |other.children|)
      modifies path
      ensures path.items == old(path.items)
      ensures i <= i' <= |children| && j <= j' <= |other.children| && i + j < i' + j'
      ensures Pending(path.items, model.children, other.model.children, i, j) ==
        diffs + Pending(path.items, model.children, other.model.children, i', j')
      decreases Repr, 0
    {
      ghost var xs, ys := model.children, other.model.children;
      assert i < |children| ==> children[i] in children && children[i].value == xs[i].value;
      assert j < |other.children| ==> other.children[j] in other.children && other.children[j].value == ys[j].value;
      var order :=
        if i < |children| && j < |other.children| then Cmp(children[i].value, other.children[j].value)
        else if i < |children| then Less
        else Greater;
      assert order == Order(xs, ys, i, j);
      match order {
        case Equal =>
          diffs := children[i].DiffNode(path, other.children[j]);
          i', j' := i + 1, j + 1;
        case Less =>
          var full := path.With(children[i].value);
          diffs := [MissingOther(full)];
          i', j' := i + 1, j;
        case Greater =>
          var full := path.With(other.children[j].value);
          diffs := [MissingSelf(full)];
          i', j' := i, j + 1;
      }
    }

    /** Merges the two sorted child lists with one cursor each. */
    method Diff(path: PathStack, other: Node) returns (diffs: seq<Diff>)
      requires Valid() && other.Valid() && path !in Repr && path !in other.Repr
      modifies path
      ensures path.items == old(path.items)
      ensures diffs == Prefixed(path.items, DiffLists(model.children, other.model.children))
      decreases Repr, 1
    {
      ghost var xs, ys, p := model.children, other.model.children, path.items;
      ghost var all := Pending(p, xs, ys, 0, 0);
      PendingAtStart(p, xs, ys);
      diffs := [];
      var i, j := 0, 0;
      while i < |children| || j < |other.children|
        invariant 0 <= i <= |children| && 0 <= j <= |other.children|
        invariant path.items == p && Valid() && other.Valid()
        invariant all == diffs + Pending(p, xs, ys, i, j)
        decreases |children| - i + |other.children| - j
      {
        var more, i', j' := DiffStep(path, other, i, j);
        Associative(diffs, more, Pending(p, xs, ys, i', j'));
        diffs, i, j := diffs + more, i', j';
      }
    }

    // ----- traversals -----

    /** This node as a visitor sees it. */
    function View(): (t: Tree)
      requires Valid()
      reads this, Repr
      ensures t == model
      decreases Repr, |children| + 1
    {
      Tree(value, level, hash, manualHash, Views(|children|), dirty)
    }

    function Views(n: nat): (ts: seq<Tree>)
      requires Valid() && n <= |children|
      reads this, Repr
      ensures ts == model.children[..n]
      decreases Repr, n
    {
      if n == 0 then []
      else
        assert children[n - 1] in children;
        Views(n - 1) + [children[n - 1].View()]
    }

    /** Visits this node and what is below it with any visitor, whose captured state is threaded through. */
    method Visit<S>(f: (S, Path, Tree) -> (S, Visit), path: PathStack, s: S) returns (s': S, r: Visit)
      requires Valid() && path !in Repr
      modifies path
      ensures path.items == old(path.items)
      ensures (s', r) == VisitNode(f, path.items, model, s)
      decreases Repr, 1
    {
      var answer := f(s, path.items, View());
      s', r := answer.0, answer.1;
      if r != Continue {
        return;
      }
      path.Push(value);
      s', r := VisitChildren(f, path, s');
      path.Pop();
    }

    method VisitChildren<S>(f: (S, Path, Tree) -> (S, Visit), path: PathStack, s: S) returns (s': S, r: Visit)
      requires Valid() && path !in Repr
      modifies path
      ensures path.items == old(path.items)
      ensures (s', r) == Trie.VisitChildren(f, path.items, model.children, s)
      decreases Repr, 0
    {
      ghost var kids, p := model.children, path.items;
      ghost var all := Trie.VisitChildren(f, p, kids, s);
      assert kids[0..] == kids;
      s' := s;
      var i := 0;
      while i < |children|
        invariant 0 <= i <= |children|
        invariant path.items == p && Valid()
        invariant all == Trie.VisitChildren(f, p, kids[i..], s')
      {
        assert children[i] in children && kids[i..][0] == children[i].model && kids[i..][1..] == kids[i + 1..];
        var result;
        s', result := children[i].Visit(f, path, s');
        if result == Stop {
          return s', Stop;
        }
        i := i + 1;
      }
      return s', Continue;
    }

    /** Visits this node and what is below it, pinning what an extract copies in the sparse trie. */
    method VisitExtract(h: Digest, prefix: Path, maxLen: nat, path: PathStack, sparse: Node) returns (r: Visit)
      requires Valid() && sparse.Valid() && Sorted(sparse.model)
      requires sparse.Repr !! Repr && path !in Repr && path !in sparse.Repr
      modifies path, sparse.Repr
      ensures sparse.Valid() && Sorted(sparse.model) && fresh(sparse.Repr - old(sparse.Repr))
      ensures path.items == old(path.items)
      ensures (sparse.model, r) == VisitNode(ExtractVisitor(h, prefix, maxLen), path.items, model, old(sparse.model))
      decreases Repr, 1
    {
      if !PrefixMatch(prefix, path.items, value) || |path.items| + 1 > maxLen {
        return Skip;
      }
      InsertSorted(h, sparse.model, path.items, value, Some(hash), false);
      sparse.Insert(h, path.items, value, Some(hash), false);
      path.Push(value);
      r := VisitExtractBelow(h, prefix, maxLen, path, sparse);
      path.Pop();
    }

    method VisitExtractBelow(h: Digest, prefix: Path, maxLen: nat, path: PathStack, sparse: Node) returns (r: Visit)
      requires Valid() && sparse.Valid() && Sorted(sparse.model)
      requires sparse.Repr !! Repr && path !in Repr && path !in sparse.Repr
      modifies path, sparse.Repr
      ensures sparse.Valid() && Sorted(sparse.model) && fresh(sparse.Repr - old(sparse.Repr))
      ensures path.items == old(path.items)
      ensures (sparse.model, r) ==
        Trie.VisitChildren(ExtractVisitor(h, prefix, maxLen), path.items, model.children, old(sparse.model))
      decreases Repr, 0
    {
      ghost var kids, p, f := model.children, path.items, ExtractVisitor(h, prefix, maxLen);
      ghost var all := Trie.VisitChildren(f, p, kids, sparse.model);
      assert kids[0..] == kids;
      var i := 0;
      while i < |children|
        invariant 0 <= i <= |children|
        invariant path.items == p && Valid() && unchanged(Repr)
        invariant sparse.Valid() && Sorted(sparse.model) && fresh(sparse.Repr - old(sparse.Repr))
        invariant all == Trie.VisitChildren(f, p, kids[i..], sparse.model)
      {
        assert children[i] in children && kids[i..][0] == children[i].model && kids[i..][1..] == kids[i + 1..];
        var result := children[i].VisitExtract(h, prefix, maxLen, path, sparse);
        if result == Stop {
          return Stop;
        }
        i := i + 1;
      }
      return Continue;
    }
  }

  /** A set of paths: a root node that itself has no name. */
  class TreeSet {
    const root: Node

    ghost predicate Valid()
      reads this, root, root.Repr
    {
      this !in root.Repr && root.Valid() && Sorted(root.model)
    }

    constructor ()
      ensures Valid() && fresh(root.Repr) && root.model == EMPTY
    {
      root := new Node([], 0);
    }

    method Insert(h: Digest, path: Path, value: Bytes)
      requires Valid()
      modifies root.Repr
      ensures Valid() && fresh(root.Repr - old(root.Repr))
      ensures root.model == Trie.Insert(h, old(root.model), path, value, None, false)
    {
      InsertSorted(h, root.model, path, value, None, false);
      root.Insert(h, path, value, None, false);
    }

    method InsertUpdate(h: Digest, path: Path, value: Bytes)
      requires Valid()
      modifies root.Repr
      ensures Valid() && fresh(root.Repr - old(root.Repr))
      ensures root.model == Trie.Insert(h, old(root.model), path, value, None, true)
    {
      InsertSorted(h, root.model, path, value, None, true);
      root.Insert(h, path, value, None, true);
    }

    method InsertWithHash(h: Digest, path: Path, value: Bytes, hash: u64)
      requires Valid()
      modifies root.Repr
      ensures Valid() && fresh(root.Repr - old(root.Repr))
      ensures root.model == Trie.Insert(h, old(root.model), path, value, Some(hash), false)
    {
      InsertSorted(h, root.model, path, value, Some(hash), false);
      root.Insert(h, path, value, Some(hash), false);
    }

    method InsertWithHashUpdate(h: Digest, path: Path, value: Bytes, hash: u64)
      requires Valid()
      modifies root.Repr
      ensures Valid() && fresh(root.Repr - old(root.Repr))
      ensures root.model == Trie.Insert(h, old(root.model), path, value, Some(hash), true)
    {
      InsertSorted(h, root.model, path, value, Some(hash), true);
      root.Insert(h, path, value, Some(hash), true);
    }

    method Rehash(h: Digest)
      requires Valid()
      modifies root.Repr
      ensures Valid() && root.Repr == old(root.Repr) && root.model == Trie.Rehash(h, old(root.model))
    {
      TrieRuns.RehashKeepsStructure(h, root.model);
      root.Rehash(h);
    }

    method Leafs(prefix: Path) returns (leafs: seq<Bytes>)
      requires Valid()
      ensures leafs == Trie.Leafs(root.model, prefix)
    {
      var path := new PathStack();
      var r;
      leafs, r := root.VisitChildren(LeafVisitor(prefix), path, []);
    }

    method Extract(h: Digest, prefix: Path, depth: nat) returns (sparse: TreeSet)
      requires Valid()
      ensures sparse.Valid() && fresh(sparse) && fresh(sparse.root.Repr)
      ensures sparse.root.model == Trie.Extract(h, root.model, prefix, depth)
    {
      sparse := new TreeSet();
      var path := new PathStack();
      var r := root.VisitExtractBelow(h, prefix, |prefix| + depth, path, sparse.root);
    }

    method ExtractRoot(h: Digest, depth: nat) returns (sparse: TreeSet)
      requires Valid()
      ensures sparse.Valid() && fresh(sparse) && fresh(sparse.root.Repr)
      ensures sparse.root.model == Trie.Extract(h, root.model, [], depth)
    {
      sparse := Extract(h, [], depth);
    }

    method Diff(other: TreeSet) returns (diffs: seq<Diff>)
      requires Valid() && other.Valid()
      ensures diffs == DiffTrees(root.model, other.root.model)
    {
      var path := new PathStack();
      diffs := root.Diff(path, other.root);
      assert Prefixed([], DiffTrees(root.model, other.root.model)) == DiffTrees(root.model, other.root.model) by {
        PrefixedNothing(DiffTrees(root.model, other.root.model));
      }
    }
  }

  lemma PrefixedNothing(ds: seq<Diff>)
    ensures Prefixed([], ds) == ds
  {
    forall i | 0 <= i < |ds|
      ensures Prefixed([], ds)[i] == ds[i]
    {
      assert [] + ds[i].path == ds[i].path;
    }
  }
}
