/** The hashed ordered trie as a value: what each operation of the node class computes. */
module Trie {
  import opened Wrappers
  import opened ByteStrings

  datatype Tree = Tree(value: Bytes, level: nat, hash: u64, manual: Option<u64>, children: seq<Tree>, dirty: bool)

  /** A fresh node: dirty, no hash, no children. */
  const EMPTY := Tree([], 0, 0, None, [], true)

  /** What the hasher is fed for the children: the low half of each hash, nothing in between. */
  function LowBytes(hashes: seq<u64>): Bytes {
    if hashes == [] then [] else Be32(hashes[0]) + LowBytes(hashes[1..])
  }

  function Hashes(kids: seq<Tree>): seq<u64> {
    seq(|kids|, i requires 0 <= i < |kids| => kids[i].hash)
  }

  function HashInput(t: Tree): Bytes {
    LowBytes(Hashes(t.children)) + t.value
  }

  function UpdateHash(h: Digest, t: Tree): Tree {
    match t.manual
    case Some(m) => t.(hash := m, dirty := false)
    case None => if t.dirty then t.(hash := h(HashInput(t)), dirty := false) else t
  }

  function Rehash(h: Digest, t: Tree): Tree {
    UpdateHash(h, t.(children := RehashList(h, t.children)))
  }

  function RehashList(h: Digest, kids: seq<Tree>): (r: seq<Tree>)
    ensures |r| == |kids|
  {
    seq(|kids|, i requires 0 <= i < |kids| => Rehash(h, kids[i]))
  }

  /** Where a binary search for v ends: the number of leading children with a smaller value. */
  function Position(kids: seq<Tree>, v: Bytes): (p: nat)
    ensures p <= |kids|
  {
    if kids == [] || Cmp(kids[0].value, v) != Less then 0 else 1 + Position(kids[1..], v)
  }

  predicate HasAt(kids: seq<Tree>, p: nat, v: Bytes) {
    p < |kids| && kids[p].value == v
  }

  function FreshChild(h: Digest, t: Tree, v: Bytes, update: bool): Tree {
    var node := EMPTY.(value := v, level := t.level + 1);
    if update then UpdateHash(h, node) else node
  }

  function GetOrCreateChild(h: Digest, t: Tree, v: Bytes, update: bool): (r: Tree)
    ensures HasAt(r.children, Position(t.children, v), v)
  {
    var p := Position(t.children, v);
    if HasAt(t.children, p, v) then t
    else t.(children := t.children[..p] + [FreshChild(h, t, v, update)] + t.children[p..])
  }

  /** What an insert does to the node it ends at. */
  function SetHash(h: Digest, t: Tree, hash: Option<u64>, update: bool): Tree {
    match hash
    case Some(x) => t.(hash := x, manual := Some(x))
    case None => if update then UpdateHash(h, t) else t
  }

  function Insert(h: Digest, t: Tree, path: Path, value: Bytes, hash: Option<u64>, update: bool): Tree
    decreases |path|
  {
    var v := if path == [] then value else path[0];
    var t1 := GetOrCreateChild(h, t.(dirty := true), v, update);
    var p := Position(t.children, v);
    var c := if path == [] then SetHash(h, t1.children[p], hash, update)
             else Insert(h, t1.children[p], path[1..], value, hash, update);
    var t2 := t1.(children := t1.children[p := c]);
    if update then UpdateHash(h, t2) else t2
  }

  // ----- order and lookup -----

  predicate SortedValues(kids: seq<Tree>) {
    forall i, j :: 0 <= i < j < |kids| ==> Cmp(kids[i].value, kids[j].value) == Less
  }

  predicate Sorted(t: Tree) {
    SortedValues(t.children) && forall c :: c in t.children ==> Sorted(c)
  }

  predicate SortedList(kids: seq<Tree>) {
    SortedValues(kids) && forall c :: c in kids ==> Sorted(c)
  }

  /** The first child with a given value, found without relying on the order. */
  function Kid(kids: seq<Tree>, v: Bytes): Option<Tree> {
    if kids == [] then None
    else if kids[0].value == v then Some(kids[0])
    else Kid(kids[1..], v)
  }

  function Lookup(t: Tree, p: Path): Option<Tree>
    decreases |p|
  {
    if p == [] then Some(t)
    else match Kid(t.children, p[0])
      case None => None
      case Some(c) => Lookup(c, p[1..])
  }

  predicate Has(t: Tree, p: Path) {
    Lookup(t, p).Some?
  }

  // ----- diff -----

  datatype Diff = MissingSelf(path: Path) | MissingOther(path: Path) | HashMismatch(path: Path)

  function Prefixed(p: Path, ds: seq<Diff>): seq<Diff> {
    seq(|ds|, i requires 0 <= i < |ds| => ds[i].(path := p + ds[i].path))
  }

  /** The merge of two child lists; reported paths are relative to the parents. */
  function DiffLists(xs: seq<Tree>, ys: seq<Tree>): seq<Diff>
    decreases xs, ys
  {
    if xs == [] && ys == [] then []
    else if ys == [] then [MissingOther([xs[0].value])] + DiffLists(xs[1..], ys)
    else if xs == [] then [MissingSelf([ys[0].value])] + DiffLists(xs, ys[1..])
    else match Cmp(xs[0].value, ys[0].value)
      case Equal => DiffNodes(xs[0], ys[0]) + DiffLists(xs[1..], ys[1..])
      case Less => [MissingOther([xs[0].value])] + DiffLists(xs[1..], ys)
      case Greater => [MissingSelf([ys[0].value])] + DiffLists(xs, ys[1..])
  }

  /** What a pair of equally named nodes contributes. */
  function DiffNodes(x: Tree, y: Tree): seq<Diff>
    decreases x, y
  {
    if x.hash == y.hash then []
    else
      var below := DiffLists(x.children, y.children);
      if below == [] then [HashMismatch([x.value])] else Prefixed([x.value], below)
  }

  function DiffTrees(a: Tree, b: Tree): seq<Diff> {
    DiffLists(a.children, b.children)
  }

  // ----- traversal -----

  datatype Visit = Continue | Skip | Stop

  /** Pre-order visit of a list of siblings below `path`, threading a state through `f`. */
  function VisitChildren<S>(f: (S, Path, Tree) -> (S, Visit), path: Path, ts: seq<Tree>, s: S): (S, Visit)
    decreases ts, 1
  {
    if ts == [] then (s, Continue)
    else
      var (s1, r) := VisitNode(f, path, ts[0], s);
      if r.Stop? then (s1, Stop) else VisitChildren(f, path, ts[1..], s1)
  }

  function VisitNode<S>(f: (S, Path, Tree) -> (S, Visit), path: Path, t: Tree, s: S): (S, Visit)
    decreases t, 0
  {
    var (s1, r) := f(s, path, t);
    if r != Continue then (s1, r) else VisitChildren(f, path + [t.value], t.children, s1)
  }

  /** Top-level nodes always match, because their `path` is empty. */
  predicate PrefixMatch(prefix: Path, path: Path, value: Bytes) {
    prefix == [] || path == [] ||
    var full := path + [value];
    var n := if |full| < |prefix| then |full| else |prefix|;
    full[..n] == prefix[..n]
  }

  function LeafVisitor(prefix: Path): (seq<Bytes>, Path, Tree) -> (seq<Bytes>, Visit) {
    (acc: seq<Bytes>, path: Path, node: Tree) =>
      if !PrefixMatch(prefix, path, node.value) then (acc, Skip)
      else (if node.children == [] then acc + [node.value] else acc, Continue)
  }

  function Leafs(t: Tree, prefix: Path): seq<Bytes> {
    VisitChildren(LeafVisitor(prefix), [], t.children, []).0
  }

  function ExtractVisitor(h: Digest, prefix: Path, maxLen: nat): (Tree, Path, Tree) -> (Tree, Visit) {
    (sparse: Tree, path: Path, node: Tree) =>
      if !PrefixMatch(prefix, path, node.value) || |path| + 1 > maxLen then (sparse, Skip)
      else (Insert(h, sparse, path, node.value, Some(node.hash), false), Continue)
  }

  function Extract(h: Digest, t: Tree, prefix: Path, depth: nat): Tree {
    VisitChildren(ExtractVisitor(h, prefix, |prefix| + depth), [], t.children, EMPTY).0
  }
}
