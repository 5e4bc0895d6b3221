/** The path set of a trie: what an insert adds, and when two path sets are the same. */
module TrieLookup {
  import opened Wrappers
  import opened ByteStrings
  import opened Trie

  // ----- one sorted list of siblings -----

  lemma {:induction false} PositionSplits(kids: seq<Tree>, v: Bytes)
    requires SortedValues(kids)
    ensures forall i :: 0 <= i < Position(kids, v) ==> Cmp(kids[i].value, v) == Less
    ensures forall i :: Position(kids, v) <= i < |kids| ==> Cmp(kids[i].value, v) != Less
    ensures forall i :: Position(kids, v) < i < |kids| ==> Cmp(kids[i].value, v) == Greater
    ensures Kid(kids, v) == if HasAt(kids, Position(kids, v), v) then Some(kids[Position(kids, v)]) else None
  {
    if kids == [] {
    } else {
      PositionSplits(kids[1..], v);
      CmpOrder(kids[0].value, v, v);
      forall i | 0 < i < |kids|
        ensures Cmp(kids[0].value, v) != Less ==> Cmp(kids[i].value, v) == Greater
        ensures Cmp(kids[0].value, v) == Less ==> kids[i] == kids[1..][i - 1]
      {
        CmpOrder(v, kids[0].value, kids[i].value);
        CmpOrder(v, kids[i].value, v);
      }
      if Cmp(kids[0].value, v) == Greater {
        KidAbsent(kids[1..], v);
      }
    }
  }

  lemma {:induction false} KidAbsent(kids: seq<Tree>, v: Bytes)
    ensures Kid(kids, v) == None <==> forall i :: 0 <= i < |kids| ==> kids[i].value != v
  {
    if kids != [] && kids[0].value != v {
      KidAbsent(kids[1..], v);
      assert forall i :: 0 < i < |kids| ==> kids[i] == kids[1..][i - 1];
      assert forall i :: 0 <= i < |kids[1..]| ==> kids[1..][i] == kids[i + 1];
    }
  }

  lemma {:induction false} KidFound(kids: seq<Tree>, v: Bytes)
    ensures Kid(kids, v).Some? ==> Kid(kids, v).value in kids && Kid(kids, v).value.value == v
  {
    if kids != [] && kids[0].value != v {
      KidFound(kids[1..], v);
    }
  }

  /** In a sorted list every child is the one its value finds. */
  lemma KidAt(kids: seq<Tree>, i: nat)
    requires SortedValues(kids) && i < |kids|
    ensures Kid(kids, kids[i].value) == Some(kids[i])
  {
    var v := kids[i].value;
    PositionSplits(kids, v);
    CmpOrder(v, v, v);
  }

  /** The list with c replacing the child of its value, or inserted where the search ended. */
  function PutChild(kids: seq<Tree>, c: Tree): seq<Tree> {
    var p := Position(kids, c.value);
    if HasAt(kids, p, c.value) then kids[p := c] else kids[..p] + [c] + kids[p..]
  }

  /** The same list read off by index: what precedes c, c, and what follows it from n on. */
  lemma PutChildParts(kids: seq<Tree>, c: Tree) returns (p: nat, n: nat)
    requires SortedValues(kids)
    ensures p == Position(kids, c.value) && p <= n <= p + 1 && n <= |kids|
    ensures n == p + 1 ==> kids[p].value == c.value
    ensures forall i :: 0 <= i < p ==> Cmp(kids[i].value, c.value) == Less
    ensures forall i :: n <= i < |kids| ==> Cmp(c.value, kids[i].value) == Less
    ensures var r := PutChild(kids, c);
      |r| == p + 1 + |kids| - n && r[..p] == kids[..p] && r[p] == c && r[p + 1..] == kids[n..]
  {
    p := Position(kids, c.value);
    PositionSplits(kids, c.value);
    n := if HasAt(kids, p, c.value) then p + 1 else p;
    forall i | n <= i < |kids|
      ensures Cmp(c.value, kids[i].value) == Less
    {
      CmpOrder(kids[i].value, c.value, c.value);
    }
  }

  lemma PutChildSorted(kids: seq<Tree>, c: Tree)
    requires SortedList(kids) && Sorted(c)
    ensures SortedList(PutChild(kids, c))
  {
    var p, n := PutChildParts(kids, c);
    var r := PutChild(kids, c);
    forall i, j | 0 <= i < j < |r|
      ensures Cmp(r[i].value, r[j].value) == Less
    {
      PutChildPair(kids, c, p, n, i, j);
    }
    forall k | k in r
      ensures Sorted(k)
    {
      assert r == r[..p] + [c] + r[p + 1..];
    }
  }

  lemma PutChildPair(kids: seq<Tree>, c: Tree, p: nat, n: nat, i: nat, j: nat)
    requires SortedValues(kids) && i < j < p + 1 + |kids| - n && p <= n <= |kids|
    requires forall i :: 0 <= i < p ==> Cmp(kids[i].value, c.value) == Less
    requires forall i :: n <= i < |kids| ==> Cmp(c.value, kids[i].value) == Less
    ensures var r := kids[..p] + [c] + kids[n..]; Cmp(r[i].value, r[j].value) == Less
  {
  }

  lemma PutChildKid(kids: seq<Tree>, c: Tree, w: Bytes)
    requires SortedList(kids) && Sorted(c)
    ensures Kid(PutChild(kids, c), w) == if w == c.value then Some(c) else Kid(kids, w)
  {
    var p, n := PutChildParts(kids, c);
    var r := PutChild(kids, c);
    PutChildSorted(kids, c);
    if w == c.value {
      KidAt(r, p);
    } else {
      PutChildKeepsOthers(kids, c);
      KidFound(kids, w);
      KidFound(r, w);
      if k :| k in kids && k.value == w {
        KidIn(kids, k);
        KidIn(r, k);
      } else if k :| k in r && k.value == w {
        assert false;
      } else {
        KidAbsent(kids, w);
        KidAbsent(r, w);
      }
    }
  }

  lemma KidIn(kids: seq<Tree>, k: Tree)
    requires SortedValues(kids) && k in kids
    ensures Kid(kids, k.value) == Some(k)
  {
    var i :| 0 <= i < |kids| && kids[i] == k;
    KidAt(kids, i);
  }

  lemma PutChildKeepsOthers(kids: seq<Tree>, c: Tree)
    requires SortedValues(kids)
    ensures c in PutChild(kids, c)
    ensures forall k :: k in kids && k.value != c.value ==> k in PutChild(kids, c)
    ensures forall k :: k in PutChild(kids, c) && k != c ==> k in kids && k.value != c.value
  {
    var p, n := PutChildParts(kids, c);
    var r := PutChild(kids, c);
    CmpOrder(c.value, c.value, c.value);
    forall k
      ensures k in kids && k.value != c.value ==> k in r
      ensures k in r && k != c ==> k in kids && k.value != c.value
    {
      InParts(kids, p, n, k);
      InParts(r, p, p + 1, k);
      assert k in kids[p..n] ==> k.value == c.value;
      assert k in r[p..p + 1] <==> k == c;
    }
    assert r[p] == c;
  }

  lemma InParts(s: seq<Tree>, i: nat, j: nat, k: Tree)
    requires i <= j <= |s|
    ensures k in s <==> k in s[..i] || k in s[i..j] || k in s[j..]
  {
  }

  // ----- insert, one level at a time -----

  /** The child an insert works on: the existing one or a fresh one. */
  function Prior(h: Digest, t: Tree, v: Bytes, update: bool): Tree {
    match Kid(t.children, v) case Some(c) => c case None => FreshChild(h, t, v, update)
  }

  /** The child an insert leaves on its path. */
  function ChildAfter(h: Digest, t: Tree, path: Path, value: Bytes, hash: Option<u64>, update: bool): Tree {
    if path == [] then SetHash(h, Prior(h, t, value, update), hash, update)
    else Insert(h, Prior(h, t, path[0], update), path[1..], value, hash, update)
  }

  lemma InsertKeepsName(h: Digest, t: Tree, path: Path, value: Bytes, hash: Option<u64>, update: bool)
    ensures var r := Insert(h, t, path, value, hash, update);
      r.value == t.value && r.level == t.level && r.manual == t.manual && (update <==> !r.dirty)
  {
  }

  /** The child `GetOrCreateChild` settles on, and the list once that child is replaced. */
  lemma CreateThenReplace(h: Digest, t: Tree, v: Bytes, update: bool, c: Tree)
    requires SortedValues(t.children) && c.value == v
    ensures var r := GetOrCreateChild(h, t.(dirty := true), v, update);
      var p := Position(t.children, v);
      && r.children[p] == Prior(h, t, v, update)
      && r.(children := r.children[p := c]) == t.(dirty := true, children := PutChild(t.children, c))
  {
    var p := Position(t.children, v);
    PositionSplits(t.children, v);
    if !HasAt(t.children, p, v) {
      var made := FreshChild(h, t, v, update);
      assert made == FreshChild(h, t.(dirty := true), v, update);
      assert (t.children[..p] + [made] + t.children[p..])[p := c] == t.children[..p] + [c] + t.children[p..];
    }
  }

  /** An insert is one child put in place, the node dirtied, and its hash refreshed when updating. */
  lemma InsertStep(h: Digest, t: Tree, path: Path, value: Bytes, hash: Option<u64>, update: bool)
    requires SortedValues(t.children)
    ensures var c := ChildAfter(h, t, path, value, hash, update);
      var r := t.(dirty := true, children := PutChild(t.children, c));
      c.value == (path + [value])[0] &&
      Insert(h, t, path, value, hash, update) == if update then UpdateHash(h, r) else r
  {
    var v := if path == [] then value else path[0];
    KidFound(t.children, v);
    var c := ChildAfter(h, t, path, value, hash, update);
    if path != [] {
      InsertKeepsName(h, Prior(h, t, v, update), path[1..], value, hash, update);
    }
    CreateThenReplace(h, t, v, update, c);
  }

  lemma {:induction false} InsertSorted(h: Digest, t: Tree, path: Path, value: Bytes, hash: Option<u64>, update: bool)
    requires Sorted(t)
    ensures Sorted(Insert(h, t, path, value, hash, update))
    decreases |path|
  {
    var v := (path + [value])[0];
    var c := ChildAfter(h, t, path, value, hash, update);
    var prior := Prior(h, t, v, update);
    KidFound(t.children, v);
    assert Sorted(prior);
    if path != [] {
      InsertSorted(h, prior, path[1..], value, hash, update);
    }
    InsertStep(h, t, path, value, hash, update);
    PutChildSorted(t.children, c);
  }

  // ----- what an insert adds -----

  /** The hash pinned at a path, if the path is there and has one. */
  function ManualAt(t: Tree, p: Path): Option<u64> {
    match Lookup(t, p) case Some(n) => n.manual case None => None
  }

  lemma LookupKid(t: Tree, p: Path)
    requires p != []
    ensures Lookup(t, p) == match Kid(t.children, p[0]) case None => None case Some(c) => Lookup(c, p[1..])
  {
  }

  lemma SetHashLookup(h: Digest, t: Tree, hash: Option<u64>, update: bool, q: Path)
    ensures var r := SetHash(h, t, hash, update);
      Has(r, q) == Has(t, q) && ManualAt(r, q) == if q == [] && hash.Some? then hash else ManualAt(t, q)
  {
  }

  /** An insert adds exactly the prefixes of path + [value], and pins the given hash exactly at its end. */
  lemma {:induction false} InsertAdds(h: Digest, t: Tree, path: Path, value: Bytes, hash: Option<u64>, update: bool,
                                      q: Path)
    requires Sorted(t)
    ensures var r := Insert(h, t, path, value, hash, update);
      && (Has(r, q) <==> Has(t, q) || q <= path + [value])
      && ManualAt(r, q) == if q == path + [value] && hash.Some? then hash else ManualAt(t, q)
    decreases |path|, 1
  {
    if q == [] {
      InsertKeepsName(h, t, path, value, hash, update);
    } else {
      assert q == [q[0]] + q[1..];
      InsertAddsBelow(h, t, path, value, hash, update, q[0], q[1..]);
    }
  }

  lemma {:induction false} InsertAddsBelow(h: Digest, t: Tree, path: Path, value: Bytes, hash: Option<u64>,
                                           update: bool, w: Bytes, q: Path)
    requires Sorted(t)
    ensures var r := Insert(h, t, path, value, hash, update);
      && (Has(r, [w] + q) <==> Has(t, [w] + q) || [w] + q <= path + [value])
      && ManualAt(r, [w] + q) == if [w] + q == path + [value] && hash.Some? then hash else ManualAt(t, [w] + q)
    decreases |path|, 0
  {
    var full := path + [value];
    var v, rest := full[0], full[1..];
    assert full == [v] + rest;
    var r := Insert(h, t, path, value, hash, update);
    var c := ChildAfter(h, t, path, value, hash, update);
    InsertLookup(h, t, path, value, hash, update, w, q);
    LookupKid(t, [w] + q);
    if w == v {
      PrefixStep(v, q, rest);
      PriorHas(h, t, v, update, q);
      ChildAfterSorted(h, t, path, value, hash, update);
      if path == [] {
        SetHashLookup(h, Prior(h, t, v, update), hash, update, q);
      } else {
        assert rest == path[1..] + [value];
        InsertAdds(h, Prior(h, t, v, update), path[1..], value, hash, update, q);
      }
    }
  }

  lemma InsertLookup(h: Digest, t: Tree, path: Path, value: Bytes, hash: Option<u64>, update: bool, w: Bytes, q: Path)
    requires Sorted(t)
    ensures Lookup(Insert(h, t, path, value, hash, update), [w] + q) ==
      if w == (path + [value])[0] then Lookup(ChildAfter(h, t, path, value, hash, update), q) else Lookup(t, [w] + q)
  {
    InsertStep(h, t, path, value, hash, update);
    ChildAfterSorted(h, t, path, value, hash, update);
    PutChildKid(t.children, ChildAfter(h, t, path, value, hash, update), w);
    LookupKid(t, [w] + q);
    LookupKid(Insert(h, t, path, value, hash, update), [w] + q);
  }

  lemma PrefixStep(v: Bytes, q: Path, r: Path)
    ensures [v] + q <= [v] + r <==> q <= r
  {
    if [v] + q <= [v] + r {
      assert forall i :: 0 <= i < |q| ==> q[i] == ([v] + q)[i + 1] && r[i] == ([v] + r)[i + 1];
    }
    if q <= r {
      assert [v] + q == ([v] + r)[..1 + |q|];
    }
  }

  /** What can be looked up below the child an insert works on, before it does. */
  lemma PriorHas(h: Digest, t: Tree, v: Bytes, update: bool, q: Path)
    ensures Has(Prior(h, t, v, update), q) <==> Has(t, [v] + q) || q == []
    ensures ManualAt(Prior(h, t, v, update), q) == ManualAt(t, [v] + q)
  {
  }

  lemma ChildAfterSorted(h: Digest, t: Tree, path: Path, value: Bytes, hash: Option<u64>, update: bool)
    requires Sorted(t)
    ensures Sorted(Prior(h, t, (path + [value])[0], update))
    ensures Sorted(ChildAfter(h, t, path, value, hash, update))
  {
    var v := (path + [value])[0];
    var prior := Prior(h, t, v, update);
    KidFound(t.children, v);
    assert Sorted(prior);
    if path != [] {
      InsertSorted(h, prior, path[1..], value, hash, update);
    }
  }

  // ----- what a plain insert leaves cached -----

  /** What a node caches: its hash, the hash pinned to it, and whether it is dirty. */
  function Cached(t: Tree): (u64, Option<u64>, bool) {
    (t.hash, t.manual, t.dirty)
  }

  function CacheAt(t: Tree, q: Path): Option<(u64, Option<u64>, bool)> {
    match Lookup(t, q) case Some(n) => Some(Cached(n)) case None => None
  }

  /** The cache of a node a plain insert passes (dirtied) or ends at (given its hash, otherwise left alone). */
  function Touched(was: Option<(u64, Option<u64>, bool)>, hash: Option<u64>, last: bool): (u64, Option<u64>, bool) {
    var c := match was case Some(c) => c case None => Cached(EMPTY);
    if !last then (c.0, c.1, true)
    else match hash case Some(x) => (x, Some(x), c.2) case None => c
  }

  /** A plain insert dirties the nodes on its path, gives its hash to the last one, and touches no other cache. */
  lemma {:induction false} PlainInsertCache(h: Digest, t: Tree, path: Path, value: Bytes, hash: Option<u64>, q: Path)
    requires Sorted(t)
    ensures CacheAt(Insert(h, t, path, value, hash, false), q) ==
      if q <= path + [value] then Some(Touched(CacheAt(t, q), hash, q == path + [value])) else CacheAt(t, q)
    decreases |path|, 1
  {
    if q != [] {
      assert q == [q[0]] + q[1..];
      PlainInsertCacheBelow(h, t, path, value, hash, q[0], q[1..]);
    } else {
      InsertStep(h, t, path, value, hash, false);
    }
  }

  lemma {:induction false} PlainInsertCacheBelow(h: Digest, t: Tree, path: Path, value: Bytes, hash: Option<u64>,
                                                 w: Bytes, q: Path)
    requires Sorted(t)
    ensures CacheAt(Insert(h, t, path, value, hash, false), [w] + q) ==
      if [w] + q <= path + [value] then Some(Touched(CacheAt(t, [w] + q), hash, [w] + q == path + [value]))
      else CacheAt(t, [w] + q)
    decreases |path|, 0
  {
    var full := path + [value];
    var v, rest := full[0], full[1..];
    assert full == [v] + rest;
    InsertLookup(h, t, path, value, hash, false, w, q);
    if w == v {
      PrefixStep(v, q, rest);
      PriorCache(h, t, v, q);
      ChildAfterSorted(h, t, path, value, hash, false);
      if path == [] {
        SetHashCache(h, Prior(h, t, v, false), hash, q);
      } else {
        assert rest == path[1..] + [value];
        PlainInsertCache(h, Prior(h, t, v, false), path[1..], value, hash, q);
      }
    }
  }

  lemma SetHashCache(h: Digest, t: Tree, hash: Option<u64>, q: Path)
    ensures CacheAt(SetHash(h, t, hash, false), q) ==
      if q == [] then Some(Touched(CacheAt(t, q), hash, true)) else CacheAt(t, q)
  {
  }

  lemma PriorCache(h: Digest, t: Tree, v: Bytes, q: Path)
    ensures CacheAt(Prior(h, t, v, false), q) ==
      if q == [] && !Has(t, [v]) then Some(Cached(EMPTY)) else CacheAt(t, [v] + q)
  {
    HasOne(t, v);
    LookupKid(t, [v] + q);
  }

  // ----- equal path sets -----

  /** Two sorted sibling lists naming the same children are aligned index by index. */
  lemma {:induction false} KidsAlign(xs: seq<Tree>, ys: seq<Tree>)
    requires SortedValues(xs) && SortedValues(ys)
    requires forall v :: Kid(xs, v).Some? <==> Kid(ys, v).Some?
    ensures |xs| == |ys| && forall i :: 0 <= i < |xs| ==> xs[i].value == ys[i].value
  {
    if xs == [] {
      if ys != [] { assert Kid(ys, ys[0].value).Some?; }
    } else {
      var v := xs[0].value;
      assert Kid(xs, v).Some?;
      var w := ys[0].value;
      assert Kid(ys, w).Some?;
      HeadIsLeast(xs, w);
      HeadIsLeast(ys, v);
      CmpOrder(v, w, v);
      assert v == w;
      forall u
        ensures Kid(xs[1..], u).Some? <==> Kid(ys[1..], u).Some?
      {
        assert Kid(xs, u).Some? <==> Kid(ys, u).Some?;
        if u == v {
          HeadIsLeast(xs, v);
          HeadIsLeast(ys, v);
        }
      }
      KidsAlign(xs[1..], ys[1..]);
      assert forall i :: 0 < i < |xs| ==> xs[i] == xs[1..][i - 1];
      assert forall i :: 0 < i < |ys| ==> ys[i] == ys[1..][i - 1];
    }
  }

  lemma HeadIsLeast(xs: seq<Tree>, w: Bytes)
    requires SortedValues(xs) && xs != []
    ensures Kid(xs, w).Some? ==> w == xs[0].value || Cmp(xs[0].value, w) == Less
    ensures Kid(xs[1..], w).Some? ==> Cmp(xs[0].value, w) == Less
    ensures Kid(xs[1..], xs[0].value) == None
  {
    KidAbsent(xs[1..], w);
    KidAbsent(xs[1..], xs[0].value);
    CmpOrder(xs[0].value, xs[0].value, w);
  }

  /** The lookups below a shared child agree when the lookups of the parents do. */
  lemma ChildHas(a: Tree, b: Tree, x: Tree, y: Tree)
    requires Kid(a.children, x.value) == Some(x) && Kid(b.children, x.value) == Some(y)
    requires forall q :: Has(a, q) <==> Has(b, q)
    ensures forall q :: Has(x, q) <==> Has(y, q)
  {
    forall q
      ensures Has(x, q) <==> Has(y, q)
    {
      LookupKid(a, [x.value] + q);
      LookupKid(b, [x.value] + q);
      assert Has(a, [x.value] + q) <==> Has(b, [x.value] + q);
    }
  }

  lemma SameKids(a: Tree, b: Tree)
    requires Sorted(a) && Sorted(b)
    requires forall q :: Has(a, q) <==> Has(b, q)
    ensures |a.children| == |b.children|
    ensures forall i :: 0 <= i < |a.children| ==> a.children[i].value == b.children[i].value
  {
    forall v
      ensures Kid(a.children, v).Some? <==> Kid(b.children, v).Some?
    {
      HasOne(a, v);
      HasOne(b, v);
      assert Has(a, [v]) <==> Has(b, [v]);
    }
    KidsAlign(a.children, b.children);
  }

  lemma HasOne(t: Tree, v: Bytes)
    ensures Has(t, [v]) <==> Kid(t.children, v).Some?
  {
    LookupKid(t, [v]);
    assert [v] + [] == [v];
  }
}
