/** Cached hashes: the canonical hash, when rehashing reaches it, and what updating inserts need. */
module TrieHash {
  import opened Wrappers
  import opened ByteStrings
  import opened Trie
  import opened TrieLookup

  // ----- the canonical hash, defined without looking at any cached one -----

  function CanonInput(h: Digest, t: Tree): Bytes
    decreases t, 0
  {
    LowBytes(Canons(h, t.children)) + t.value
  }

  function Canons(h: Digest, kids: seq<Tree>): (r: seq<u64>)
    ensures |r| == |kids|
    decreases kids
  {
    seq(|kids|, i requires 0 <= i < |kids| => Canon(h, kids[i]))
  }

  function Canon(h: Digest, t: Tree): u64
    decreases t, 1
  {
    match t.manual case Some(m) => m case None => h(CanonInput(h, t))
  }

  /** The tree with every node clean and canonical. */
  function Norm(h: Digest, t: Tree): Tree {
    t.(hash := Canon(h, t), dirty := false, children := NormList(h, t.children))
  }

  function NormList(h: Digest, kids: seq<Tree>): (r: seq<Tree>)
    ensures |r| == |kids|
  {
    seq(|kids|, i requires 0 <= i < |kids| => Norm(h, kids[i]))
  }

  /** A clean node's hash is canonical; only a node without a pinned hash relies on it. */
  ghost predicate Coherent(h: Digest, t: Tree) {
    && (!t.dirty && t.manual == None ==> t.hash == Canon(h, t))
    && forall c :: c in t.children ==> Coherent(h, c)
  }

  /** A pinned hash is also the stored one. */
  ghost predicate Pinned(t: Tree) {
    && (t.manual.Some? ==> t.hash == t.manual.value)
    && forall c :: c in t.children ==> Pinned(c)
  }

  lemma {:induction false} CanonOfNorm(h: Digest, t: Tree)
    ensures Canon(h, Norm(h, t)) == Canon(h, t)
    ensures HashInput(Norm(h, t)) == CanonInput(h, t)
  {
    var kids := NormList(h, t.children);
    forall i | 0 <= i < |kids|
      ensures Canon(h, kids[i]) == Canon(h, t.children[i]) && kids[i].hash == Canon(h, t.children[i])
    {
      assert kids[i] == Norm(h, t.children[i]);
      CanonOfNorm(h, t.children[i]);
    }
    assert Hashes(kids) == Canons(h, t.children);
    assert Canons(h, kids) == Canons(h, t.children);
  }

  lemma {:induction false} NormTwice(h: Digest, t: Tree)
    ensures Norm(h, Norm(h, t)) == Norm(h, t)
  {
    CanonOfNorm(h, t);
    var n := Norm(h, t);
    forall i | 0 <= i < |t.children|
      ensures NormList(h, n.children)[i] == n.children[i]
    {
      NormTwice(h, t.children[i]);
    }
    assert NormList(h, n.children) == n.children;
  }

  /** Rehashing changes no shape and no pinned hash, so the canonical tree stays the same. */
  lemma {:induction false} NormOfRehash(h: Digest, t: Tree)
    ensures Norm(h, Rehash(h, t)) == Norm(h, t)
    ensures Canon(h, Rehash(h, t)) == Canon(h, t)
  {
    var kids := RehashList(h, t.children);
    forall i | 0 <= i < |kids|
      ensures Norm(h, kids[i]) == Norm(h, t.children[i]) && Canon(h, kids[i]) == Canon(h, t.children[i])
    {
      assert kids[i] == Rehash(h, t.children[i]);
      NormOfRehash(h, t.children[i]);
    }
    assert NormList(h, kids) == NormList(h, t.children);
    assert Canons(h, kids) == Canons(h, t.children);
    var r := Rehash(h, t);
    assert r.children == kids && r.value == t.value && r.manual == t.manual && r.level == t.level;
    assert CanonInput(h, r) == CanonInput(h, t);
  }

  /** Rehashing makes every node clean and canonical exactly when the cache was coherent before. */
  lemma {:induction false} RehashCanonicalIff(h: Digest, t: Tree)
    ensures Rehash(h, t) == Norm(h, t) <==> Coherent(h, t)
  {
    var r, n := Rehash(h, t), Norm(h, t);
    var kids := RehashList(h, t.children);
    assert r.children == kids;
    forall i | 0 <= i < |t.children|
      ensures r.children[i] == n.children[i] <==> Coherent(h, t.children[i])
    {
      assert kids[i] == Rehash(h, t.children[i]) && NormList(h, t.children)[i] == Norm(h, t.children[i]);
      RehashCanonicalIff(h, t.children[i]);
    }
    assert r.children == n.children <==> forall i :: 0 <= i < |t.children| ==> Coherent(h, t.children[i]);
    if r.children == n.children {
      CanonOfNorm(h, t);
      assert HashInput(t.(children := r.children)) == CanonInput(h, t);
    }
  }

  lemma {:induction false} NormIsCoherent(h: Digest, t: Tree)
    ensures Coherent(h, Norm(h, t)) && Pinned(Norm(h, t))
  {
    CanonOfNorm(h, t);
    forall c | c in Norm(h, t).children
      ensures Coherent(h, c) && Pinned(c)
    {
      var i :| 0 <= i < |t.children| && c == Norm(h, t.children[i]);
      NormIsCoherent(h, t.children[i]);
    }
  }

  /** A second rehash changes nothing, and after the first every stored hash is canonical. */
  lemma RehashTwice(h: Digest, t: Tree)
    requires Coherent(h, t)
    ensures Rehash(h, Rehash(h, t)) == Rehash(h, t)
    ensures Coherent(h, Rehash(h, t)) && Pinned(Rehash(h, t))
  {
    RehashCanonicalIff(h, t);
    NormIsCoherent(h, t);
    RehashCanonicalIff(h, Norm(h, t));
    NormTwice(h, t);
  }

  lemma CleanIsCanonical(h: Digest, t: Tree, p: Path)
    requires Coherent(h, t) && Pinned(t)
    ensures Has(t, p) && !Lookup(t, p).value.dirty ==> Lookup(t, p).value.hash == Canon(h, Lookup(t, p).value)
    decreases |p|
  {
    if p == [] {
    } else {
      KidFound(t.children, p[0]);
      if Kid(t.children, p[0]).Some? {
        CleanIsCanonical(h, Kid(t.children, p[0]).value, p[1..]);
      }
    }
  }

  // ----- plain inserts -----

  lemma PutChildMembers(kids: seq<Tree>, c: Tree)
    ensures forall k :: k in PutChild(kids, c) ==> k == c || k in kids
  {
  }

  /** A plain insert keeps the cache coherent: everything it passes becomes dirty. */
  lemma {:induction false} PlainInsertCoherent(h: Digest, t: Tree, path: Path, value: Bytes, hash: Option<u64>)
    requires Sorted(t) && Coherent(h, t)
    ensures Coherent(h, Insert(h, t, path, value, hash, false))
    decreases |path|
  {
    var v := (path + [value])[0];
    KidFound(t.children, v);
    InsertStep(h, t, path, value, hash, false);
    var c := ChildAfter(h, t, path, value, hash, false);
    PutChildMembers(t.children, c);
    if path != [] {
      PlainInsertCoherent(h, Prior(h, t, v, false), path[1..], value, hash);
    }
  }

  lemma {:induction false} InsertPinned(h: Digest, t: Tree, path: Path, value: Bytes, hash: Option<u64>, update: bool)
    requires Sorted(t) && Pinned(t)
    ensures Pinned(Insert(h, t, path, value, hash, update))
    decreases |path|
  {
    var v := (path + [value])[0];
    KidFound(t.children, v);
    InsertStep(h, t, path, value, hash, update);
    var c := ChildAfter(h, t, path, value, hash, update);
    PutChildMembers(t.children, c);
    if path != [] {
      InsertPinned(h, Prior(h, t, v, update), path[1..], value, hash, update);
    }
  }
}
