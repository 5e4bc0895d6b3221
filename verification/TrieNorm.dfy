/** Updating inserts on a settled trie compute what plain inserts and one rehash compute. */
module TrieNorm {
  import opened Wrappers
  import opened ByteStrings
  import opened Trie
  import opened TrieLookup
  import opened TrieHash

  lemma {:induction false} NormPosition(h: Digest, kids: seq<Tree>, v: Bytes)
    ensures Position(NormList(h, kids), v) == Position(kids, v)
    ensures Kid(NormList(h, kids), v) == match Kid(kids, v) case Some(c) => Some(Norm(h, c)) case None => None
  {
    if kids == [] {
    } else {
      NormPosition(h, kids[1..], v);
      assert NormList(h, kids)[1..] == NormList(h, kids[1..]);
    }
  }

  lemma NormPutChild(h: Digest, kids: seq<Tree>, c: Tree)
    ensures PutChild(NormList(h, kids), Norm(h, c)) == NormList(h, PutChild(kids, c))
  {
    NormPosition(h, kids, c.value);
    var p := Position(kids, c.value);
    assert HasAt(NormList(h, kids), p, c.value) <==> HasAt(kids, p, c.value);
    if HasAt(kids, p, c.value) {
      assert NormList(h, kids)[p := Norm(h, c)] == NormList(h, kids[p := c]);
    } else {
      assert NormList(h, kids)[..p] + [Norm(h, c)] + NormList(h, kids)[p..] == NormList(h, kids[..p] + [c] + kids[p..]);
    }
  }

  lemma {:induction false} NormSorted(h: Digest, t: Tree)
    requires Sorted(t)
    ensures Sorted(Norm(h, t))
  {
    var kids := NormList(h, t.children);
    forall i | 0 <= i < |kids|
      ensures kids[i].value == t.children[i].value
    {
      assert kids[i] == Norm(h, t.children[i]);
    }
    forall c | c in kids
      ensures Sorted(c)
    {
      var i :| 0 <= i < |t.children| && c == kids[i];
      assert c == Norm(h, t.children[i]);
      NormSorted(h, t.children[i]);
    }
  }

  /** A node whose children are settled gets the canonical hash when it is next updated. */
  lemma UpdateReachesNorm(h: Digest, t: Tree, kids: seq<Tree>)
    ensures UpdateHash(h, Norm(h, t).(dirty := true, children := NormList(h, kids))) ==
      Norm(h, t.(dirty := true, children := kids))
  {
    var n, t2 := NormList(h, kids), t.(dirty := true, children := kids);
    forall i | 0 <= i < |kids|
      ensures Hashes(n)[i] == Canons(h, kids)[i]
    {
      assert n[i] == Norm(h, kids[i]);
    }
    assert Hashes(n) == Canons(h, kids);
    assert CanonInput(h, t2) == HashInput(t2.(children := n));
  }

  lemma NormOfUpdate(h: Digest, t: Tree)
    ensures Norm(h, UpdateHash(h, t)) == Norm(h, t)
  {
    var r := UpdateHash(h, t);
    assert r.children == t.children && CanonInput(h, r) == CanonInput(h, t);
  }

  lemma NormPrior(h: Digest, t: Tree, v: Bytes, update: bool)
    ensures Prior(h, Norm(h, t), v, true) == Norm(h, Prior(h, t, v, update))
  {
    NormPosition(h, t.children, v);
    var node := EMPTY.(value := v, level := t.level + 1);
    NormOfUpdate(h, node);
    assert NormList(h, []) == [];
    UpdateReachesNorm(h, node, []);
    assert FreshChild(h, Norm(h, t), v, true) == Norm(h, node);
  }

  lemma NormSetHash(h: Digest, c: Tree, hash: Option<u64>, update: bool)
    ensures SetHash(h, Norm(h, c), hash, true) == Norm(h, SetHash(h, c, hash, update))
  {
    NormOfUpdate(h, c);
  }

  /** Inserting with updates into the settled tree settles what the insert, updating or not, leaves. */
  lemma {:induction false} InsertCommutesWithNorm(h: Digest, t: Tree, path: Path, value: Bytes, hash: Option<u64>,
                                                  update: bool)
    requires Sorted(t)
    ensures Insert(h, Norm(h, t), path, value, hash, true) == Norm(h, Insert(h, t, path, value, hash, update))
    decreases |path|
  {
    var n := Norm(h, t);
    var c := ChildAfter(h, t, path, value, hash, update);
    assert ChildAfter(h, n, path, value, hash, true) == Norm(h, c) by {
      if path == [] {
        NormPrior(h, t, value, update);
        NormSetHash(h, Prior(h, t, value, update), hash, update);
      } else {
        NormPrior(h, t, path[0], update);
        ChildAfterSorted(h, t, path, value, hash, update);
        InsertCommutesWithNorm(h, Prior(h, t, path[0], update), path[1..], value, hash, update);
      }
    }
    NormSorted(h, t);
    InsertStep(h, n, path, value, hash, true);
    InsertStep(h, t, path, value, hash, update);
    NormPutChild(h, t.children, c);
    var kids := PutChild(t.children, c);
    UpdateReachesNorm(h, t, kids);
    NormOfUpdate(h, t.(dirty := true, children := kids));
  }

  // ----- when an updating insert keeps the cache coherent -----

  /** The low halves a parent would read from these children are the canonical ones. */
  ghost predicate Settled(h: Digest, kids: seq<Tree>, except: Option<Bytes>) {
    forall c :: c in kids && except != Some(c.value) ==> Low32(c.hash) == Low32(Canon(h, c))
  }

  /** What an updating insert reads on its way: at each node it refreshes, the children off its path are settled. */
  ghost predicate PathSettled(h: Digest, t: Tree, path: Path, value: Bytes, hash: Option<u64>)
    decreases |path|
  {
    var v := if path == [] then value else path[0];
    var next := Prior(h, t, v, true);
    && (t.manual == None ==> Settled(h, t.children, Some(v)))
    && if path == [] then hash == None && next.manual == None && next.dirty ==> Settled(h, next.children, None)
       else PathSettled(h, next, path[1..], value, hash)
  }

  /** The digest tells what a node is hashed from apart from what it should be hashed from. */
  ghost predicate Tells(h: Digest, t: Tree) {
    h(HashInput(t)) == h(CanonInput(h, t)) ==> HashInput(t) == CanonInput(h, t)
  }

  /** The digest tells so at every node along a path. */
  ghost predicate DigestTells(h: Digest, t: Tree, path: Path)
    decreases |path|
  {
    && Tells(h, t)
    && (path != [] && Kid(t.children, path[0]).Some? ==> DigestTells(h, Kid(t.children, path[0]).value, path[1..]))
  }

  lemma {:induction false} LowBytesEqual(a: seq<u64>, b: seq<u64>)
    requires |a| == |b|
    ensures LowBytes(a) == LowBytes(b) <==> forall i :: 0 <= i < |a| ==> Low32(a[i]) == Low32(b[i])
  {
    if a == [] {
    } else {
      LowBytesEqual(a[1..], b[1..]);
      Be32KeepsLow32(a[0], b[0]);
      var x, y := Be32(a[0]), Be32(b[0]);
      assert LowBytes(a)[..4] == x && LowBytes(a)[4..] == LowBytes(a[1..]);
      assert LowBytes(b)[..4] == y && LowBytes(b)[4..] == LowBytes(b[1..]);
      assert forall i :: 0 < i < |a| ==> a[i] == a[1..][i - 1] && b[i] == b[1..][i - 1];
      assert forall i :: 0 <= i < |a[1..]| ==> a[1..][i] == a[i + 1] && b[1..][i] == b[i + 1];
    }
  }

  lemma {:induction false} LowBytesLength(a: seq<u64>)
    ensures |LowBytes(a)| == 4 * |a|
  {
    if a != [] { LowBytesLength(a[1..]); }
  }

  lemma InputsEqualIffSettled(h: Digest, t: Tree)
    ensures HashInput(t) == CanonInput(h, t) <==> Settled(h, t.children, None)
  {
    var a, b := Hashes(t.children), Canons(h, t.children);
    LowBytesEqual(a, b);
    LowBytesLength(a);
    LowBytesLength(b);
    assert HashInput(t)[..4 * |a|] == LowBytes(a);
    assert CanonInput(h, t)[..4 * |a|] == LowBytes(b);
    assert forall i :: 0 <= i < |a| ==> a[i] == t.children[i].hash && b[i] == Canon(h, t.children[i]);
    assert (forall i :: 0 <= i < |a| ==> Low32(a[i]) == Low32(b[i])) <==> Settled(h, t.children, None);
  }

  /** Refreshing one dirty node: canonical when its children are settled, and only then if the digest tells. */
  lemma UpdateCoherentIff(h: Digest, t: Tree)
    requires t.dirty && forall c :: c in t.children ==> Coherent(h, c)
    ensures var r := UpdateHash(h, t);
      ((t.manual == None ==> Settled(h, t.children, None)) ==> Coherent(h, r)) &&
      (Coherent(h, r) && Tells(h, t) ==> (t.manual == None ==> Settled(h, t.children, None)))
  {
    InputsEqualIffSettled(h, t);
    assert UpdateHash(h, t).children == t.children;
    assert CanonInput(h, UpdateHash(h, t)) == CanonInput(h, t);
  }

  lemma SettledAfterPut(h: Digest, kids: seq<Tree>, c: Tree)
    requires SortedValues(kids) && c.hash == Canon(h, c)
    ensures Settled(h, PutChild(kids, c), None) <==> Settled(h, kids, Some(c.value))
  {
    PutChildKeepsOthers(kids, c);
  }

  /** The refreshed parent of a settled child. */
  lemma ParentCoherentIff(h: Digest, t: Tree, c: Tree)
    requires SortedValues(t.children) && Coherent(h, t) && Coherent(h, c) && c.hash == Canon(h, c)
    ensures var r := UpdateHash(h, t.(dirty := true, children := PutChild(t.children, c)));
      var settled := t.manual == None ==> Settled(h, t.children, Some(c.value));
      (settled ==> Coherent(h, r)) && (Coherent(h, r) && Tells(h, r) ==> settled)
  {
    var kids := PutChild(t.children, c);
    var t2 := t.(dirty := true, children := kids);
    PutChildMembers(t.children, c);
    assert forall k :: k in kids ==> Coherent(h, k);
    SettledAfterPut(h, t.children, c);
    UpdateCoherentIff(h, t2);
    SameInputs(h, t2);
  }

  lemma SameInputs(h: Digest, t: Tree)
    ensures var r := UpdateHash(h, t); HashInput(r) == HashInput(t) && CanonInput(h, r) == CanonInput(h, t)
  {
  }

  /**
   * An updating insert leaves a coherent cache when every node it refreshes finds the children it does not visit
   * settled, and only then if the digest tells stale inputs from canonical ones.
   */
  lemma {:induction false} UpdatingInsertCoherentIff(h: Digest, t: Tree, path: Path, value: Bytes, hash: Option<u64>)
    requires Sorted(t) && Coherent(h, t) && Pinned(t)
    ensures var r := Insert(h, t, path, value, hash, true);
      (PathSettled(h, t, path, value, hash) ==> Coherent(h, r)) &&
      (Coherent(h, r) && DigestTells(h, r, path + [value]) ==> PathSettled(h, t, path, value, hash))
    decreases |path|
  {
    var v := if path == [] then value else path[0];
    var prior := Prior(h, t, v, true);
    var c := ChildAfter(h, t, path, value, hash, true);
    var r := Insert(h, t, path, value, hash, true);
    ChildAfterSorted(h, t, path, value, hash, true);
    PriorCoherent(h, t, v);
    if path == [] {
      TargetCoherentIff(h, prior, hash);
    } else {
      UpdatingInsertCoherentIff(h, prior, path[1..], value, hash);
    }
    InsertStep(h, t, path, value, hash, true);
    UpdatedChild(h, t, path, value, hash);
    assert (path + [value])[1..] == if path == [] then [] else path[1..] + [value];
    if Coherent(h, c) {
      ChildAfterCanonical(h, t, path, value, hash);
      ParentCoherentIff(h, t, c);
    }
  }

  /** The child on the path is part of the result, and the digest hypothesis passes down to it. */
  lemma UpdatedChild(h: Digest, t: Tree, path: Path, value: Bytes, hash: Option<u64>)
    requires Sorted(t)
    ensures var r := Insert(h, t, path, value, hash, true);
      var c := ChildAfter(h, t, path, value, hash, true);
      && c in r.children
      && (DigestTells(h, r, path + [value]) ==> Tells(h, r) && DigestTells(h, c, (path + [value])[1..]))
  {
    var c := ChildAfter(h, t, path, value, hash, true);
    InsertStep(h, t, path, value, hash, true);
    ChildAfterSorted(h, t, path, value, hash, true);
    PutChildKid(t.children, c, c.value);
    KidFound(PutChild(t.children, c), c.value);
  }

  lemma PriorCoherent(h: Digest, t: Tree, v: Bytes)
    requires Sorted(t) && Coherent(h, t) && Pinned(t)
    ensures var c := Prior(h, t, v, true); Sorted(c) && Coherent(h, c) && Pinned(c)
  {
    KidFound(t.children, v);
    FreshCoherent(h, t, v);
  }

  /** Once coherent, the child an updating insert leaves carries its canonical hash. */
  lemma ChildAfterCanonical(h: Digest, t: Tree, path: Path, value: Bytes, hash: Option<u64>)
    requires Sorted(t) && Pinned(t) && Coherent(h, ChildAfter(h, t, path, value, hash, true))
    ensures var c := ChildAfter(h, t, path, value, hash, true); c.hash == Canon(h, c)
  {
  }

  lemma FreshCoherent(h: Digest, t: Tree, v: Bytes)
    ensures var c := FreshChild(h, t, v, true); Coherent(h, c) && Pinned(c) && !c.dirty
  {
  }

  lemma TargetCoherentIff(h: Digest, c: Tree, hash: Option<u64>)
    requires Coherent(h, c) && Pinned(c)
    ensures var r := SetHash(h, c, hash, true);
      var settled := hash == None && c.manual == None && c.dirty ==> Settled(h, c.children, None);
      (settled ==> Coherent(h, r)) && (Coherent(h, r) && Tells(h, r) ==> settled)
  {
    var r := SetHash(h, c, hash, true);
    assert r.children == c.children;
    assert CanonInput(h, r) == CanonInput(h, c) && HashInput(r) == HashInput(c);
    if hash == None && c.dirty {
      UpdateCoherentIff(h, c);
    }
  }
}
