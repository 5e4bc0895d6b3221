/** Runs of trie operations from an empty set: canonical form, and incremental against batch hashing. */
module TrieRuns {
  import opened Wrappers
  import opened ByteStrings
  import opened Trie
  import opened TrieLookup
  import opened TrieHash
  import opened TrieNorm

  datatype Op = Put(path: Path, value: Bytes, hash: Option<u64>, update: bool) | RehashAll

  function Apply(h: Digest, t: Tree, op: Op): Tree {
    match op
    case Put(path, value, hash, update) => Insert(h, t, path, value, hash, update)
    case RehashAll => Rehash(h, t)
  }

  function Init(ops: seq<Op>): seq<Op>
    requires ops != []
  {
    ops[..|ops| - 1]
  }

  function Last(ops: seq<Op>): Op
    requires ops != []
  {
    ops[|ops| - 1]
  }

  function Run(h: Digest, ops: seq<Op>): Tree {
    if ops == [] then EMPTY else Apply(h, Run(h, Init(ops)), Last(ops))
  }

  /** The same inserts, none of them updating, and no rehash in between. */
  function Batch(ops: seq<Op>): seq<Op> {
    if ops == [] then []
    else Batch(Init(ops)) + match Last(ops)
      case Put(path, value, hash, _) => [Put(path, value, hash, false)]
      case RehashAll => []
  }

  /** The paths a run names: every prefix of every inserted path. */
  ghost predicate Names(ops: seq<Op>, q: Path) {
    q == [] || exists i :: 0 <= i < |ops| && ops[i].Put? && q <= ops[i].path + [ops[i].value]
  }

  /** The hash a run pins at a path: the last one given for it. */
  function Pin(ops: seq<Op>, q: Path): Option<u64> {
    if ops == [] then None
    else if Last(ops).Put? && q == Last(ops).path + [Last(ops).value] && Last(ops).hash.Some? then Last(ops).hash
    else Pin(Init(ops), q)
  }

  /** Every updating insert of the run finds its off-path children settled; plain inserts and rehashes are safe. */
  ghost predicate Safe(h: Digest, ops: seq<Op>) {
    ops == [] ||
    (Safe(h, Init(ops)) &&
     (Last(ops).Put? && Last(ops).update ==>
        PathSettled(h, Run(h, Init(ops)), Last(ops).path, Last(ops).value, Last(ops).hash)))
  }

  ghost predicate Leveled(t: Tree) {
    forall c :: c in t.children ==> c.level == t.level + 1 && Leveled(c)
  }

  // ----- what every run keeps -----

  lemma {:induction false} RehashKeepsStructure(h: Digest, t: Tree)
    ensures Sorted(t) ==> Sorted(Rehash(h, t))
    ensures Leveled(t) ==> Leveled(Rehash(h, t))
    ensures Pinned(Rehash(h, t))
  {
    var kids := RehashList(h, t.children);
    forall i | 0 <= i < |kids|
      ensures kids[i].value == t.children[i].value && kids[i].level == t.children[i].level
      ensures Sorted(t.children[i]) ==> Sorted(kids[i])
      ensures Leveled(t.children[i]) ==> Leveled(kids[i])
      ensures Pinned(kids[i])
    {
      assert kids[i] == Rehash(h, t.children[i]);
      RehashKeepsStructure(h, t.children[i]);
    }
    assert Rehash(h, t).children == kids;
  }

  lemma {:induction false} RehashLookup(h: Digest, t: Tree, q: Path)
    ensures Has(Rehash(h, t), q) <==> Has(t, q)
    ensures ManualAt(Rehash(h, t), q) == ManualAt(t, q)
    decreases |q|
  {
    if q == [] {
    } else {
      RehashKid(h, t.children, q[0]);
      assert Rehash(h, t).children == RehashList(h, t.children);
      if Kid(t.children, q[0]).Some? {
        RehashLookup(h, Kid(t.children, q[0]).value, q[1..]);
      }
    }
  }

  lemma {:induction false} RehashKid(h: Digest, kids: seq<Tree>, v: Bytes)
    ensures Kid(RehashList(h, kids), v) == match Kid(kids, v) case Some(c) => Some(Rehash(h, c)) case None => None
  {
    if kids == [] {
    } else {
      assert RehashList(h, kids)[0] == Rehash(h, kids[0]);
      assert RehashList(h, kids)[1..] == RehashList(h, kids[1..]);
      RehashKid(h, kids[1..], v);
    }
  }

  lemma {:induction false} InsertLeveled(h: Digest, t: Tree, path: Path, value: Bytes, hash: Option<u64>, update: bool)
    requires Sorted(t) && Leveled(t)
    ensures Leveled(Insert(h, t, path, value, hash, update))
    decreases |path|
  {
    var v := (path + [value])[0];
    var prior, c := Prior(h, t, v, update), ChildAfter(h, t, path, value, hash, update);
    PriorLeveled(h, t, v, update);
    ChildAfterSorted(h, t, path, value, hash, update);
    assert c.level == t.level + 1 && Leveled(c) by {
      if path != [] {
        InsertLeveled(h, prior, path[1..], value, hash, update);
        InsertKeepsName(h, prior, path[1..], value, hash, update);
      }
    }
    PutChildLeveled(t, c);
    InsertStep(h, t, path, value, hash, update);
  }

  lemma PriorLeveled(h: Digest, t: Tree, v: Bytes, update: bool)
    requires Leveled(t)
    ensures var c := Prior(h, t, v, update); c.level == t.level + 1 && Leveled(c)
  {
    KidFound(t.children, v);
  }

  lemma PutChildLeveled(t: Tree, c: Tree)
    requires Leveled(t) && Leveled(c) && c.level == t.level + 1
    ensures forall k :: k in PutChild(t.children, c) ==> k.level == t.level + 1 && Leveled(k)
  {
  }

  lemma {:induction false} RunStructure(h: Digest, ops: seq<Op>)
    ensures var t := Run(h, ops);
      Sorted(t) && Leveled(t) && Pinned(t) && t.value == [] && t.level == 0 && t.manual == None
  {
    if ops == [] {
    } else {
      RunStructure(h, Init(ops));
      var t := Run(h, Init(ops));
      match Last(ops)
      case Put(path, value, hash, update) =>
        InsertSorted(h, t, path, value, hash, update);
        InsertLeveled(h, t, path, value, hash, update);
        InsertPinned(h, t, path, value, hash, update);
        InsertKeepsName(h, t, path, value, hash, update);
      case RehashAll =>
        RehashKeepsStructure(h, t);
    }
  }

  lemma ApplyHas(h: Digest, t: Tree, op: Op, q: Path)
    requires Sorted(t)
    ensures Has(Apply(h, t, op), q) <==> Has(t, q) || (op.Put? && q <= op.path + [op.value])
    ensures ManualAt(Apply(h, t, op), q) ==
      if op.Put? && q == op.path + [op.value] && op.hash.Some? then op.hash else ManualAt(t, q)
  {
    match op
    case Put(path, value, hash, update) => InsertAdds(h, t, path, value, hash, update, q);
    case RehashAll => RehashLookup(h, t, q);
  }

  /** A run holds exactly the prefixes of what it inserted, each with the last hash pinned there. */
  lemma {:induction false} RunHas(h: Digest, ops: seq<Op>, q: Path)
    ensures Has(Run(h, ops), q) <==> Names(ops, q)
    ensures ManualAt(Run(h, ops), q) == Pin(ops, q)
  {
    if ops == [] {
    } else {
      RunStructure(h, Init(ops));
      RunHas(h, Init(ops), q);
      ApplyHas(h, Run(h, Init(ops)), Last(ops), q);
      NamesStep(ops, q);
    }
  }

  lemma NamesStep(ops: seq<Op>, q: Path)
    requires ops != []
    ensures Names(ops, q) <==> Names(Init(ops), q) || (Last(ops).Put? && q <= Last(ops).path + [Last(ops).value])
  {
  }

  /** Over every safe run the cache is coherent. */
  lemma {:induction false} RunCoherent(h: Digest, ops: seq<Op>)
    requires Safe(h, ops)
    ensures Coherent(h, Run(h, ops))
  {
    if ops == [] {
    } else {
      RunCoherent(h, Init(ops));
      RunStructure(h, Init(ops));
      var t := Run(h, Init(ops));
      match Last(ops)
      case Put(path, value, hash, update) =>
        if update {
          UpdatingInsertCoherentIff(h, t, path, value, hash);
        } else {
          PlainInsertCoherent(h, t, path, value, hash);
        }
      case RehashAll =>
        RehashTwice(h, t);
    }
  }

  /** In particular every clean node met on a safe run stores its canonical hash. */
  lemma SafeRunCleanIsCanonical(h: Digest, ops: seq<Op>, p: Path)
    requires Safe(h, ops)
    ensures var t := Run(h, ops);
      Has(t, p) && !Lookup(t, p).value.dirty ==> Lookup(t, p).value.hash == Canon(h, Lookup(t, p).value)
  {
    RunCoherent(h, ops);
    RunStructure(h, ops);
    CleanIsCanonical(h, Run(h, ops), p);
  }

  // ----- incremental against batch -----

  /** Settling a run gives what settling its batch gives, however updates and rehashes were mixed in. */
  lemma {:induction false} RunNorm(h: Digest, ops: seq<Op>)
    ensures Norm(h, Run(h, ops)) == Norm(h, Run(h, Batch(ops)))
  {
    if ops == [] {
    } else {
      RunNorm(h, Init(ops));
      var t, b := Run(h, Init(ops)), Run(h, Batch(Init(ops)));
      match Last(ops)
      case Put(path, value, hash, update) =>
        RunStructure(h, Init(ops));
        RunStructure(h, Batch(Init(ops)));
        InsertCommutesWithNorm(h, t, path, value, hash, update);
        InsertCommutesWithNorm(h, b, path, value, hash, false);
        assert Init(Batch(ops)) == Batch(Init(ops));
      case RehashAll =>
        NormOfRehash(h, t);
        assert Batch(ops) == Batch(Init(ops));
    }
  }

  lemma {:induction false} BatchIsSafe(h: Digest, ops: seq<Op>)
    ensures Safe(h, Batch(ops))
  {
    if ops == [] {
    } else {
      BatchIsSafe(h, Init(ops));
      match Last(ops)
      case Put(path, value, hash, update) => assert Init(Batch(ops)) == Batch(Init(ops));
      case RehashAll => assert Batch(ops) == Batch(Init(ops));
    }
  }

  /** Any run rehashes to the batch of its inserts, field for field, exactly if its cache is coherent. */
  lemma RunRefinesBatchIff(h: Digest, ops: seq<Op>)
    ensures Rehash(h, Run(h, ops)) == Rehash(h, Run(h, Batch(ops))) <==> Coherent(h, Run(h, ops))
  {
    BatchIsSafe(h, ops);
    RunCoherent(h, Batch(ops));
    RehashCanonicalIff(h, Run(h, ops));
    RehashCanonicalIff(h, Run(h, Batch(ops)));
    RunNorm(h, ops);
  }

  /** In particular a safe run does, however incremental. */
  lemma SafeRunRefinesBatch(h: Digest, ops: seq<Op>)
    requires Safe(h, ops)
    ensures Rehash(h, Run(h, ops)) == Rehash(h, Run(h, Batch(ops)))
  {
    RunCoherent(h, ops);
    RunRefinesBatchIff(h, ops);
  }

  /** An updating insert reads neither the root's hash nor its dirty flag. */
  lemma UpdatingInsertIgnoresRootCache(h: Digest, t: Tree, x: u64, y: bool, op: Op)
    requires Sorted(t) && op.Put? && op.update
    ensures Apply(h, t.(hash := x, dirty := y), op) == Apply(h, t, op)
  {
    var u := t.(hash := x, dirty := y);
    var Put(path, value, hash, _) := op;
    InsertStep(h, t, path, value, hash, true);
    InsertStep(h, u, path, value, hash, true);
    var v := if path == [] then value else path[0];
    SamePrior(h, t, x, y, v);
    var c := ChildAfter(h, t, path, value, hash, true);
    assert c == ChildAfter(h, u, path, value, hash, true);
    SameUpdate(h, t, x, y, PutChild(t.children, c));
  }

  lemma SamePrior(h: Digest, t: Tree, x: u64, y: bool, v: Bytes)
    ensures Prior(h, t.(hash := x, dirty := y), v, true) == Prior(h, t, v, true)
  {
  }

  lemma SameUpdate(h: Digest, t: Tree, x: u64, y: bool, kids: seq<Tree>)
    ensures UpdateHash(h, t.(hash := x, dirty := y).(dirty := true, children := kids)) ==
      UpdateHash(h, t.(dirty := true, children := kids))
  {
  }

  /**
   * Inserting one by one with updates needs no rehash at the end: any non-empty list of updating inserts on a fresh
   * set gives the tree of the same plain inserts followed by one rehash.
   */
  lemma {:induction false} UpdatingRunIsBatchRehashed(h: Digest, ops: seq<Op>)
    requires ops != [] && forall op :: op in ops ==> op.Put? && op.update
    ensures Run(h, ops) == Rehash(h, Run(h, Batch(ops)))
  {
    var t := Run(h, Init(ops));
    var op := Last(ops);
    assert op in ops;
    RunStructure(h, Init(ops));
    if |ops| == 1 {
      UpdatingInsertIgnoresRootCache(h, EMPTY, Canon(h, EMPTY), false, op);
      assert Norm(h, EMPTY) == EMPTY.(hash := Canon(h, EMPTY), dirty := false);
    } else {
      UpdatingRunIsBatchRehashed(h, Init(ops));
      BatchIsSafe(h, Init(ops));
      RunCoherent(h, Batch(Init(ops)));
      RehashCanonicalIff(h, Run(h, Batch(Init(ops))));
      NormTwice(h, Run(h, Batch(Init(ops))));
    }
    InsertCommutesWithNorm(h, t, op.path, op.value, op.hash, true);
    RunNorm(h, ops);
    BatchIsSafe(h, ops);
    RunCoherent(h, Batch(ops));
    RehashCanonicalIff(h, Run(h, Batch(ops)));
  }

  // ----- canonical form -----

  /** The pinned hashes below a shared child agree when those below the parents do. */
  lemma ChildPins(a: Tree, b: Tree, x: Tree, y: Tree)
    requires Kid(a.children, x.value) == Some(x) && Kid(b.children, x.value) == Some(y)
    requires forall q :: ManualAt(a, q) == ManualAt(b, q)
    ensures forall q :: ManualAt(x, q) == ManualAt(y, q)
  {
    forall q
      ensures ManualAt(x, q) == ManualAt(y, q)
    {
      LookupKid(a, [x.value] + q);
      LookupKid(b, [x.value] + q);
      assert ManualAt(a, [x.value] + q) == ManualAt(b, [x.value] + q);
    }
  }

  lemma {:induction false} NormDetermined(h: Digest, a: Tree, b: Tree)
    requires Sorted(a) && Sorted(b) && Leveled(a) && Leveled(b)
    requires a.value == b.value && a.level == b.level
    requires forall q :: Has(a, q) <==> Has(b, q)
    requires forall q :: ManualAt(a, q) == ManualAt(b, q)
    ensures Norm(h, a) == Norm(h, b)
  {
    SameKids(a, b);
    assert ManualAt(a, []) == ManualAt(b, []);
    forall i | 0 <= i < |a.children|
      ensures Norm(h, a.children[i]) == Norm(h, b.children[i])
    {
      KidAt(a.children, i);
      KidAt(b.children, i);
      ChildHas(a, b, a.children[i], b.children[i]);
      ChildPins(a, b, a.children[i], b.children[i]);
      NormDetermined(h, a.children[i], b.children[i]);
    }
    NormFromKids(h, a, b);
  }

  lemma NormFromKids(h: Digest, a: Tree, b: Tree)
    requires a.value == b.value && a.level == b.level && a.manual == b.manual && |a.children| == |b.children|
    requires forall i :: 0 <= i < |a.children| ==> Norm(h, a.children[i]) == Norm(h, b.children[i])
    ensures Norm(h, a) == Norm(h, b)
  {
    assert NormList(h, a.children) == NormList(h, b.children);
    CanonsOfNorm(h, a.children);
    CanonsOfNorm(h, b.children);
    assert CanonInput(h, a) == CanonInput(h, b);
  }

  lemma CanonsOfNorm(h: Digest, kids: seq<Tree>)
    ensures Canons(h, kids) == Hashes(NormList(h, kids))
  {
  }

  /**
   * Canonical form: two safe runs that name the same paths and pin the same hashes rehash to the same tree, whatever
   * the order, the repetitions and the mixture of plain inserts, updating inserts and rehashes.
   */
  lemma RunsCanonical(h: Digest, xs: seq<Op>, ys: seq<Op>)
    requires Safe(h, xs) && Safe(h, ys)
    requires forall q :: Names(xs, q) <==> Names(ys, q)
    requires forall q :: Pin(xs, q) == Pin(ys, q)
    ensures Rehash(h, Run(h, xs)) == Rehash(h, Run(h, ys))
  {
    var a, b := Run(h, xs), Run(h, ys);
    RunStructure(h, xs);
    RunStructure(h, ys);
    forall q
      ensures (Has(a, q) <==> Has(b, q)) && ManualAt(a, q) == ManualAt(b, q)
    {
      RunHas(h, xs, q);
      RunHas(h, ys, q);
      assert Names(xs, q) <==> Names(ys, q);
      assert Pin(xs, q) == Pin(ys, q);
    }
    NormDetermined(h, a, b);
    RunCoherent(h, xs);
    RunCoherent(h, ys);
    RehashCanonicalIff(h, a);
    RehashCanonicalIff(h, b);
  }

  // ----- the mixed run that goes stale -----

  /** A fresh childless node. */
  function Leaf(v: Bytes, level: nat): Tree {
    EMPTY.(value := v, level := level)
  }

  lemma LeafInput(h: Digest, v: Bytes, level: nat)
    ensures CanonInput(h, Leaf(v, level)) == v
  {
    assert Canons(h, []) == [];
    assert LowBytes([]) + v == v;
  }

  lemma LeafCanon(h: Digest, v: Bytes, level: nat)
    ensures Canon(h, Leaf(v, level)) == h(v)
  {
    LeafInput(h, v, level);
  }

  /** A plain insert of one name, then an updating insert of another. */
  function Mixed(v: Bytes, w: Bytes): seq<Op> {
    [Put([], v, None, false), Put([], w, None, true)]
  }

  /** What a root with the children v and w is hashed from, when they store x and y. */
  function PairBytes(v: Bytes, x: u64, w: Bytes, y: u64): Bytes {
    if Cmp(v, w) == Less then Be32(x) + Be32(y) else Be32(y) + Be32(x)
  }

  /** The root's children after the two inserts: the first still unhashed, the second hashed. */
  function MixedKids(h: Digest, v: Bytes, w: Bytes): seq<Tree> {
    var one, two := Leaf(v, 1), UpdateHash(h, Leaf(w, 1));
    if Cmp(v, w) == Less then [one, two] else [two, one]
  }

  lemma MixedRunTree(h: Digest, v: Bytes, w: Bytes)
    requires v != w
    ensures Run(h, Mixed(v, w)) == UpdateHash(h, EMPTY.(children := MixedKids(h, v, w)))
  {
    var one, two := Leaf(v, 1), UpdateHash(h, Leaf(w, 1));
    var first := [Put([], v, None, false)];
    assert Init(Mixed(v, w)) == first && Init(first) == [];
    InsertStep(h, EMPTY, [], v, None, false);
    var t1 := EMPTY.(children := [one]);
    assert Run(h, first) == t1;
    InsertStep(h, t1, [], w, None, true);
    KidAbsent([one], w);
    assert ChildAfter(h, t1, [], w, None, true) == two;
    PutSecond(one, two);
    assert Last(Mixed(v, w)) == Put([], w, None, true);
  }

  /** Where the second of two children goes. */
  lemma PutSecond(one: Tree, two: Tree)
    requires one.value != two.value
    ensures PutChild([one], two) == if Cmp(one.value, two.value) == Less then [one, two] else [two, one]
  {
    assert Position([one][1..], two.value) == 0;
  }

  lemma MixedRootInputs(h: Digest, v: Bytes, w: Bytes)
    ensures var t := EMPTY.(children := MixedKids(h, v, w));
      HashInput(t) == PairBytes(v, 0, w, h(w)) && CanonInput(h, t) == PairBytes(v, h(v), w, h(w))
  {
    var one, two := Leaf(v, 1), UpdateHash(h, Leaf(w, 1));
    var kids := MixedKids(h, v, w);
    LeafCanon(h, v, 1);
    LeafCanon(h, w, 1);
    assert Canon(h, two) == h(w) == two.hash;
    PairLow(Hashes(kids));
    PairLow(Canons(h, kids));
  }

  lemma MixedKidsCoherent(h: Digest, v: Bytes, w: Bytes)
    ensures forall c :: c in MixedKids(h, v, w) ==> Coherent(h, c)
  {
    var two := UpdateHash(h, Leaf(w, 1));
    LeafCanon(h, w, 1);
    assert Canon(h, two) == h(w) == two.hash;
  }

  lemma PairLow(xs: seq<u64>)
    requires |xs| == 2
    ensures LowBytes(xs) + [] == Be32(xs[0]) + Be32(xs[1])
  {
    var last := xs[1..];
    assert LowBytes(last) == Be32(last[0]) + LowBytes(last[1..]);
    assert last[1..] == [] && LowBytes(last[1..]) == [];
    NothingAdded(Be32(last[0]));
    NothingAdded(Be32(xs[0]) + Be32(last[0]));
  }

  lemma NothingAdded(b: Bytes)
    ensures b + [] == b
  {
  }

  /** Once the children are coherent, the refreshed root is so exactly if the digest gives its canonical hash. */
  lemma RootCoherentIff(h: Digest, t: Tree)
    requires t.manual == None && t.dirty && forall c :: c in t.children ==> Coherent(h, c)
    ensures Coherent(h, UpdateHash(h, t)) <==> h(HashInput(t)) == h(CanonInput(h, t))
  {
    SameInputs(h, t);
  }

  /**
   * A plain insert followed by an updating one leaves the root clean, with a hash computed from the first child's unset
   * one, and a later rehash skips the root.  So for every digest the two rehash to their batch exactly if the digest
   * does not tell the unset hash from the real one.
   */
  lemma MixedRunIff(h: Digest, v: Bytes, w: Bytes)
    requires v != w
    ensures Rehash(h, Run(h, Mixed(v, w))) == Rehash(h, Run(h, Batch(Mixed(v, w)))) <==>
      h(PairBytes(v, 0, w, h(w))) == h(PairBytes(v, h(v), w, h(w)))
  {
    MixedRunTree(h, v, w);
    RunRefinesBatchIff(h, Mixed(v, w));
    MixedRootInputs(h, v, w);
    MixedKidsCoherent(h, v, w);
    RootCoherentIff(h, EMPTY.(children := MixedKids(h, v, w)));
  }

  /** A digest that only sees whether the fourth byte of a longer input is zero. */
  function FourthByteDigest(b: Bytes): u64 {
    if |b| >= 4 && b[3] == 0 then 1 else 2
  }

  /** Such digests exist: this one tells the two apart. */
  lemma MixedRunGoesStale()
    ensures var h, mixed := FourthByteDigest, Mixed([1], [2]);
      !Safe(h, mixed) && Rehash(h, Run(h, mixed)) != Rehash(h, Run(h, Batch(mixed)))
  {
    var h, mixed := FourthByteDigest, Mixed([1], [2]);
    assert (Be32(0) + Be32(2))[3] == 0 && (Be32(2) + Be32(2))[3] == 2;
    MixedRunIff(h, [1], [2]);
    if Safe(h, mixed) {
      SafeRunRefinesBatch(h, mixed);
    }
  }
}
