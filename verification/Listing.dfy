/** What callers are told: the documents a list query answers with, against what they asked for. */
module Listing {
  import opened Wrappers
  import opened Premints
  import opened PremintTable
  import opened Gate

  /** The document has the kind, chain, collection and signer asked for, in its own metadata. */
  predicate Matches(o: QueryOptions, p: Premint) {
    var m := MetadataOf(p);
    && (o.kind.Some? ==> m.kind == o.kind.value)
    && (o.chainId.Some? ==> m.chainId == o.chainId.value)
    && (o.collection.Some? ==> m.collection == o.collection.value)
    && (o.creator.Some? ==> m.signer == o.creator.value)
  }

  predicate InTime(o: QueryOptions, createdAt: nat) {
    (o.from.Some? ==> o.from.value <= createdAt) && (o.until.Some? ==> createdAt <= o.until.value)
  }

  /** In an orderly row the columns asked for are the document's. */
  lemma WantedMatches(o: QueryOptions, k: Key, r: Row)
    requires ColumnsAgree(k, r) && r.signer == MetadataOf(r.json).signer
    ensures Wanted(o, k, r) <==> !r.seen && Matches(o, r.json) && InTime(o, r.createdAt)
  {
  }

  /** A document is listed exactly if it is the current one of an unseen row, matches the options, and is in time. */
  lemma ListedIff(t: Table, o: QueryOptions, ps: seq<Premint>, p: Premint)
    requires Columns(t) && Signers(t) && Lists(t, o, ps)
    ensures p in ps <==>
      var k := KeyOf(p);
      k in t && t[k].json == p && !t[k].seen && Matches(o, p) && InTime(o, t[k].createdAt)
  {
    var k := KeyOf(p);
    var ks :| Enumerates(ks, t, o) && ps == Documents(t, ks);
    if p in ps {
      var i :| 0 <= i < |ps| && ps[i] == p;
      assert ks[i] in ks && ColumnsAgree(ks[i], t[ks[i]]);
      WantedMatches(o, ks[i], t[ks[i]]);
    }
    if k in t && t[k].json == p {
      WantedMatches(o, k, t[k]);
      if k in ks {
        var i :| 0 <= i < |ks| && ks[i] == k;
        assert ps[i] == p;
      }
    }
  }

  /** No document is listed twice. */
  lemma ListedOnce(t: Table, o: QueryOptions, ps: seq<Premint>, i: nat, j: nat)
    requires Columns(t) && Lists(t, o, ps) && i < j < |ps|
    ensures ps[i] != ps[j]
  {
    var ks :| Enumerates(ks, t, o) && ps == Documents(t, ks);
    assert ks[i] in ks && ColumnsAgree(ks[i], t[ks[i]]);
    assert ks[j] in ks && ColumnsAgree(ks[j], t[ks[j]]);
  }

  /** Without options every unseen row's document is listed. */
  lemma AllListed(t: Table, ps: seq<Premint>, k: Key)
    requires Lists(t, ANY, ps) && k in t && !t[k].seen
    ensures t[k].json in ps
  {
    var ks :| Enumerates(ks, t, ANY) && ps == Documents(t, ks);
    assert k in ks;
    var i :| 0 <= i < |ks| && ks[i] == k;
    assert ps[i] == t[k].json;
  }

  /** Once stored, a new document is listed to exactly those who ask for a span of time that holds its store. */
  lemma NewIsListedFrom(t: Table, p: Premint, now: nat, from: Option<nat>, until: Option<nat>, ps: seq<Premint>)
    requires InOrder(t) && KeyOf(p) !in t
    requires Lists(Upsert(t, p, now).0, ANY.(from := from, until := until), ps)
    ensures p in ps <==> (from.Some? ==> from.value <= now) && (until.Some? ==> now <= until.value)
  {
    var t' := Upsert(t, p, now).0;
    UpsertKeepsColumns(t, p, now);
    assert KeyOf(p) in t' && t'[KeyOf(p)] == NewRow(p, now);
    assert Signers(t');
    ListedIff(t', ANY.(from := from, until := until), ps, p);
  }

  /** A stored update is listed in place of the version before it, with the time of that one's row. */
  lemma UpdateIsListed(t: Table, p: Premint, now: nat, ps: seq<Premint>)
    requires InOrder(t) && KeyOf(p) in t && !t[KeyOf(p)].seen && Upsert(t, p, now).1
    requires t[KeyOf(p)].signer == MetadataOf(p).signer && Lists(Upsert(t, p, now).0, ANY, ps)
    ensures p in ps && t[KeyOf(p)].json !in ps
  {
    var t', k := Upsert(t, p, now).0, KeyOf(p);
    UpsertKeepsColumns(t, p, now);
    assert k in t' && t'[k].json == p && !t'[k].seen;
    assert Signers(t');
    ListedIff(t', ANY, ps, p);
    ListedIff(t', ANY, ps, t[k].json);
    assert ColumnsAgree(k, t[k]);
  }
}
