/** The premint table: what each SQL statement does to a map of rows. */
module PremintTable {
  import opened Wrappers
  import opened ByteStrings
  import opened Premints

  type i64 = x: int | -0x8000_0000_0000_0000 <= x < 0x8000_0000_0000_0000

  const TWO_63: int := 0x8000_0000_0000_0000

  /** The cast `as i64`. */
  function AsI64(x: u64): i64 {
    if x < TWO_63 then x else x - TWO_64
  }

  /** One row; `json` is the document the column decodes to, `createdAt` the time of the insert. */
  datatype Row = Row(version: i64, signer: Address, chainId: i64, collection: Address, tokenId: nat, tokenUri: string,
                     json: Premint, seen: bool, createdAt: nat)

  type Table = map<Key, Row>

  function NewRow(p: Premint, now: nat): Row {
    var m := MetadataOf(p);
    Row(AsI64(m.version), m.signer, AsI64(m.chainId), m.collection, m.tokenId, m.uri, p, false, now)
  }

  /** The upsert: a conflict changes version and json only, and only for a higher version. */
  function Upsert(t: Table, p: Premint, now: nat): (Table, bool) {
    var k, v := KeyOf(p), AsI64(MetadataOf(p).version);
    if k !in t then (t[k := NewRow(p, now)], true)
    else if v > t[k].version then (t[k := t[k].(version := v, json := p)], true)
    else (t, false)
  }

  datatype InclusionClaim = InclusionClaim(premintId: string, chainId: u64, txHash: nat, logIndex: u64, kind: string)

  predicate Hits(t: Table, c: InclusionClaim) {
    var k := Key(c.kind, c.premintId);
    k in t && t[k].chainId == AsI64(c.chainId)
  }

  /** Marks or deletes the row an inclusion claim names. */
  function Include(t: Table, c: InclusionClaim, prune: bool): Table {
    var k := Key(c.kind, c.premintId);
    if !Hits(t, c) then t
    else if prune then t - {k}
    else t[k := t[k].(seen := true)]
  }

  // ----- queries -----

  datatype QueryOptions = QueryOptions(chainId: Option<u64>, kind: Option<string>, collection: Option<Address>,
                                       creator: Option<Address>, from: Option<nat>, until: Option<nat>)

  /** What a caller asks for with some options: an unseen row meeting every given one. */
  predicate Wanted(o: QueryOptions, k: Key, r: Row) {
    && !r.seen
    && (o.kind.Some? ==> k.kind == o.kind.value)
    && (o.chainId.Some? ==> r.chainId == AsI64(o.chainId.value))
    && (o.collection.Some? ==> r.collection == o.collection.value)
    && (o.creator.Some? ==> r.signer == o.creator.value)
    && (o.from.Some? ==> o.from.value <= r.createdAt)
    && (o.until.Some? ==> r.createdAt <= o.until.value)
  }

  datatype Condition =
    | Unseen
    | KindIs(kind: string)
    | ChainIs(chainId: i64)
    | CollectionIs(collection: Address)
    | SignerIs(signer: Address)
    | CreatedFrom(from: nat)
    | CreatedUntil(until: nat)

  predicate Holds(c: Condition, k: Key, r: Row) {
    match c
    case Unseen => !r.seen
    case KindIs(kind) => k.kind == kind
    case ChainIs(chainId) => r.chainId == chainId
    case CollectionIs(collection) => r.collection == collection
    case SignerIs(signer) => r.signer == signer
    case CreatedFrom(from) => from <= r.createdAt
    case CreatedUntil(until) => r.createdAt <= until
  }

  predicate AllHold(cs: seq<Condition>, k: Key, r: Row) {
    forall c :: c in cs ==> Holds(c, k, r)
  }

  /** The keys of exactly the rows wanted, each once, in an order of the database's choosing. */
  ghost predicate Enumerates(ks: seq<Key>, t: Table, o: QueryOptions) {
    && (forall i, j :: 0 <= i < j < |ks| ==> ks[i] != ks[j])
    && (forall k :: k in ks <==> k in t && Wanted(o, k, t[k]))
  }

  function Documents(t: Table, ks: seq<Key>): (ps: seq<Premint>)
    requires forall k :: k in ks ==> k in t
    ensures |ps| == |ks|
  {
    seq(|ks|, i requires 0 <= i < |ks| => t[ks[i]].json)
  }

  /** A possible answer to a list query: one document for each row wanted, in some order. */
  ghost predicate Lists(t: Table, o: QueryOptions, ps: seq<Premint>) {
    exists ks :: Enumerates(ks, t, o) && ps == Documents(t, ks)
  }

  const ANY := QueryOptions(None, None, None, None, None, None)

  /** The possible answers of fetching one row by its `token_uri` column: none, or any row that has it. */
  ghost predicate UriAnswer(t: Table, uri: string, answer: Option<Premint>) {
    match answer
    case None => forall k :: k in t ==> t[k].tokenUri != uri
    case Some(p) => exists k :: k in t && t[k].tokenUri == uri && t[k].json == p
  }

  function GetByKey(t: Table, k: Key): Option<Premint> {
    if k in t then Some(t[k].json) else None
  }

  /** One more condition, if there is one. */
  method Push(query: seq<Condition>, c: Option<Condition>) returns (longer: seq<Condition>)
    ensures forall k, r :: AllHold(longer, k, r) <==> AllHold(query, k, r) && (c.Some? ==> Holds(c.value, k, r))
  {
    longer := query;
    if c.Some? {
      longer := query + [c.value];
      assert forall d :: d in longer <==> d in query || d == c.value;
    }
  }

  /** Grows the query condition by condition; together they say what the options ask for. */
  method BuildQuery(o: QueryOptions) returns (query: seq<Condition>)
    ensures forall k, r :: AllHold(query, k, r) <==> Wanted(o, k, r)
  {
    query := Push([], Some(Unseen));
    query := Push(query, if o.kind.Some? then Some(KindIs(o.kind.value)) else None);
    query := Push(query, if o.chainId.Some? then Some(ChainIs(AsI64(o.chainId.value))) else None);
    query := Push(query, if o.collection.Some? then Some(CollectionIs(o.collection.value)) else None);
    query := Push(query, if o.creator.Some? then Some(SignerIs(o.creator.value)) else None);
    query := Push(query, if o.from.Some? then Some(CreatedFrom(o.from.value)) else None);
    query := Push(query, if o.until.Some? then Some(CreatedUntil(o.until.value)) else None);
  }

  /** Collects the documents of the rows meeting all conditions. */
  method FetchAll(t: Table, query: seq<Condition>, ghost o: QueryOptions) returns (ps: seq<Premint>)
    requires forall k, r :: AllHold(query, k, r) <==> Wanted(o, k, r)
    ensures Lists(t, o, ps)
  {
    var rest := set k | k in t && AllHold(query, k, t[k]);
    var ks := [];
    ps := [];
    while rest != {}
      invariant forall k :: k in ks || k in rest <==> k in t && Wanted(o, k, t[k])
      invariant forall k :: k in ks ==> k !in rest
      invariant forall i, j :: 0 <= i < j < |ks| ==> ks[i] != ks[j]
      invariant ps == Documents(t, ks)
      decreases |rest|
    {
      var k :| k in rest;
      rest := rest - {k};
      ks := ks + [k];
      ps := ps + [t[k].json];
    }
    assert Enumerates(ks, t, o);
  }

  // ----- the stored table -----

  /** The database all clones of a storage share. */
  class Database {
    var rows: Table

    constructor ()
      ensures rows == map[]
    {
      rows := map[];
    }
  }

  class PremintStorage {
    const db: Database
    const prune: bool

    constructor (prune: bool)
      ensures fresh(db) && db.rows == map[] && this.prune == prune
    {
      db := new Database();
      this.prune := prune;
    }

    /** A clone shares the database but never prunes. */
    constructor CloneOf(other: PremintStorage)
      ensures db == other.db && !prune
    {
      db := other.db;
      prune := false;
    }

    /** Fails exactly when the statement affects no row. */
    method Store(p: Premint, now: nat) returns (ok: bool)
      modifies db
      ensures (db.rows, ok) == Upsert(old(db.rows), p, now)
    {
      var m := MetadataOf(p);
      var k, version := Key(m.kind, m.id), AsI64(m.version);
      var affected := 0;
      if k !in db.rows {
        var row := Row(version, m.signer, AsI64(m.chainId), m.collection, m.tokenId, m.uri, p, false, now);
        db.rows := db.rows[k := row];
        affected := 1;
      } else if version > db.rows[k].version {
        db.rows := db.rows[k := db.rows[k].(version := version, json := p)];
        affected := 1;
      }
      return affected != 0;
    }

    method MarkSeenOnChain(c: InclusionClaim)
      modifies db
      ensures db.rows == Include(old(db.rows), c, prune)
    {
      var k, chainId := Key(c.kind, c.premintId), AsI64(c.chainId);
      if k in db.rows && db.rows[k].chainId == chainId {
        if prune {
          db.rows := db.rows - {k};
        } else {
          db.rows := db.rows[k := db.rows[k].(seen := true)];
        }
      }
    }

    method GetForIdAndKind(id: string, kind: string) returns (r: Option<Premint>)
      ensures r == GetByKey(db.rows, Key(kind, id))
    {
      var k := Key(kind, id);
      r := if k in db.rows then Some(db.rows[k].json) else None;
    }

    method GetForTokenUri(uri: string) returns (r: Option<Premint>)
      ensures UriAnswer(db.rows, uri, r)
    {
      if k :| k in db.rows && db.rows[k].tokenUri == uri {
        return Some(db.rows[k].json);
      }
      return None;
    }

    method ListAll() returns (r: seq<Premint>)
      ensures Lists(db.rows, ANY, r)
    {
      var query := BuildQuery(ANY);
      r := FetchAll(db.rows, query, ANY);
    }

    method ListAllWithOptions(o: QueryOptions) returns (r: seq<Premint>)
      ensures Lists(db.rows, o, r)
    {
      var query := BuildQuery(o);
      r := FetchAll(db.rows, query, o);
    }
  }
}
