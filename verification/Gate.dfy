/** The gate and the table together: what sequential, error-free runs keep, and where gate and table disagree. */
module Gate {
  import opened Wrappers
  import opened ByteStrings
  import opened Premints
  import opened PremintTable
  import opened PremintRules

  /** The columns of a row against the document in its json column. */
  predicate ColumnsAgree(k: Key, r: Row) {
    var m := MetadataOf(r.json);
    && k == KeyOf(r.json)
    && r.version == AsI64(m.version)
    && r.chainId == AsI64(m.chainId)
    && r.collection == m.collection
    && r.tokenId == m.tokenId
  }

  ghost predicate Columns(t: Table) {
    forall k :: k in t ==> ColumnsAgree(k, t[k])
  }

  ghost predicate Signers(t: Table) {
    forall k :: k in t ==> t[k].signer == MetadataOf(t[k].json).signer
  }

  /** Rows with one `token_uri` column value belong to one id. */
  ghost predicate UriOwners(t: Table) {
    forall k, l :: k in t && l in t && t[k].tokenUri == t[l].tokenUri ==> k.id == l.id
  }

  // ----- what SQL alone keeps -----

  /** An insert fills the columns from the document; an update need not touch those the key determines. */
  lemma UpsertedRowAgrees(t: Table, p: Premint, now: nat)
    requires KeyOf(p) in t ==> ColumnsAgree(KeyOf(p), t[KeyOf(p)])
    ensures ColumnsAgree(KeyOf(p), Upsert(t, p, now).0[KeyOf(p)])
  {
    if KeyOf(p) in t {
      KeyDetermines(p, t[KeyOf(p)].json);
    }
  }

  /** An upsert keeps the columns in line with the document, whether or not any rule was asked. */
  lemma UpsertKeepsColumns(t: Table, p: Premint, now: nat)
    requires Columns(t)
    ensures Columns(Upsert(t, p, now).0)
  {
    UpsertedRowAgrees(t, p, now);
  }

  lemma IncludeKeepsColumns(t: Table, c: InclusionClaim, prune: bool)
    requires Columns(t)
    ensures Columns(Include(t, c, prune))
    ensures Signers(t) ==> Signers(Include(t, c, prune))
    ensures UriOwners(t) ==> UriOwners(Include(t, c, prune))
  {
  }

  // ----- what the gate adds -----

  /** One sequential validate-and-insert: the gate reads the table it then writes. */
  function ValidateAndInsert(t: Table, p: Premint, answer: Option<Premint>, others: Results, now: nat): (Table, bool) {
    if IsAccept(Evaluate(p, GetByKey(t, KeyOf(p)), answer, others)) then Upsert(t, p, now) else (t, false)
  }

  /** The row a URI lookup happens to return cannot change the verdict. */
  lemma AnswerIrrelevant(t: Table, p: Premint, answer: Option<Premint>, answer': Option<Premint>)
    requires Columns(t) && UriOwners(t)
    requires UriAnswer(t, MetadataOf(p).uri, answer) && UriAnswer(t, MetadataOf(p).uri, answer')
    ensures ExistingTokenUri(MetadataOf(p), answer) == ExistingTokenUri(MetadataOf(p), answer')
  {
  }

  /** What the gate lets in over a stored document has its signer and a higher version. */
  lemma AcceptedIsNewer(p: Premint, q: Premint, answer: Option<Premint>, others: Results)
    requires Failed !in others && IsAccept(Evaluate(p, Some(q), answer, others))
    ensures MetadataOf(q).signer == MetadataOf(p).signer && MetadataOf(q).version < MetadataOf(p).version
  {
    AcceptedMeans(p, Some(q), answer, others);
  }

  lemma GateKeepsSigners(t: Table, p: Premint, answer: Option<Premint>, others: Results, now: nat)
    requires Signers(t) && Failed !in others
    ensures Signers(ValidateAndInsert(t, p, answer, others, now).0)
  {
    if KeyOf(p) in t && IsAccept(Evaluate(p, GetByKey(t, KeyOf(p)), answer, others)) {
      AcceptedIsNewer(p, t[KeyOf(p)].json, answer, others);
    }
  }

  /** A document the gate lets in has a URI no other id's row shows. */
  lemma AcceptedUriIsOwn(t: Table, p: Premint, answer: Option<Premint>, others: Results, l: Key)
    requires Columns(t) && UriOwners(t) && Failed !in others
    requires UriAnswer(t, MetadataOf(p).uri, answer) && IsAccept(Evaluate(p, GetByKey(t, KeyOf(p)), answer, others))
    requires l in t && t[l].tokenUri == MetadataOf(p).uri
    ensures l.id == KeyOf(p).id
  {
    AcceptedMeans(p, GetByKey(t, KeyOf(p)), answer, others);
    var q := answer.value;
    var o :| o in t && t[o].tokenUri == MetadataOf(p).uri && t[o].json == q;
    assert ColumnsAgree(o, t[o]);
  }

  lemma GateKeepsUriOwners(t: Table, p: Premint, answer: Option<Premint>, others: Results, now: nat)
    requires Columns(t) && UriOwners(t) && Failed !in others && UriAnswer(t, MetadataOf(p).uri, answer)
    ensures UriOwners(ValidateAndInsert(t, p, answer, others, now).0)
  {
    var k := KeyOf(p);
    var t' := ValidateAndInsert(t, p, answer, others, now).0;
    if k !in t && k in t' {
      assert t' == t[k := NewRow(p, now)];
      forall l | l in t && t[l].tokenUri == t'[k].tokenUri
        ensures l.id == k.id
      {
        AcceptedUriIsOwn(t, p, answer, others, l);
      }
    }
  }

  /** A table whose rows agree with their documents and whose URI column values each belong to one id. */
  ghost predicate InOrder(t: Table) {
    Columns(t) && Signers(t) && UriOwners(t)
  }

  /** With no rule in error, a validated insert keeps every column in line and every URI with one id. */
  lemma GateKeepsTable(t: Table, p: Premint, answer: Option<Premint>, others: Results, now: nat)
    requires InOrder(t) && UriAnswer(t, MetadataOf(p).uri, answer) && Failed !in others
    ensures InOrder(ValidateAndInsert(t, p, answer, others, now).0)
  {
    UpsertKeepsColumns(t, p, now);
    GateKeepsSigners(t, p, answer, others, now);
    GateKeepsUriOwners(t, p, answer, others, now);
  }

  lemma StoredIff(t: Table, p: Premint, now: nat)
    requires Columns(t) && KeyOf(p) in t && MetadataOf(t[KeyOf(p)].json).version < MetadataOf(p).version
    ensures Upsert(t, p, now).1 <==> !(MetadataOf(t[KeyOf(p)].json).version < TWO_63 <= MetadataOf(p).version)
  {
    assert ColumnsAgree(KeyOf(p), t[KeyOf(p)]);
  }

  /**
   * With no rule in error, an accepted document is stored, except exactly when its version has reached 2^63 and the
   * stored one has not: the gate compares unsigned versions, the table their signed casts.
   */
  lemma AcceptedIsStoredIff(t: Table, p: Premint, answer: Option<Premint>, others: Results, now: nat)
    requires Columns(t) && Failed !in others
    requires IsAccept(Evaluate(p, GetByKey(t, KeyOf(p)), answer, others))
    ensures var k := KeyOf(p);
      Upsert(t, p, now).1 <==> !(k in t && MetadataOf(t[k].json).version < TWO_63 <= MetadataOf(p).version)
  {
    var k := KeyOf(p);
    if k in t {
      AcceptedIsNewer(p, t[k].json, answer, others);
      StoredIff(t, p, now);
    }
  }

  // ----- the gate on the documents' own fields -----

  predicate UriAllowed(uri: string) {
    0 < |uri| <= if "data:" <= uri then 8192 else 2048
  }

  /** The default rules on a Zora document, with the others as they answered: what admin, version and URI decide. */
  lemma ZoraUpdateAcceptedIff(z: Zora, w: Zora, erc20: bool, shown: bool, others: Results)
    requires z.chainId == w.chainId && z.collectionAddress == w.collectionAddress && z.uid == w.uid
    ensures var p, q := if erc20 then ZoraERC20V1(z) else ZoraV2(z), if erc20 then ZoraERC20V1(w) else ZoraV2(w);
      && KeyOf(p) == KeyOf(q)
      && (IsAccept(Evaluate(q, Some(p), if shown then Some(p) else None, others)) <==>
            Failed in others ||
            (w.contractAdmin == z.contractAdmin && z.version < w.version && UriAllowed(w.tokenUri) &&
             Checked(Reject) !in others))
  {
    var p, q := if erc20 then ZoraERC20V1(z) else ZoraV2(z), if erc20 then ZoraERC20V1(w) else ZoraV2(w);
    AcceptedMeans(q, Some(p), if shown then Some(p) else None, others);
  }

  /** The same of a simple premint, whose sender is part of its key. */
  lemma SimpleUpdateAcceptedIff(v: u64, v': u64, chainId: u64, sender: Address, n: u64, media: string, media': string,
                                shown: bool, others: Results)
    ensures var p, q := Simple(v, chainId, sender, n, media), Simple(v', chainId, sender, n, media');
      && KeyOf(p) == KeyOf(q)
      && (IsAccept(Evaluate(q, Some(p), if shown then Some(p) else None, others)) <==>
            Failed in others || (v < v' && UriAllowed(media') && Checked(Reject) !in others))
  {
    var p, q := Simple(v, chainId, sender, n, media), Simple(v', chainId, sender, n, media');
    AcceptedMeans(q, Some(p), if shown then Some(p) else None, others);
  }

  /** A document the table has no version of needs a URI of allowed length that is not another id's. */
  lemma NewAcceptedIff(p: Premint, answer: Option<Premint>, others: Results)
    ensures IsAccept(Evaluate(p, None, answer, others)) <==>
        Failed in others ||
        (&& UriAllowed(if p.Simple? then p.media else p.zora.tokenUri)
         && (answer.Some? ==> KeyOf(answer.value).id == KeyOf(p).id)
         && Checked(Reject) !in others)
  {
    AcceptedMeans(p, None, answer, others);
  }

  /** Storing a new Zora document puts its own fields in the columns, under its kind and printed identifier. */
  lemma ZoraColumns(z: Zora, erc20: bool, now: nat)
    ensures var p := if erc20 then ZoraERC20V1(z) else ZoraV2(z);
      var kind := if erc20 then "zora_premint_erc20v1" else "zora_premint_v2";
      var c := AsI64(z.chainId);
      var row := Row(z.version, z.contractAdmin, c, z.collectionAddress, z.uid, z.tokenUri, p, false, now);
      Upsert(map[], p, now) == (map[Key(kind, Guid(z.chainId, z.collectionAddress, z.uid)) := row], true)
  {
  }

  /** The same of a simple premint, which has no collection. */
  lemma SimpleColumns(version: u64, chainId: u64, sender: Address, n: u64, media: string, now: nat)
    ensures var p := Simple(version, chainId, sender, n, media);
      var row := Row(AsI64(version), sender, AsI64(chainId), NO_ADDRESS, n, media, p, false, now);
      Upsert(map[], p, now) == (map[Key("simple", Guid(chainId, sender, n)) := row], true)
  {
  }

  /** For instance an update of a simple premint to version 2^63 passes the gate and is not stored. */
  lemma AcceptedButLost(chainId: u64, sender: Address, n: u64, uri: string)
    requires 0 < |uri| <= MAX_URI
    ensures var p, q := Simple(1, chainId, sender, n, uri), Simple(TWO_63, chainId, sender, n, uri);
      var t: Table := map[KeyOf(p) := NewRow(p, 0)];
      && InOrder(t) && UriAnswer(t, uri, Some(p))
      && IsAccept(Evaluate(q, GetByKey(t, KeyOf(q)), Some(p), []))
      && ValidateAndInsert(t, q, Some(p), [], 1) == (t, false)
  {
    var p, q := Simple(1, chainId, sender, n, uri), Simple(TWO_63, chainId, sender, n, uri);
    var t: Table := map[KeyOf(p) := NewRow(p, 0)];
    assert KeyOf(p) in t;
    AcceptedMeans(q, GetByKey(t, KeyOf(q)), Some(p), []);
    AcceptedIsStoredIff(t, q, Some(p), [], 1);
  }

  /** One failed rule lets another signer's higher version overwrite the document, under the old signer's column. */
  lemma FailedRuleOverwrites(t: Table, q: Premint, answer: Option<Premint>, now: nat)
    requires KeyOf(q) in t && AsI64(MetadataOf(q).version) > t[KeyOf(q)].version
    requires t[KeyOf(q)].signer != MetadataOf(q).signer
    ensures var (t', ok) := ValidateAndInsert(t, q, answer, [Failed], now);
      ok && t'[KeyOf(q)].json == q && t'[KeyOf(q)].signer == t[KeyOf(q)].signer && !Signers(t')
  {
    AcceptedMeans(q, GetByKey(t, KeyOf(q)), answer, [Failed]);
    assert KeyOf(q) in Upsert(t, q, now).0;
  }

  // ----- runs -----

  /** A document offered to the gate, with the answers its rules got, or an inclusion claim. */
  datatype Event = Offer(p: Premint, answer: Option<Premint>, others: Results, now: nat) | Claim(claim: InclusionClaim)

  function Handle(t: Table, e: Event, prune: bool): Table {
    match e
    case Offer(p, answer, others, now) => ValidateAndInsert(t, p, answer, others, now).0
    case Claim(c) => Include(t, c, prune)
  }

  function HandleAll(t: Table, es: seq<Event>, prune: bool): Table {
    if es == [] then t else Handle(HandleAll(t, es[..|es| - 1], prune), es[|es| - 1], prune)
  }

  /** The URI lookup was answered from this table, and no rule failed. */
  ghost predicate Answered(t: Table, e: Event) {
    e.Offer? ==> Failed !in e.others && UriAnswer(t, MetadataOf(e.p).uri, e.answer)
  }

  /** Every URI lookup of the run was answered from the table it met, and no rule ever failed. */
  ghost predicate ErrorFree(t: Table, es: seq<Event>, prune: bool) {
    es == [] ||
    (ErrorFree(t, es[..|es| - 1], prune) && Answered(HandleAll(t, es[..|es| - 1], prune), es[|es| - 1]))
  }

  lemma HandleKeepsTable(t: Table, e: Event, prune: bool)
    requires InOrder(t) && Answered(t, e)
    ensures InOrder(Handle(t, e, prune))
  {
    match e
    case Offer(p, answer, others, now) => GateKeepsTable(t, p, answer, others, now);
    case Claim(c) => IncludeKeepsColumns(t, c, prune);
  }

  /** Over every sequential error-free run, in either inclusion mode, the table agrees with its documents. */
  lemma {:induction false} RunKeepsTable(t: Table, es: seq<Event>, prune: bool)
    requires InOrder(t) && ErrorFree(t, es, prune)
    ensures InOrder(HandleAll(t, es, prune))
  {
    if es == [] {
    } else {
      RunKeepsTable(t, es[..|es| - 1], prune);
      HandleKeepsTable(HandleAll(t, es[..|es| - 1], prune), es[|es| - 1], prune);
    }
  }

  /** A row still there with its first signer, token URI and time, and marked if it was. */
  predicate Kept(t: Table, t': Table, k: Key) {
    k !in t ||
    (k in t' && t'[k].signer == t[k].signer && t'[k].tokenUri == t[k].tokenUri && t'[k].createdAt == t[k].createdAt &&
     (t[k].seen ==> t'[k].seen))
  }

  lemma HandleKeeps(t: Table, e: Event, k: Key)
    ensures Kept(t, Handle(t, e, false), k)
  {
  }

  /** In mark mode a row, once there, keeps its first signer, token URI and time through any further events. */
  lemma {:induction false} FirstColumnsStay(t: Table, es: seq<Event>, n: nat, k: Key)
    requires n <= |es|
    ensures Kept(HandleAll(t, es[..n], false), HandleAll(t, es, false), k)
    decreases |es|
  {
    if n == |es| {
      assert es[..n] == es;
    } else {
      var before := es[..|es| - 1];
      assert before[..n] == es[..n];
      FirstColumnsStay(t, before, n, k);
      HandleKeeps(HandleAll(t, before, false), es[|es| - 1], k);
    }
  }

  // ----- two ids, one URI -----

  /** No two documents of different ids carry one URI. */
  ghost predicate UrisUnique(t: Table) {
    forall k, l :: k in t && l in t && MetadataOf(t[k].json).uri == MetadataOf(t[l].json).uri ==> k.id == l.id
  }

  /** The document has moved away from the URI its row's column shows. */
  predicate HasMoved(r: Row) {
    r.tokenUri != MetadataOf(r.json).uri
  }

  /** Some document of another id has moved to this URI. */
  ghost predicate MovedTo(t: Table, id: string, uri: string) {
    exists l :: l in t && l.id != id && HasMoved(t[l]) && MetadataOf(t[l].json).uri == uri
  }

  /** Documents' URIs are unique per id exactly when no document has moved to the URI of another id's document. */
  lemma UrisUniqueIff(t: Table)
    requires UriOwners(t)
    ensures UrisUnique(t) <==> forall k :: k in t ==> !MovedTo(t, k.id, MetadataOf(t[k].json).uri)
  {
    if forall k :: k in t ==> !MovedTo(t, k.id, MetadataOf(t[k].json).uri) {
      forall k, l | k in t && l in t && MetadataOf(t[k].json).uri == MetadataOf(t[l].json).uri
        ensures k.id == l.id
      {
        assert !MovedTo(t, k.id, MetadataOf(t[k].json).uri) && !MovedTo(t, l.id, MetadataOf(t[l].json).uri);
      }
    }
  }

  /** Whether each row's URI column is still that of its document. */
  ghost predicate UrisCurrent(t: Table) {
    forall k :: k in t ==> !HasMoved(t[k])
  }

  /** An accepted upsert leaves the URI column current exactly when it inserts or keeps the URI. */
  lemma UriStaysCurrentIff(t: Table, p: Premint, now: nat)
    requires UrisCurrent(t) && Upsert(t, p, now).1
    ensures UrisCurrent(Upsert(t, p, now).0) <==>
      (KeyOf(p) in t ==> MetadataOf(t[KeyOf(p)].json).uri == MetadataOf(p).uri)
  {
    var k := KeyOf(p);
    if k in t { assert !HasMoved(t[k]); }
    assert k in Upsert(t, p, now).0;
  }

  /** Two tables that differ in one row's document. */
  lemma UniqueWithOneMoreIff(t: Table, t': Table, k: Key)
    requires UrisUnique(t) && k in t'
    requires forall l :: l in t' <==> l in t || l == k
    requires forall l :: l in t && l != k ==> t'[l].json == t[l].json
    ensures UrisUnique(t') <==>
      forall l :: l in t && l.id != k.id ==> MetadataOf(t[l].json).uri != MetadataOf(t'[k].json).uri
  {
    if UrisUnique(t') {
      forall l | l in t && l.id != k.id
        ensures MetadataOf(t[l].json).uri != MetadataOf(t'[k].json).uri
      {
        assert l in t' && t'[l].json == t[l].json;
      }
    }
  }

  /** A stored document whose URI is new to the other ids' documents keeps them apart, and only such a one does. */
  lemma StoreKeepsUniqueIff(t: Table, p: Premint, now: nat)
    requires UrisUnique(t) && Upsert(t, p, now).1
    ensures UrisUnique(Upsert(t, p, now).0) <==>
      forall l :: l in t && l.id != KeyOf(p).id ==> MetadataOf(t[l].json).uri != MetadataOf(p).uri
  {
    UniqueWithOneMoreIff(t, Upsert(t, p, now).0, KeyOf(p));
  }

  /** One more offer keeps documents' URIs unique unless it is stored and another id's document has moved to its URI. */
  lemma OfferKeepsUniqueIff(t: Table, p: Premint, answer: Option<Premint>, others: Results, now: nat)
    requires InOrder(t) && UrisUnique(t) && Failed !in others && UriAnswer(t, MetadataOf(p).uri, answer)
    ensures var (t', ok) := ValidateAndInsert(t, p, answer, others, now);
      UrisUnique(t') <==> !(ok && MovedTo(t, KeyOf(p).id, MetadataOf(p).uri))
  {
    if ValidateAndInsert(t, p, answer, others, now).1 {
      StoreKeepsUniqueIff(t, p, now);
      forall l | l in t && l.id != KeyOf(p).id && MetadataOf(t[l].json).uri == MetadataOf(p).uri
        ensures HasMoved(t[l])
      {
        if !HasMoved(t[l]) { AcceptedUriIsOwn(t, p, answer, others, l); }
      }
    }
  }

  /** An offer that is stored under a URI another id's document has moved to. */
  ghost predicate TakesOver(t: Table, e: Event) {
    && e.Offer? && ValidateAndInsert(t, e.p, e.answer, e.others, e.now).1
    && MovedTo(t, KeyOf(e.p).id, MetadataOf(e.p).uri)
  }

  lemma HandleKeepsUniqueIff(t: Table, e: Event, prune: bool)
    requires InOrder(t) && UrisUnique(t) && Answered(t, e)
    ensures UrisUnique(Handle(t, e, prune)) <==> !TakesOver(t, e)
  {
    match e
    case Offer(p, answer, others, now) => OfferKeepsUniqueIff(t, p, answer, others, now);
    case Claim(c) =>
      var t' := Include(t, c, prune);
      assert forall k :: k in t' ==> k in t && t'[k].json == t[k].json;
  }

  /** Documents' URIs are unique at the start of the run and after every event. */
  ghost predicate UniqueThroughout(t: Table, es: seq<Event>, prune: bool) {
    if es == [] then UrisUnique(t)
    else UniqueThroughout(t, es[..|es| - 1], prune) && UrisUnique(HandleAll(t, es, prune))
  }

  ghost predicate NoneTakesOver(t: Table, es: seq<Event>, prune: bool) {
    es == [] ||
    (NoneTakesOver(t, es[..|es| - 1], prune) && !TakesOver(HandleAll(t, es[..|es| - 1], prune), es[|es| - 1]))
  }

  lemma UniqueAtEnd(t: Table, es: seq<Event>, prune: bool)
    ensures UniqueThroughout(t, es, prune) ==> UrisUnique(HandleAll(t, es, prune))
  {
  }

  /**
   * Over every sequential error-free run documents' URIs stay unique per id exactly as long as no offer is stored under
   * a URI another id's document has moved to.
   */
  lemma {:induction false} RunKeepsUniqueIff(t: Table, es: seq<Event>, prune: bool)
    requires InOrder(t) && UrisUnique(t) && ErrorFree(t, es, prune)
    ensures UniqueThroughout(t, es, prune) <==> NoneTakesOver(t, es, prune)
  {
    if es == [] {
    } else {
      var front := es[..|es| - 1];
      RunKeepsUniqueIff(t, front, prune);
      RunKeepsTable(t, front, prune);
      UniqueAtEnd(t, front, prune);
      if UniqueThroughout(t, front, prune) {
        HandleKeepsUniqueIff(HandleAll(t, front, prune), es[|es| - 1], prune);
      }
    }
  }

  // ----- how a URI is taken twice -----

  lemma OfferInserts(t: Table, p: Premint, now: nat)
    requires KeyOf(p) !in t && TokenUriLength(MetadataOf(p)) == Accept
    ensures ValidateAndInsert(t, p, None, [], now).0 == t[KeyOf(p) := NewRow(p, now)]
  {
  }

  lemma OfferUpdates(t: Table, p: Premint, now: nat)
    requires KeyOf(p) in t && TokenUriLength(MetadataOf(p)) == Accept
    requires var m, n := MetadataOf(t[KeyOf(p)].json), MetadataOf(p); m.signer == n.signer && m.version < n.version
    requires t[KeyOf(p)].version < AsI64(MetadataOf(p).version)
    ensures var k := KeyOf(p);
      ValidateAndInsert(t, p, None, [], now).0 == t[k := t[k].(version := AsI64(MetadataOf(p).version), json := p)]
  {
  }

  /** One more offer with no other rules, whose URI no row shows. */
  lemma OfferSnoc(t: Table, es: seq<Event>, p: Premint, now: nat)
    requires ErrorFree(t, es, false) && UriAnswer(HandleAll(t, es, false), MetadataOf(p).uri, None)
    ensures var es' := es + [Offer(p, None, [], now)];
      ErrorFree(t, es', false) &&
      HandleAll(t, es', false) == ValidateAndInsert(HandleAll(t, es, false), p, None, [], now).0
  {
  }

  /** a1 and a2 are versions of one document under two URIs, b another document under the second. */
  predicate TakesUri(a1: Premint, a2: Premint, b: Premint) {
    var m1, m2, n := MetadataOf(a1), MetadataOf(a2), MetadataOf(b);
    && KeyOf(a1) == KeyOf(a2) && n.id != m1.id
    && m1.signer == m2.signer && m1.version < m2.version < TWO_63
    && m1.uri != m2.uri == n.uri
    && TokenUriLength(m1) == TokenUriLength(m2) == Accept
  }

  /** The table after the document has moved to its second URI: the column still shows the first. */
  function Moved(a1: Premint, a2: Premint): Table {
    map[KeyOf(a1) := NewRow(a1, 0).(version := AsI64(MetadataOf(a2).version), json := a2)]
  }

  lemma FirstOffer(p: Premint)
    requires TokenUriLength(MetadataOf(p)) == Accept
    ensures var es := [Offer(p, None, [], 0)];
      ErrorFree(map[], es, false) && HandleAll(map[], es, false) == map[KeyOf(p) := NewRow(p, 0)]
  {
    OfferSnoc(map[], [], p, 0);
    assert [] + [Offer(p, None, [], 0)] == [Offer(p, None, [], 0)];
    OfferInserts(map[], p, 0);
  }

  lemma MoveUri(a1: Premint, a2: Premint, b: Premint)
    requires TakesUri(a1, a2, b)
    ensures var es := [Offer(a1, None, [], 0)] + [Offer(a2, None, [], 1)];
      ErrorFree(map[], es, false) && HandleAll(map[], es, false) == Moved(a1, a2)
  {
    FirstOffer(a1);
    OfferSnoc(map[], [Offer(a1, None, [], 0)], a2, 1);
    OfferUpdates(map[KeyOf(a1) := NewRow(a1, 0)], a2, 1);
  }

  /**
   * The URI rule reads a column an update never changes: once a document has moved to a new URI, another id can take
   * the same URI, through three accepted offers with no error.
   */
  lemma UriTakenTwice(a1: Premint, a2: Premint, b: Premint)
    requires TakesUri(a1, a2, b)
    ensures var es := [Offer(a1, None, [], 0)] + [Offer(a2, None, [], 1)] + [Offer(b, None, [], 2)];
      ErrorFree(map[], es, false) && !UrisUnique(HandleAll(map[], es, false))
  {
    var t2 := Moved(a1, a2);
    MoveUri(a1, a2, b);
    OfferSnoc(map[], [Offer(a1, None, [], 0)] + [Offer(a2, None, [], 1)], b, 2);
    OfferInserts(t2, b, 2);
    TwoOwners(t2[KeyOf(b) := NewRow(b, 2)], KeyOf(a1), KeyOf(b));
  }

  lemma TwoOwners(t: Table, k: Key, l: Key)
    requires k in t && l in t && k.id != l.id && MetadataOf(t[k].json).uri == MetadataOf(t[l].json).uri
    ensures !UrisUnique(t)
  {
  }

  /** Any two numbers under one sender, and any two URIs of allowed length, will do. */
  lemma UriCanBeTaken(chainId: u64, sender: Address, n: u64, n': u64, uri: string, uri': string)
    requires n != n' && uri != uri' && 0 < |uri| <= MAX_URI && 0 < |uri'| <= MAX_URI
    ensures var a1, a2 := Simple(1, chainId, sender, n, uri), Simple(2, chainId, sender, n, uri');
      TakesUri(a1, a2, Simple(1, chainId, sender, n', uri'))
  {
    if Guid(chainId, sender, n) == Guid(chainId, sender, n') { GuidInjective(chainId, sender, n, chainId, sender, n'); }
  }
}
