/** Deleting included premints against marking them: when the two cannot be told apart from outside. */
module Pruning {
  import opened Wrappers
  import opened ByteStrings
  import opened Premints
  import opened PremintTable
  import opened PremintRules
  import opened Gate

  /** The rows a marking table still shows. */
  function Visible(t: Table): Table {
    map k | k in t && !t[k].seen :: t[k]
  }

  predicate IsMarked(t: Table, k: Key) {
    k in t && t[k].seen
  }

  /** Every list query answers from the visible rows alone. */
  lemma ListsVisible(t: Table, o: QueryOptions, ps: seq<Premint>)
    ensures Lists(Visible(t), o, ps) <==> Lists(t, o, ps)
  {
    forall ks
      ensures Enumerates(ks, Visible(t), o) <==> Enumerates(ks, t, o)
      ensures Enumerates(ks, t, o) ==> forall k :: k in ks ==> k in Visible(t)
      ensures Enumerates(ks, t, o) ==> Documents(Visible(t), ks) == Documents(t, ks)
    {
      assert forall k :: k in Visible(t) && Wanted(o, k, Visible(t)[k]) <==> k in t && Wanted(o, k, t[k]);
    }
  }

  // ----- statement by statement -----

  /** A pruning table that shows a marking table's visible rows keeps doing so through any inclusion claim. */
  lemma ClaimSimulates(t: Table, c: InclusionClaim)
    ensures Include(Visible(t), c, true) == Visible(Include(t, c, false))
  {
  }

  /** And through a store exactly when the stored key is not marked. */
  lemma PutSimulatesIff(t: Table, p: Premint, now: nat)
    ensures Upsert(Visible(t), p, now).0 == Visible(Upsert(t, p, now).0) <==> !IsMarked(t, KeyOf(p))
  {
    var k := KeyOf(p);
    if IsMarked(t, k) {
      assert k in Upsert(Visible(t), p, now).0;
      assert k !in Visible(Upsert(t, p, now).0);
    } else {
      assert Upsert(Visible(t), p, now).0 == Visible(Upsert(t, p, now).0);
    }
  }

  datatype Write = Put(p: Premint, now: nat) | Seen(claim: InclusionClaim)

  function Apply(t: Table, w: Write, prune: bool): Table {
    match w
    case Put(p, now) => Upsert(t, p, now).0
    case Seen(c) => Include(t, c, prune)
  }

  function ApplyAll(t: Table, ws: seq<Write>, prune: bool): Table {
    if ws == [] then t else Apply(ApplyAll(t, ws[..|ws| - 1], prune), ws[|ws| - 1], prune)
  }

  /** No store of the run meets a row already marked. */
  ghost predicate NeverRestored(t: Table, ws: seq<Write>) {
    ws == [] ||
    (NeverRestored(t, ws[..|ws| - 1]) &&
     (ws[|ws| - 1].Put? ==> !IsMarked(ApplyAll(t, ws[..|ws| - 1], false), KeyOf(ws[|ws| - 1].p))))
  }

  /**
   * Given the same statements, none of them a store to a marked key, a pruning table holds exactly the visible rows of
   * a marking one.  Which stores there are is another matter: the gate decides that, and it reads the table.
   */
  lemma {:induction false} WritesSimulateMark(t: Table, ws: seq<Write>)
    requires NeverRestored(t, ws)
    ensures ApplyAll(Visible(t), ws, true) == Visible(ApplyAll(t, ws, false))
  {
    if ws == [] {
    } else {
      var before, w := ws[..|ws| - 1], ws[|ws| - 1];
      WritesSimulateMark(t, before);
      match w
      case Put(p, now) => PutSimulatesIff(ApplyAll(t, before, false), p, now);
      case Seen(c) => ClaimSimulates(ApplyAll(t, before, false), c);
    }
  }

  lemma {:induction false} WritesKeepColumns(t: Table, ws: seq<Write>, prune: bool)
    requires Columns(t)
    ensures Columns(ApplyAll(t, ws, prune))
  {
    if ws == [] {
    } else {
      var before, w := ws[..|ws| - 1], ws[|ws| - 1];
      WritesKeepColumns(t, before, prune);
      match w
      case Put(p, now) => UpsertKeepsColumns(ApplyAll(t, before, prune), p, now);
      case Seen(c) => IncludeKeepsColumns(ApplyAll(t, before, prune), c, prune);
    }
  }

  lemma {:induction false} MarkStays(t: Table, ws: seq<Write>, n: nat, k: Key)
    requires n <= |ws| && IsMarked(ApplyAll(t, ws[..n], false), k)
    ensures IsMarked(ApplyAll(t, ws, false), k)
    decreases |ws|
  {
    if n == |ws| {
      assert ws[..n] == ws;
    } else {
      assert ws[..|ws| - 1][..n] == ws[..n];
      MarkStays(t, ws[..|ws| - 1], n, k);
    }
  }

  /** In mark mode no document of a marked key is ever listed again, whatever is stored later. */
  lemma MarkedNeverListed(t: Table, ws: seq<Write>, n: nat, p: Premint, o: QueryOptions, ps: seq<Premint>)
    requires Columns(t) && n <= |ws| && IsMarked(ApplyAll(t, ws[..n], false), KeyOf(p))
    requires Lists(ApplyAll(t, ws, false), o, ps)
    ensures p !in ps
  {
    MarkStays(t, ws, n, KeyOf(p));
    WritesKeepColumns(t, ws, false);
    MarkedIsUnlisted(ApplyAll(t, ws, false), o, ps, p);
  }

  lemma MarkedIsUnlisted(t: Table, o: QueryOptions, ps: seq<Premint>, p: Premint)
    requires Columns(t) && Lists(t, o, ps) && IsMarked(t, KeyOf(p))
    ensures p !in ps
  {
    var ks :| Enumerates(ks, t, o) && ps == Documents(t, ks);
    forall i | 0 <= i < |ps|
      ensures ps[i] != p
    {
      assert ks[i] in ks && ColumnsAgree(ks[i], t[ks[i]]);
    }
  }

  // ----- through the gate -----

  /** Rows of another id show the URI, and every row that shows it is marked. */
  ghost predicate OnlyMarkedShow(t: Table, id: string, uri: string) {
    && (exists l :: l in t && t[l].tokenUri == uri && l.id != id)
    && (forall l :: l in t && t[l].tokenUri == uri ==> t[l].seen)
  }

  /**
   * A pruning node stores the document although its key is marked where marking is done, or although its URI is shown
   * there by another id, but by marked rows only.
   */
  ghost predicate Forgets(t: Table, p: Premint, answer: Option<Premint>, others: Results, now: nat) {
    && ValidateAndInsert(Visible(t), p, answer, others, now).1
    && (IsMarked(t, KeyOf(p)) || (Failed !in others && OnlyMarkedShow(t, KeyOf(p).id, MetadataOf(p).uri)))
  }

  /** Every row that shows the URI belongs to this id. */
  ghost predicate OwnUri(t: Table, id: string, uri: string) {
    forall l :: l in t && t[l].tokenUri == uri ==> l.id == id
  }

  /** What the URI rule decides, whichever row it was given. */
  lemma UriVerdict(t: Table, p: Premint, answer: Option<Premint>)
    requires Columns(t) && UriOwners(t) && UriAnswer(t, MetadataOf(p).uri, answer)
    ensures (answer.Some? ==> MetadataOf(answer.value).id == KeyOf(p).id) <==> OwnUri(t, KeyOf(p).id, MetadataOf(p).uri)
  {
    if answer.Some? {
      var k :| k in t && t[k].tokenUri == MetadataOf(p).uri && t[k].json == answer.value;
      assert ColumnsAgree(k, t[k]);
    }
  }

  lemma VisibleShow(t: Table, uri: string)
    requires exists k :: k in t && t[k].tokenUri == uri && !t[k].seen
    ensures exists k :: k in Visible(t) && Visible(t)[k].tokenUri == uri
  {
    var k :| k in t && t[k].tokenUri == uri && !t[k].seen;
    assert k in Visible(t);
  }

  /** The two nodes differ on a URI only when it is shown by marked rows alone. */
  lemma OwnUris(t: Table, id: string, uri: string)
    requires UriOwners(t)
    ensures OwnUri(t, id, uri) <==> OwnUri(Visible(t), id, uri) && !OnlyMarkedShow(t, id, uri)
  {
    if OwnUri(Visible(t), id, uri) && !OnlyMarkedShow(t, id, uri) {
      forall l | l in t && t[l].tokenUri == uri
        ensures l.id == id
      {
        if l.id != id {
          VisibleShow(t, uri);
        }
      }
    }
    assert forall l :: l in Visible(t) ==> l in t && Visible(t)[l] == t[l];
  }

  lemma VisibleInOrder(t: Table)
    requires Columns(t) && UriOwners(t)
    ensures Columns(Visible(t)) && UriOwners(Visible(t))
  {
  }

  /** The verdicts of the two nodes on a document whose key is not marked. */
  lemma Verdicts(t: Table, p: Premint, a: Option<Premint>, b: Option<Premint>, others: Results)
    requires Columns(t) && UriOwners(t) && !IsMarked(t, KeyOf(p))
    requires UriAnswer(t, MetadataOf(p).uri, a) && UriAnswer(Visible(t), MetadataOf(p).uri, b)
    ensures var k := KeyOf(p);
      IsAccept(Evaluate(p, GetByKey(t, k), a, others)) <==>
        IsAccept(Evaluate(p, GetByKey(Visible(t), k), b, others)) &&
        (Failed in others || !OnlyMarkedShow(t, k.id, MetadataOf(p).uri))
  {
    var k := KeyOf(p);
    assert GetByKey(t, k) == GetByKey(Visible(t), k);
    AcceptedMeans(p, GetByKey(t, k), a, others);
    AcceptedMeans(p, GetByKey(t, k), b, others);
    VisibleInOrder(t);
    UriVerdict(t, p, a);
    UriVerdict(Visible(t), p, b);
    OwnUris(t, k.id, MetadataOf(p).uri);
  }

  /** A store that succeeds changes the table. */
  lemma StoredChanges(t: Table, p: Premint, now: nat)
    ensures Upsert(t, p, now).1 <==> Upsert(t, p, now).0 != t
  {
    var k := KeyOf(p);
    assert Upsert(t, p, now).1 && k in t ==> Upsert(t, p, now).0[k].version != t[k].version;
  }

  /** Through one offer a pruning node keeps to the visible rows of a marking one exactly unless it forgets. */
  lemma OfferSimulatesIff(t: Table, p: Premint, a: Option<Premint>, b: Option<Premint>, others: Results, now: nat)
    requires Columns(t) && UriOwners(t)
    requires UriAnswer(t, MetadataOf(p).uri, a) && UriAnswer(Visible(t), MetadataOf(p).uri, b)
    ensures var pruned := ValidateAndInsert(Visible(t), p, b, others, now).0;
      pruned == Visible(ValidateAndInsert(t, p, a, others, now).0) <==> !Forgets(t, p, b, others, now)
  {
    StoredChanges(Visible(t), p, now);
    var k := KeyOf(p);
    var there := IsAccept(Evaluate(p, GetByKey(t, k), a, others));
    var here := IsAccept(Evaluate(p, GetByKey(Visible(t), k), b, others));
    if IsMarked(t, k) {
      MarkedStoreIsHidden(t, p, now);
    } else {
      Verdicts(t, p, a, b, others);
      PutSimulatesIff(t, p, now);
    }
  }

  lemma MarkedStoreIsHidden(t: Table, p: Premint, now: nat)
    requires IsMarked(t, KeyOf(p))
    ensures Visible(Upsert(t, p, now).0) == Visible(t)
  {
  }

  /** The same event met by two nodes, whose URI lookups may answer differently. */
  predicate Twins(e: Event, f: Event) {
    match e
    case Offer(p, _, others, now) => f.Offer? && f.p == p && f.others == others && f.now == now
    case Claim(_) => f == e
  }

  /** The marking node's table, the event, and whether the pruning node forgets on it. */
  ghost predicate ForgetsOn(t: Table, f: Event) {
    f.Offer? && Forgets(t, f.p, f.answer, f.others, f.now)
  }

  lemma HandleSimulatesIff(t: Table, e: Event, f: Event)
    requires InOrder(t) && Twins(e, f) && Answered(t, e) && Answered(Visible(t), f)
    ensures Handle(Visible(t), f, true) == Visible(Handle(t, e, false)) <==> !ForgetsOn(t, f)
  {
    match e
    case Offer(p, a, others, now) => OfferSimulatesIff(t, p, a, f.answer, others, now);
    case Claim(c) => ClaimSimulates(t, c);
  }

  /** At the start and after every event the pruning node holds exactly the visible rows of the marking node. */
  ghost predicate AlikeThroughout(t: Table, es: seq<Event>, fs: seq<Event>)
    requires |es| == |fs|
  {
    es == [] ||
    (AlikeThroughout(t, es[..|es| - 1], fs[..|fs| - 1]) &&
     HandleAll(Visible(t), fs, true) == Visible(HandleAll(t, es, false)))
  }

  ghost predicate NeverForgets(t: Table, es: seq<Event>, fs: seq<Event>)
    requires |es| == |fs|
  {
    es == [] ||
    (NeverForgets(t, es[..|es| - 1], fs[..|fs| - 1]) &&
     !ForgetsOn(HandleAll(t, es[..|es| - 1], false), fs[|fs| - 1]))
  }

  lemma AlikeAtEnd(t: Table, es: seq<Event>, fs: seq<Event>)
    requires |es| == |fs| && AlikeThroughout(t, es, fs)
    ensures HandleAll(Visible(t), fs, true) == Visible(HandleAll(t, es, false))
  {
  }

  /**
   * Two nodes that meet the same error-free events, one pruning and one marking, hold the same visible rows throughout
   * exactly as long as the pruning node never stores a document under a key the other has marked, or under a URI that
   * only marked rows of another id show there.
   */
  lemma {:induction false} PruneSimulatesMark(t: Table, es: seq<Event>, fs: seq<Event>)
    requires InOrder(t) && |es| == |fs| && forall i :: 0 <= i < |es| ==> Twins(es[i], fs[i])
    requires ErrorFree(t, es, false) && ErrorFree(Visible(t), fs, true)
    ensures AlikeThroughout(t, es, fs) <==> NeverForgets(t, es, fs)
  {
    if es == [] {
    } else {
      var es', fs' := es[..|es| - 1], fs[..|fs| - 1];
      PruneSimulatesMark(t, es', fs');
      RunKeepsTable(t, es', false);
      if AlikeThroughout(t, es', fs') {
        AlikeAtEnd(t, es', fs');
        HandleSimulatesIff(HandleAll(t, es', false), es[|es'|], fs[|es'|]);
      }
    }
  }

  /** As long as they do, every list query has the same answers from both. */
  lemma AlikeListsAlike(t: Table, es: seq<Event>, fs: seq<Event>, o: QueryOptions, ps: seq<Premint>)
    requires |es| == |fs| && AlikeThroughout(t, es, fs)
    ensures Lists(HandleAll(Visible(t), fs, true), o, ps) <==> Lists(HandleAll(t, es, false), o, ps)
  {
    AlikeAtEnd(t, es, fs);
    ListsVisible(HandleAll(t, es, false), o, ps);
  }

  // ----- how the two come apart -----

  /** p's row as it is once stored, and once its mint is claimed. */
  function Claimed(p: Premint): Table {
    map[KeyOf(p) := NewRow(p, 0).(seen := true)]
  }

  /**
   * Once a premint has been claimed, another id offered under its URI is turned down where it was marked and stored
   * where it was pruned, though nothing is stored under a marked key.
   */
  lemma PrunedUriIsFree(p: Premint, q: Premint, now: nat)
    requires MetadataOf(p).uri == MetadataOf(q).uri && MetadataOf(p).id != MetadataOf(q).id
    requires TokenUriLength(MetadataOf(q)) == Accept
    ensures var t, uri := Claimed(p), MetadataOf(q).uri;
      && InOrder(t) && Visible(t) == map[] && !IsMarked(t, KeyOf(q))
      && UriAnswer(t, uri, Some(p)) && ValidateAndInsert(t, q, Some(p), [], now) == (t, false)
      && UriAnswer(map[], uri, None)
      && ValidateAndInsert(map[], q, None, [], now) == (map[KeyOf(q) := NewRow(q, now)], true)
  {
    var t := Claimed(p);
    assert KeyOf(p) in t;
    AcceptedMeans(q, None, Some(p), []);
    AcceptedMeans(q, None, None, []);
  }

  /** The claimed row is what storing the document and then marking its mint leave. */
  lemma ClaimedIsReached(p: Premint, txHash: nat, logIndex: u64)
    requires TokenUriLength(MetadataOf(p)) == Accept
    ensures var m := MetadataOf(p);
      var es := [Offer(p, None, [], 0)] + [Claim(InclusionClaim(m.id, m.chainId, txHash, logIndex, m.kind))];
      ErrorFree(map[], es, false) && HandleAll(map[], es, false) == Claimed(p)
  {
    var m := MetadataOf(p);
    var es := [Offer(p, None, [], 0)] + [Claim(InclusionClaim(m.id, m.chainId, txHash, logIndex, m.kind))];
    FirstOffer(p);
    assert es[..1] == [Offer(p, None, [], 0)];
  }
}
