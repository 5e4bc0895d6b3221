/** Several nodes, a growing chain and arbitrary claims in flight: a premint is only taken as minted if it was. */
module Network {
  import opened Wrappers
  import opened ByteStrings
  import opened Premints
  import opened PremintTable
  import opened PremintRules
  import opened Gate
  import opened Claims

  datatype Mode = Check | Verify | Trust

  /** What checking a claim of a document comes to; errors on the way refuse it. */
  datatype ClaimCheck = Confirmed | Refused | Panicked

  /** The check of a simple premint's claim is not written: reached, it panics. */
  function CheckClaim(chains: Chains, p: Premint, c: InclusionClaim): ClaimCheck {
    match p
    case Simple(_, _, _, _, _) => if LookUp(chains, c).Some? then Panicked else Refused
    case ZoraV2(z) => if InclusionClaimCorrect(chains, z, c) == Some(true) then Confirmed else Refused
    case ZoraERC20V1(z) => if InclusionClaimCorrect(chains, z, c) == Some(true) then Confirmed else Refused
  }

  /** What a peer's claim does to the table: verified against the chain, or taken on trust. */
  function OnPeerClaim(t: Table, mode: Mode, trusted: bool, chains: Chains, c: InclusionClaim, prune: bool): Table {
    match mode
    case Trust => if trusted then Include(t, c, prune) else t
    case _ =>
      match GetByKey(t, Key(c.kind, c.premintId))
      case None => t
      case Some(p) => if CheckClaim(chains, p, c) == Confirmed then Include(t, c, prune) else t
  }

  /** The row is marked, or gone from a pruning node; nothing else of it has changed. */
  predicate Taken(t: Table, t': Table, k: Key, prune: bool)
    requires k in t
  {
    if prune then k !in t' else k in t' && t'[k] == t[k].(seen := true)
  }

  /** An inclusion claim takes the row of its kind and id exactly if that is of the claim's chain, and no other row. */
  lemma IncludeTakesIff(t: Table, c: InclusionClaim, prune: bool, k: Key)
    requires k in t && !t[k].seen
    ensures var t' := Include(t, c, prune);
      && (Taken(t, t', k, prune) <==> k == Key(c.kind, c.premintId) && t[k].chainId == AsI64(c.chainId))
      && (!Taken(t, t', k, prune) ==> k in t' && t'[k] == t[k])
      && forall l :: l in t' ==> l in t
  {
  }

  /** When a claim about a document is believed: in trust mode by the peer, otherwise by the chain. */
  ghost predicate Believed(mode: Mode, trusted: bool, chains: Chains, p: Premint, c: InclusionClaim) {
    if mode == Trust then trusted
    else match p
      case Simple(_, _, _, _, _) => false
      case ZoraV2(z) => InclusionClaimCorrect(chains, z, c) == Some(true)
      case ZoraERC20V1(z) => InclusionClaimCorrect(chains, z, c) == Some(true)
  }

  /** A peer's claim takes a row exactly if it names it, on its chain, and is believed of its document. */
  lemma PeerClaimTakesIff(t: Table, mode: Mode, trusted: bool, chains: Chains, c: InclusionClaim, prune: bool, k: Key)
    requires k in t && !t[k].seen
    ensures var t' := OnPeerClaim(t, mode, trusted, chains, c, prune);
      && (Taken(t, t', k, prune) <==>
            && k == Key(c.kind, c.premintId) && t[k].chainId == AsI64(c.chainId)
            && Believed(mode, trusted, chains, t[k].json, c))
      && (!Taken(t, t', k, prune) ==> k in t' && t'[k] == t[k])
      && forall l :: l in t' ==> l in t
  {
    IncludeTakesIff(t, c, prune, k);
  }

  /** A genuine V2 mint whose log is where its index says is taken by every node that checks or verifies its claim. */
  lemma GenuineMintTaken(t: Table, mode: Mode, trusted: bool, chains: Chains, z: Zora, log: Log, position: u64,
                         prune: bool)
    requires mode != Trust && OnRecord(chains, z.chainId, log, position)
    requires DistinctIndices(chains[z.chainId][log.txHash.value]) && log.logIndex == Some(position)
    requires log.address == FACTORY && log.event == Some(MintEvent(z.collectionAddress, z.uid))
    requires var k := KeyOf(ZoraV2(z)); k in t && ColumnsAgree(k, t[k]) && t[k].json == ZoraV2(z) && !t[k].seen
    ensures var c := MapClaim(z.chainId, log).value;
      Taken(t, OnPeerClaim(t, mode, trusted, chains, c, prune), KeyOf(ZoraV2(z)), prune)
  {
    GenuineMintConfirmedIff(chains, z, z.chainId, log, position);
    PeerClaimTakesIff(t, mode, trusted, chains, MapClaim(z.chainId, log).value, prune, KeyOf(ZoraV2(z)));
  }

  /** The gate's outcome, whichever of several rows with the document's address the query picked. */
  ghost predicate Gated(t: Table, p: Premint, others: Results, now: nat, t': Table, ok: bool) {
    var uri := MetadataOf(p).uri;
    exists answer :: UriAnswer(t, uri, answer) && (t', ok) == Gate.ValidateAndInsert(t, p, answer, others, now)
  }

  // ----- one node's controller -----

  datatype SwarmCommand = Broadcast(p: Premint) | SendOnchainMintFound(claim: InclusionClaim)

  class Controller {
    const store: PremintStorage
    const mode: Mode
    const trustedPeers: set<nat>
    var sent: seq<SwarmCommand>

    constructor (store: PremintStorage, mode: Mode, trustedPeers: set<nat>)
      ensures this.store == store && this.mode == mode && this.trustedPeers == trustedPeers && sent == []
    {
      this.store, this.mode, this.trustedPeers := store, mode, trustedPeers;
      sent := [];
    }

    /** Reads the table, asks the rules, and stores what they accept; a failing first lookup ends it at once. */
    method ValidateAndInsert(p: Premint, readable: bool, others: Results, now: nat) returns (ok: bool)
      modifies store.db
      ensures if readable then Gated(old(store.db.rows), p, others, now, store.db.rows, ok)
              else store.db.rows == old(store.db.rows) && !ok
    {
      if !readable {
        return false;
      }
      var m := MetadataOf(p);
      var existing := store.GetForIdAndKind(m.id, m.kind);
      var answer := store.GetForTokenUri(m.uri);
      if IsAccept(Evaluate(p, existing, answer, others)) {
        ok := store.Store(p, now);
      } else {
        ok := false;
      }
    }

    /** A document is sent on exactly if it was stored here. */
    method HandleBroadcast(p: Premint, readable: bool, others: Results, now: nat) returns (ok: bool)
      modifies store.db, this`sent
      ensures if readable then Gated(old(store.db.rows), p, others, now, store.db.rows, ok)
              else store.db.rows == old(store.db.rows) && !ok
      ensures sent == old(sent) + if ok then [Broadcast(p)] else []
    {
      ok := ValidateAndInsert(p, readable, others, now);
      if ok {
        sent := sent + [Broadcast(p)];
      }
    }

    method HandleOnchainClaim(chains: Chains, c: InclusionClaim, fromPeer: nat) returns (panicked: bool)
      modifies store.db
      ensures store.db.rows == OnPeerClaim(old(store.db.rows), mode, fromPeer in trustedPeers, chains, c, store.prune)
      ensures var p := GetByKey(old(store.db.rows), Key(c.kind, c.premintId));
        panicked <==> mode != Trust && p.Some? && p.value.Simple? && LookUp(chains, c).Some?
    {
      if mode == Trust {
        if fromPeer in trustedPeers {
          store.MarkSeenOnChain(c);
        }
      } else {
        var p := store.GetForIdAndKind(c.premintId, c.kind);
        if p.Some? {
          match CheckClaim(chains, p.value, c)
          case Confirmed => store.MarkSeenOnChain(c);
          case Refused =>
          case Panicked => return true;
        }
      }
      return false;
    }

    /** A claim of the node's own watcher is believed, and passed on in check mode. */
    method ResolveOnchainMint(c: InclusionClaim)
      modifies store.db, this`sent
      ensures store.db.rows == Include(old(store.db.rows), c, store.prune)
      ensures sent == old(sent) + if mode == Check then [SendOnchainMintFound(c)] else []
    {
      store.MarkSeenOnChain(c);
      if mode == Check {
        sent := sent + [SendOnchainMintFound(c)];
      }
    }
  }

  // ----- many nodes -----

  /** `gone` are the documents a pruning node has deleted. */
  datatype Node = Node(mode: Mode, prune: bool, table: Table, gone: set<Premint>)

  datatype World = World(nodes: seq<Node>, chains: Chains)

  /** The chain only grows; what an endpoint answers may lag behind or be missing, never differ. */
  ghost predicate Extends(view: Chains, chains: Chains) {
    forall c, tx :: c in view && tx in view[c] ==> c in chains && tx in chains[c] && chains[c][tx] == view[c][tx]
  }

  datatype Action =
    | Grow(chains: Chains)
    | Offer(n: nat, p: Premint, now: nat)
    | PeerClaim(n: nat, claim: InclusionClaim, trusted: bool, view: Chains)
    | Watch(n: nat, chainId: u64, tx: nat, i: nat)

  /** A watcher only sees logs that passed its filter: the factory's, on the chain. */
  ghost predicate Watched(chains: Chains, chainId: u64, tx: nat, i: nat) {
    && chainId in chains && tx in chains[chainId] && i < |chains[chainId][tx].logs|
    && chains[chainId][tx].logs[i].address == FACTORY
    && chains[chainId][tx].logs[i].event.Some?
  }

  ghost predicate Enabled(w: World, a: Action) {
    match a
    case Grow(chains) => Extends(w.chains, chains)
    case Offer(n, _, _) => n < |w.nodes|
    case PeerClaim(n, _, _, view) => n < |w.nodes| && Extends(view, w.chains)
    case Watch(n, chainId, tx, i) => n < |w.nodes| && w.nodes[n].mode == Check && Watched(w.chains, chainId, tx, i)
  }

  /** A node after its table changed; what disappeared is gone. */
  function Changed(node: Node, t: Table): Node {
    node.(table := t, gone := node.gone + set k | k in node.table && k !in t :: node.table[k].json)
  }

  ghost function Do(w: World, a: Action): World {
    if !Enabled(w, a) then w
    else match a
      case Grow(chains) => w.(chains := chains)
      case Offer(n, p, now) => w.(nodes := w.nodes[n := Changed(w.nodes[n], Upsert(w.nodes[n].table, p, now).0)])
      case PeerClaim(n, c, trusted, view) =>
        var node := w.nodes[n];
        w.(nodes := w.nodes[n := Changed(node, OnPeerClaim(node.table, node.mode, trusted, view, c, node.prune))])
      case Watch(n, chainId, tx, i) =>
        var node := w.nodes[n];
        var c := MapClaim(chainId, w.chains[chainId][tx].logs[i]).value;
        w.(nodes := w.nodes[n := Changed(node, Include(node.table, c, node.prune))])
  }

  ghost function Run(w: World, acts: seq<Action>): World {
    if acts == [] then w else Do(Run(w, acts[..|acts| - 1]), acts[|acts| - 1])
  }

  /** The document is a V2 premint the factory has minted, on its own chain. */
  ghost predicate Proven(chains: Chains, p: Premint) {
    p.ZoraV2? && Minted(chains, p.zora.chainId, p.zora.collectionAddress, p.zora.uid)
  }

  ghost predicate NodeSafe(chains: Chains, node: Node) {
    && node.mode != Trust
    && Columns(node.table)
    && (forall k :: k in node.table && node.table[k].seen ==> Proven(chains, node.table[k].json))
    && (forall p :: p in node.gone ==> Proven(chains, p))
  }

  lemma MintedStays(view: Chains, chains: Chains, chainId: u64, collection: Address, uid: u32)
    requires Extends(view, chains) && Minted(view, chainId, collection, uid)
    ensures Minted(chains, chainId, collection, uid)
  {
    var tx, i :| MintAt(view, chainId, collection, uid, tx, i);
    assert MintAt(chains, chainId, collection, uid, tx, i);
  }

  /** A claim that names a mint: of whatever collection and uid, but by its id and kind. */
  ghost predicate NamesMint(chains: Chains, c: InclusionClaim) {
    c.kind == ZORA_V2 && exists e: MintEvent :: Names(chains, c, e)
  }

  ghost predicate Names(chains: Chains, c: InclusionClaim, e: MintEvent) {
    c.premintId == Guid(c.chainId, e.contractAddress, e.uid) && Minted(chains, c.chainId, e.contractAddress, e.uid)
  }

  /** The row such a claim's id picks out holds a document proven minted: identifiers determine what they name. */
  lemma NamedRowProven(chains: Chains, t: Table, c: InclusionClaim)
    requires Columns(t) && NamesMint(chains, c) && Hits(t, c)
    ensures Proven(chains, t[Key(c.kind, c.premintId)].json)
  {
    var k := Key(c.kind, c.premintId);
    var p := t[k].json;
    assert ColumnsAgree(k, t[k]);
    KindsDiffer();
    var e: MintEvent :| Names(chains, c, e);
    GuidInjective(p.zora.chainId, p.zora.collectionAddress, p.zora.uid, c.chainId, e.contractAddress, e.uid);
  }

  lemma IncludeSafe(chains: Chains, node: Node, c: InclusionClaim)
    requires NodeSafe(chains, node) && (Hits(node.table, c) ==> NamesMint(chains, c))
    ensures NodeSafe(chains, Changed(node, Include(node.table, c, node.prune)))
  {
    var t, t' := node.table, Include(node.table, c, node.prune);
    IncludeKeepsColumns(t, c, node.prune);
    if Hits(t, c) {
      NamedRowProven(chains, t, c);
    }
    forall k | k in t' && t'[k].seen
      ensures Proven(chains, t'[k].json)
    {
      assert k in t && t'[k].json == t[k].json;
    }
    forall p | p in Changed(node, t').gone
      ensures Proven(chains, p)
    {
      if p !in node.gone {
        var k :| k in t && k !in t' && t[k].json == p;
        assert Hits(t, c) && k == Key(c.kind, c.premintId);
      }
    }
  }

  lemma UpsertSafe(chains: Chains, node: Node, p: Premint, now: nat)
    requires NodeSafe(chains, node)
    ensures NodeSafe(chains, Changed(node, Upsert(node.table, p, now).0))
  {
    var t, t' := node.table, Upsert(node.table, p, now).0;
    UpsertKeepsColumns(t, p, now);
    assert Changed(node, t').gone == node.gone;
    forall k | k in t' && t'[k].seen
      ensures Proven(chains, t'[k].json)
    {
      UpsertedRowProven(chains, node, p, now, k);
    }
  }

  lemma UpsertedRowProven(chains: Chains, node: Node, p: Premint, now: nat, k: Key)
    requires NodeSafe(chains, node)
    requires k in Upsert(node.table, p, now).0 && Upsert(node.table, p, now).0[k].seen
    ensures Proven(chains, Upsert(node.table, p, now).0[k].json)
  {
    if k == KeyOf(p) {
      assert k in node.table && node.table[k].seen;
      assert ColumnsAgree(k, node.table[k]);
      SameProof(chains, node.table[k].json, p);
    }
  }

  /** A mint proven for one version of a document is proven for every version. */
  lemma SameProof(chains: Chains, p: Premint, q: Premint)
    requires KeyOf(p) == KeyOf(q) && Proven(chains, p)
    ensures Proven(chains, q)
  {
    KeyDetermines(p, q);
  }

  lemma PeerClaimSafe(chains: Chains, node: Node, c: InclusionClaim, trusted: bool, view: Chains)
    requires NodeSafe(chains, node) && Extends(view, chains)
    ensures NodeSafe(chains, Changed(node, OnPeerClaim(node.table, node.mode, trusted, view, c, node.prune)))
  {
    match GetByKey(node.table, Key(c.kind, c.premintId))
    case None => IncludeSafe(chains, node, c);
    case Some(p) =>
      if CheckClaim(view, p, c) == Confirmed {
        CorrectClaimIsMint(view, p.zora, c);
        MintedStays(view, chains, c.chainId, p.zora.collectionAddress, p.zora.uid);
        NamedBy(chains, c, MintEvent(p.zora.collectionAddress, p.zora.uid));
        IncludeSafe(chains, node, c);
      }
  }

  lemma NamedBy(chains: Chains, c: InclusionClaim, e: MintEvent)
    requires c.kind == ZORA_V2 && c.premintId == Guid(c.chainId, e.contractAddress, e.uid)
    requires Minted(chains, c.chainId, e.contractAddress, e.uid)
    ensures NamesMint(chains, c)
  {
    assert Names(chains, c, e);
  }

  lemma WatchSafe(chains: Chains, node: Node, chainId: u64, tx: nat, i: nat)
    requires NodeSafe(chains, node) && Watched(chains, chainId, tx, i)
    ensures var c := MapClaim(chainId, chains[chainId][tx].logs[i]).value;
      NodeSafe(chains, Changed(node, Include(node.table, c, node.prune)))
  {
    var log := chains[chainId][tx].logs[i];
    var e := log.event.value;
    assert MintAt(chains, chainId, e.contractAddress, e.uid, tx, i);
    NamedBy(chains, MapClaim(chainId, log).value, e);
    IncludeSafe(chains, node, MapClaim(chainId, log).value);
  }

  lemma GrowSafe(chains: Chains, chains': Chains, node: Node)
    requires NodeSafe(chains, node) && Extends(chains, chains')
    ensures NodeSafe(chains', node)
  {
    forall p | Proven(chains, p)
      ensures Proven(chains', p)
    {
      MintedStays(chains, chains', p.zora.chainId, p.zora.collectionAddress, p.zora.uid);
    }
  }

  lemma StepSafe(w: World, a: Action, n: nat)
    requires n < |w.nodes| && NodeSafe(w.chains, w.nodes[n])
    ensures var w' := Do(w, a); |w'.nodes| == |w.nodes| && NodeSafe(w'.chains, w'.nodes[n])
  {
    if Enabled(w, a) {
      match a
      case Grow(chains) => GrowSafe(w.chains, chains, w.nodes[n]);
      case Offer(i, p, now) =>
        if i == n { UpsertSafe(w.chains, w.nodes[n], p, now); }
      case PeerClaim(i, c, trusted, view) =>
        if i == n { PeerClaimSafe(w.chains, w.nodes[n], c, trusted, view); }
      case Watch(i, chainId, tx, log) =>
        if i == n { WatchSafe(w.chains, w.nodes[n], chainId, tx, log); }
    }
  }

  /** The table is in line with its documents, and nothing is marked or deleted yet. */
  ghost predicate Unmarked(node: Node) {
    Columns(node.table) && node.gone == {} && forall k :: k in node.table ==> !node.table[k].seen
  }

  /**
   * Claim safety of one node that checks or verifies, whatever the others do and whomever they trust: over every run,
   * with any claims in flight, any documents offered and the chain growing, each premint it has marked or pruned is a
   * V2 premint the factory minted on its own chain, with its own collection and uid.
   */
  lemma {:induction false} NodeClaimSafety(w: World, acts: seq<Action>, n: nat)
    requires n < |w.nodes| && w.nodes[n].mode != Trust && Unmarked(w.nodes[n])
    ensures var w' := Run(w, acts); |w'.nodes| == |w.nodes| && NodeSafe(w'.chains, w'.nodes[n])
  {
    if acts == [] {
    } else {
      NodeClaimSafety(w, acts[..|acts| - 1], n);
      StepSafe(Run(w, acts[..|acts| - 1]), acts[|acts| - 1], n);
    }
  }

  /** All the nodes that trust nobody start unmarked. */
  ghost predicate Initial(w: World) {
    forall n :: 0 <= n < |w.nodes| && w.nodes[n].mode != Trust ==> Unmarked(w.nodes[n])
  }

  /** So all of them stay safe, in a world where others may trust their peers. */
  lemma ClaimSafety(w: World, acts: seq<Action>)
    requires Initial(w)
    ensures var w' := Run(w, acts);
      |w'.nodes| == |w.nodes| &&
      forall n :: 0 <= n < |w.nodes| && w.nodes[n].mode != Trust ==> NodeSafe(w'.chains, w'.nodes[n])
  {
    RunKeepsNodes(w, acts);
    forall n | 0 <= n < |w.nodes| && w.nodes[n].mode != Trust
      ensures NodeSafe(Run(w, acts).chains, Run(w, acts).nodes[n])
    {
      NodeClaimSafety(w, acts, n);
    }
  }

  lemma {:induction false} RunKeepsNodes(w: World, acts: seq<Action>)
    ensures |Run(w, acts).nodes| == |w.nodes|
  {
    if acts == [] {
    } else {
      RunKeepsNodes(w, acts[..|acts| - 1]);
    }
  }
}
