/** Inclusion claims: what a node claims of a log, and what another node accepts as proof of it. */
module Claims {
  import opened Wrappers
  import opened ByteStrings
  import opened Premints
  import opened PremintTable

  /** The decoded mint event; a log whose topics or data do not decode carries none. */
  datatype MintEvent = MintEvent(contractAddress: Address, uid: u32)

  datatype Log = Log(address: Address, event: Option<MintEvent>, txHash: Option<nat>, logIndex: Option<u64>)

  datatype Receipt = Receipt(txHash: nat, logs: seq<Log>)

  /** What the nodes' RPC endpoints answer: for each reachable chain, the receipts by transaction hash. */
  type Chains = map<u64, map<nat, Receipt>>

  const FACTORY: Address :=
    [0x77, 0x77, 0x77, 0x36, 0x06, 0xe7, 0xe4, 0x6C, 0x8B, 0xa8,
     0xB9, 0x8C, 0x08, 0xf5, 0xcD, 0x21, 0x8e, 0x31, 0xd3, 0x40]

  function OrDefault(x: Option<nat>): nat {
    match x case Some(n) => n case None => 0
  }

  function IndexOf(log: Log): u64 {
    match log.logIndex case Some(n) => n case None => 0
  }

  /** The claim a watching node makes of a log; none when the log does not decode. */
  function MapClaim(chainId: u64, log: Log): Option<InclusionClaim> {
    match log.event
    case None => None
    case Some(e) =>
      var id := Guid(chainId, e.contractAddress, e.uid);
      Some(InclusionClaim(id, chainId, OrDefault(log.txHash), IndexOf(log), ZORA_V2))
  }

  /** Whether a receipt and a log bear a claim about this document out. */
  function VerifyClaim(z: Zora, chainId: u64, tx: Receipt, log: Log, c: InclusionClaim): bool {
    match log.event
    case None => false
    case Some(e) =>
      && log.address == FACTORY
      && OrDefault(log.txHash) == tx.txHash
      && c.txHash == tx.txHash
      && c.logIndex == IndexOf(log)
      && c.premintId == Guid(chainId, e.contractAddress, e.uid)
      && c.kind == ZORA_V2
      && c.chainId == chainId
      && z.collectionAddress == e.contractAddress
      && z.uid == e.uid
  }

  /** The receipt and the log a claim points at, looked up by its position; None stands for every error on the way. */
  function LookUp(chains: Chains, c: InclusionClaim): Option<(Receipt, Log)> {
    if c.chainId !in chains then None
    else if c.txHash !in chains[c.chainId] then None
    else
      var tx := chains[c.chainId][c.txHash];
      if c.logIndex >= |tx.logs| then None else Some((tx, tx.logs[c.logIndex]))
  }

  /** The check of a Zora document's claim against the chain. */
  function InclusionClaimCorrect(chains: Chains, z: Zora, c: InclusionClaim): Option<bool> {
    match LookUp(chains, c)
    case None => None
    case Some((tx, log)) => Some(VerifyClaim(z, c.chainId, tx, log, c))
  }

  /** A mint of a collection and uid by the factory, on record at a chain. */
  predicate MintAt(chains: Chains, chainId: u64, collection: Address, uid: u32, tx: nat, i: nat) {
    && chainId in chains && tx in chains[chainId] && i < |chains[chainId][tx].logs|
    && chains[chainId][tx].logs[i].address == FACTORY
    && chains[chainId][tx].logs[i].event == Some(MintEvent(collection, uid))
  }

  ghost predicate Minted(chains: Chains, chainId: u64, collection: Address, uid: u32) {
    exists tx, i :: MintAt(chains, chainId, collection, uid, tx, i)
  }

  /**
   * What bears a claim out: it is, field for field, the claim a watcher makes of the log, which is the factory's, of
   * the receipt's transaction, and names the document's collection and uid.
   */
  lemma VerifyIff(z: Zora, chainId: u64, tx: Receipt, log: Log, c: InclusionClaim)
    ensures VerifyClaim(z, chainId, tx, log, c) <==>
      && MapClaim(chainId, log) == Some(c)
      && log.address == FACTORY && OrDefault(log.txHash) == tx.txHash
      && log.event == Some(MintEvent(z.collectionAddress, z.uid))
  {
  }

  /**
   * Verifying the claim made of a log, with that log: it holds exactly when the log is the factory's, belongs to the
   * receipt's transaction, and names the document's collection and uid.
   */
  lemma VerifyMappedIff(z: Zora, chainId: u64, tx: Receipt, log: Log)
    requires log.event.Some?
    ensures VerifyClaim(z, chainId, tx, log, MapClaim(chainId, log).value) <==>
      && log.address == FACTORY && OrDefault(log.txHash) == tx.txHash
      && log.event.value == MintEvent(z.collectionAddress, z.uid)
  {
  }

  /** A claim the chain check confirms names a factory mint of the document, and the document's id on that chain. */
  lemma CorrectClaimIsMint(chains: Chains, z: Zora, c: InclusionClaim)
    requires InclusionClaimCorrect(chains, z, c) == Some(true)
    ensures Minted(chains, c.chainId, z.collectionAddress, z.uid)
    ensures c.premintId == Guid(c.chainId, z.collectionAddress, z.uid) && c.kind == ZORA_V2
  {
    assert MintAt(chains, c.chainId, z.collectionAddress, z.uid, c.txHash, c.logIndex);
  }

  /** The log sits in its own transaction's receipt, at this position. */
  predicate OnRecord(chains: Chains, chainId: u64, log: Log, position: nat) {
    && chainId in chains && log.txHash.Some? && log.logIndex.Some?
    && log.txHash.value in chains[chainId]
    && chains[chainId][log.txHash.value].txHash == log.txHash.value
    && position < |chains[chainId][log.txHash.value].logs|
    && chains[chainId][log.txHash.value].logs[position] == log
  }

  /** Logs of one receipt have indices, all different. */
  predicate DistinctIndices(r: Receipt) {
    && (forall i :: 0 <= i < |r.logs| ==> r.logs[i].logIndex.Some?)
    && (forall i, j :: 0 <= i < j < |r.logs| ==> r.logs[i].logIndex != r.logs[j].logIndex)
  }

  /**
   * The claim made of a genuine mint on record is confirmed exactly when the log's index, which counts within its
   * block, is also its position in its own receipt.
   */
  lemma GenuineMintConfirmedIff(chains: Chains, z: Zora, chainId: u64, log: Log, position: nat)
    requires OnRecord(chains, chainId, log, position) && DistinctIndices(chains[chainId][log.txHash.value])
    requires log.address == FACTORY && log.event == Some(MintEvent(z.collectionAddress, z.uid))
    ensures InclusionClaimCorrect(chains, z, MapClaim(chainId, log).value) == Some(true) <==>
      log.logIndex == Some(position)
  {
  }

  /** For instance the claim of a transaction's only log is turned down unless that is the first log of its block. */
  lemma MisplacedMintIgnored(z: Zora, chainId: u64, txHash: nat, index: u64)
    requires index != 0
    ensures var log := Log(FACTORY, Some(MintEvent(z.collectionAddress, z.uid)), Some(txHash), Some(index));
      var chains: Chains := map[chainId := map[txHash := Receipt(txHash, [log])]];
      && OnRecord(chains, chainId, log, 0) && DistinctIndices(chains[chainId][txHash])
      && InclusionClaimCorrect(chains, z, MapClaim(chainId, log).value) != Some(true)
  {
    var log := Log(FACTORY, Some(MintEvent(z.collectionAddress, z.uid)), Some(txHash), Some(index));
    GenuineMintConfirmedIff(map[chainId := map[txHash := Receipt(txHash, [log])]], z, chainId, log, 0);
  }
}
