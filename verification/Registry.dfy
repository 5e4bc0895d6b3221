/** The contract that lists trusted nodes, and the boot nodes read back from its log. */
module Registry {
  import opened Wrappers

  const UINT256_MAX: nat := 0xffff_ffff_ffff_ffff_ffff_ffff_ffff_ffff_ffff_ffff_ffff_ffff_ffff_ffff_ffff_ffff

  /** The 256-bit hash of a node's name.  Nothing is assumed about it: different names may share a hash. */
  type Hash = string -> nat

  datatype Event = Added(node: string) | Removed(node: string)

  /** `trusted` are the hashes mapped to true; `log` are the emitted node events, oldest first. */
  datatype State = State(trusted: set<nat>, count: nat, owner: nat, log: seq<Event>)

  const DEPLOYED := State({}, 0, 0, [])

  datatype Call =
    | Initialize(nodes: seq<string>, owner: nat)
    | Add(node: string)
    | AddBatch(nodes: seq<string>)
    | Remove(node: string)
    | RemoveBatch(nodes: seq<string>)
    | TransferOwnership(owner: nat)

  // ----- what a call does; None is a revert -----

  function AddOne(h: Hash, s: State, node: string): Option<State> {
    if h(node) in s.trusted || s.count == UINT256_MAX then None
    else Some(State(s.trusted + {h(node)}, s.count + 1, s.owner, s.log + [Added(node)]))
  }

  function RemoveOne(h: Hash, s: State, node: string): Option<State> {
    if s.count == 0 then None
    else Some(State(s.trusted - {h(node)}, s.count - 1, s.owner, s.log + [Removed(node)]))
  }

  function AddAll(h: Hash, s: State, nodes: seq<string>): Option<State> {
    if nodes == [] then Some(s)
    else
      match AddAll(h, s, nodes[..|nodes| - 1])
      case None => None
      case Some(t) => AddOne(h, t, nodes[|nodes| - 1])
  }

  function RemoveAll(h: Hash, s: State, nodes: seq<string>): Option<State> {
    if nodes == [] then Some(s)
    else
      match RemoveAll(h, s, nodes[..|nodes| - 1])
      case None => None
      case Some(t) => RemoveOne(h, t, nodes[|nodes| - 1])
  }

  function Attempt(h: Hash, s: State, sender: nat, call: Call): Option<State> {
    match call
    case Initialize(nodes, owner) =>
      if s.count != 0 then None
      else (
        match AddAll(h, s, nodes)
        case None => None
        case Some(t) => Some(t.(owner := owner))
      )
    case Add(node) => if sender != s.owner then None else AddOne(h, s, node)
    case AddBatch(nodes) => if sender != s.owner then None else AddAll(h, s, nodes)
    case Remove(node) => if sender != s.owner then None else RemoveOne(h, s, node)
    case RemoveBatch(nodes) => if sender != s.owner then None else RemoveAll(h, s, nodes)
    case TransferOwnership(owner) => if sender != s.owner then None else Some(s.(owner := owner))
  }

  /** All or nothing: a call that reverts leaves no trace. */
  function Step(h: Hash, s: State, sender: nat, call: Call): State {
    match Attempt(h, s, sender, call)
    case None => s
    case Some(t) => t
  }

  datatype Sent = Sent(sender: nat, call: Call)

  function Run(h: Hash, calls: seq<Sent>): State {
    if calls == [] then DEPLOYED
    else Step(h, Run(h, calls[..|calls| - 1]), calls[|calls| - 1].sender, calls[|calls| - 1].call)
  }

  // ----- the contract -----

  class Contract {
    const hash: Hash
    var trusted: set<nat>
    var count: nat
    var owner: nat
    var log: seq<Event>

    constructor (hash: Hash)
      ensures this.hash == hash && Now() == DEPLOYED
    {
      this.hash := hash;
      trusted, count, owner, log := {}, 0, 0, [];
    }

    function Now(): State
      reads this
    {
      State(trusted, count, owner, log)
    }

    method Revert(s: State)
      modifies this
      ensures Now() == s
    {
      trusted, count, owner, log := s.trusted, s.count, s.owner, s.log;
    }

    method AddNode(node: string) returns (ok: bool)
      modifies this
      ensures ok == AddOne(hash, old(Now()), node).Some?
      ensures Now() == if ok then AddOne(hash, old(Now()), node).value else old(Now())
    {
      var x := hash(node);
      if x in trusted || count == UINT256_MAX {
        return false;
      }
      trusted := trusted + {x};
      count := count + 1;
      log := log + [Added(node)];
      return true;
    }

    method RemoveNode(node: string) returns (ok: bool)
      modifies this
      ensures ok == RemoveOne(hash, old(Now()), node).Some?
      ensures Now() == if ok then RemoveOne(hash, old(Now()), node).value else old(Now())
    {
      var before := Now();
      trusted := trusted - {hash(node)};
      if count == 0 {
        Revert(before);
        return false;
      }
      count := count - 1;
      log := log + [Removed(node)];
      return true;
    }

    method AddNodes(nodes: seq<string>) returns (ok: bool)
      modifies this
      ensures ok == AddAll(hash, old(Now()), nodes).Some?
      ensures Now() == if ok then AddAll(hash, old(Now()), nodes).value else old(Now())
    {
      var before := Now();
      for i := 0 to |nodes|
        invariant AddAll(hash, before, nodes[..i]) == Some(Now())
      {
        assert nodes[..i + 1][..i] == nodes[..i];
        ok := AddNode(nodes[i]);
        if !ok {
          AddAllStopped(hash, before, nodes, i + 1);
          Revert(before);
          return;
        }
      }
      assert nodes[..|nodes|] == nodes;
      return true;
    }

    method RemoveNodes(nodes: seq<string>) returns (ok: bool)
      modifies this
      ensures ok == RemoveAll(hash, old(Now()), nodes).Some?
      ensures Now() == if ok then RemoveAll(hash, old(Now()), nodes).value else old(Now())
    {
      var before := Now();
      for i := 0 to |nodes|
        invariant RemoveAll(hash, before, nodes[..i]) == Some(Now())
      {
        assert nodes[..i + 1][..i] == nodes[..i];
        ok := RemoveNode(nodes[i]);
        if !ok {
          RemoveAllStopped(hash, before, nodes, i + 1);
          Revert(before);
          return;
        }
      }
      assert nodes[..|nodes|] == nodes;
      return true;
    }

    /** One transaction. */
    method Receive(sender: nat, call: Call) returns (ok: bool)
      modifies this
      ensures ok == Attempt(hash, old(Now()), sender, call).Some?
      ensures Now() == Step(hash, old(Now()), sender, call)
    {
      if !call.Initialize? && sender != owner {
        return false;
      }
      match call
      case Initialize(nodes, newOwner) =>
        if count != 0 {
          return false;
        }
        ok := AddNodes(nodes);
        if ok {
          owner := newOwner;
        }
      case Add(node) => ok := AddNode(node);
      case AddBatch(nodes) => ok := AddNodes(nodes);
      case Remove(node) => ok := RemoveNode(node);
      case RemoveBatch(nodes) => ok := RemoveNodes(nodes);
      case TransferOwnership(newOwner) =>
        owner := newOwner;
        ok := true;
    }

    function IsTrusted(node: string): bool
      reads this
    {
      hash(node) in trusted
    }

    method AreTrusted(nodes: seq<string>) returns (results: array<bool>)
      ensures fresh(results) && results[..] == Flags(hash, trusted, nodes)
    {
      results := new bool[|nodes|];
      for i := 0 to |nodes|
        invariant forall j :: 0 <= j < i ==> results[j] == IsTrusted(nodes[j])
      {
        results[i] := IsTrusted(nodes[i]);
      }
    }
  }

  lemma {:induction false} AddAllStopped(h: Hash, s: State, nodes: seq<string>, i: nat)
    requires i <= |nodes| && AddAll(h, s, nodes[..i]) == None
    ensures AddAll(h, s, nodes) == None
  {
    if i == |nodes| {
      assert nodes[..i] == nodes;
    } else {
      assert nodes[..|nodes| - 1][..i] == nodes[..i];
      AddAllStopped(h, s, nodes[..|nodes| - 1], i);
    }
  }

  lemma {:induction false} RemoveAllStopped(h: Hash, s: State, nodes: seq<string>, i: nat)
    requires i <= |nodes| && RemoveAll(h, s, nodes[..i]) == None
    ensures RemoveAll(h, s, nodes) == None
  {
    if i == |nodes| {
      assert nodes[..i] == nodes;
    } else {
      assert nodes[..|nodes| - 1][..i] == nodes[..i];
      RemoveAllStopped(h, s, nodes[..|nodes| - 1], i);
    }
  }

  // ----- batches, all at once -----

  function Hashes(h: Hash, nodes: seq<string>): set<nat> {
    set n | n in nodes :: h(n)
  }

  ghost predicate Distinct(h: Hash, nodes: seq<string>) {
    forall i, j :: 0 <= i < j < |nodes| ==> h(nodes[i]) != h(nodes[j])
  }

  lemma HashesGrow(h: Hash, nodes: seq<string>, node: string)
    ensures Hashes(h, nodes + [node]) == Hashes(h, nodes) + {h(node)}
  {
  }

  lemma DistinctGrows(h: Hash, nodes: seq<string>, node: string)
    ensures Distinct(h, nodes + [node]) <==> Distinct(h, nodes) && h(node) !in Hashes(h, nodes)
  {
    var all := nodes + [node];
    if Distinct(h, all) {
      assert forall i :: 0 <= i < |nodes| ==> all[i] == nodes[i] && h(all[i]) != h(all[|nodes|]);
      assert Distinct(h, nodes);
    }
  }

  /** A batch is added exactly if its hashes are new and differ from one another; then it adds just those. */
  lemma {:induction false} AddAllIff(h: Hash, s: State, nodes: seq<string>)
    requires s.count <= UINT256_MAX
    ensures AddAll(h, s, nodes).Some? <==>
            Distinct(h, nodes) && s.trusted !! Hashes(h, nodes) && s.count + |nodes| <= UINT256_MAX
    ensures AddAll(h, s, nodes).Some? ==>
              var t := AddAll(h, s, nodes).value;
              t.trusted == s.trusted + Hashes(h, nodes) && t.count == s.count + |nodes| && t.owner == s.owner
  {
    if nodes == [] {
    } else {
      var front, last := nodes[..|nodes| - 1], nodes[|nodes| - 1];
      assert nodes == front + [last];
      AddAllIff(h, s, front);
      HashesGrow(h, front, last);
      DistinctGrows(h, front, last);
    }
  }

  /** A batch is removed exactly if the counter covers its length, trusted or not. */
  lemma {:induction false} RemoveAllIff(h: Hash, s: State, nodes: seq<string>)
    ensures RemoveAll(h, s, nodes).Some? <==> |nodes| <= s.count
    ensures RemoveAll(h, s, nodes).Some? ==>
              var t := RemoveAll(h, s, nodes).value;
              t.trusted == s.trusted - Hashes(h, nodes) && t.count == s.count - |nodes| && t.owner == s.owner
  {
    if nodes == [] {
    } else {
      var front, last := nodes[..|nodes| - 1], nodes[|nodes| - 1];
      assert nodes == front + [last];
      RemoveAllIff(h, s, front);
      HashesGrow(h, front, last);
    }
  }

  // ----- who may do what -----

  function AddedEvents(nodes: seq<string>): (es: seq<Event>)
    ensures |es| == |nodes|
  {
    seq(|nodes|, i requires 0 <= i < |nodes| => Added(nodes[i]))
  }

  function RemovedEvents(nodes: seq<string>): (es: seq<Event>)
    ensures |es| == |nodes|
  {
    seq(|nodes|, i requires 0 <= i < |nodes| => Removed(nodes[i]))
  }

  lemma {:induction false} AddAllEvents(h: Hash, s: State, nodes: seq<string>)
    ensures AddAll(h, s, nodes).Some? ==> AddAll(h, s, nodes).value.log == s.log + AddedEvents(nodes)
  {
    if nodes == [] {
    } else {
      AddAllEvents(h, s, nodes[..|nodes| - 1]);
      assert AddedEvents(nodes) == AddedEvents(nodes[..|nodes| - 1]) + [Added(nodes[|nodes| - 1])];
    }
  }

  lemma {:induction false} RemoveAllEvents(h: Hash, s: State, nodes: seq<string>)
    ensures RemoveAll(h, s, nodes).Some? ==> RemoveAll(h, s, nodes).value.log == s.log + RemovedEvents(nodes)
  {
    if nodes == [] {
    } else {
      RemoveAllEvents(h, s, nodes[..|nodes| - 1]);
      assert RemovedEvents(nodes) == RemovedEvents(nodes[..|nodes| - 1]) + [Removed(nodes[|nodes| - 1])];
    }
  }

  /** The nodes a call adds or removes. */
  function NodesOf(call: Call): seq<string> {
    match call
    case Initialize(nodes, _) => nodes
    case Add(node) => [node]
    case AddBatch(nodes) => nodes
    case Remove(node) => [node]
    case RemoveBatch(nodes) => nodes
    case TransferOwnership(_) => []
  }

  predicate Adds(call: Call) {
    call.Initialize? || call.Add? || call.AddBatch?
  }

  predicate Removes(call: Call) {
    call.Remove? || call.RemoveBatch?
  }

  /** The sender may make the call: anyone may initialise while the counter is zero, and the owner may do the rest. */
  predicate Entitled(s: State, sender: nat, call: Call) {
    if call.Initialize? then s.count == 0 else sender == s.owner
  }

  lemma SingleBatch(h: Hash, s: State, node: string)
    ensures AddAll(h, s, [node]) == AddOne(h, s, node) && RemoveAll(h, s, [node]) == RemoveOne(h, s, node)
  {
    assert [node][..0] == [];
  }

  /**
   * Which calls are accepted: adding needs new and pairwise different hashes, removing a counter that covers the batch,
   * and every call but an initialisation the owner.
   */
  lemma AcceptedIff(h: Hash, s: State, sender: nat, call: Call)
    requires s.count <= UINT256_MAX
    ensures var nodes := NodesOf(call);
      Attempt(h, s, sender, call).Some? <==>
        && Entitled(s, sender, call)
        && (Adds(call) ==> Distinct(h, nodes) && s.trusted !! Hashes(h, nodes) && s.count + |nodes| <= UINT256_MAX)
        && (Removes(call) ==> |nodes| <= s.count)
  {
    if call.Add? || call.Remove? {
      SingleBatch(h, s, call.node);
    }
    AddAllIff(h, s, NodesOf(call));
    RemoveAllIff(h, s, NodesOf(call));
  }

  /** What an accepted call leaves: trusted hashes, counter, owner and log. */
  lemma AcceptedLeaves(h: Hash, s: State, sender: nat, call: Call)
    requires s.count <= UINT256_MAX && Attempt(h, s, sender, call).Some?
    ensures var t, nodes := Step(h, s, sender, call), NodesOf(call);
      && t.owner == (if call.Initialize? || call.TransferOwnership? then call.owner else s.owner)
      && (Adds(call) ==> t.trusted == s.trusted + Hashes(h, nodes) && t.count == s.count + |nodes| &&
                         t.log == s.log + AddedEvents(nodes))
      && (Removes(call) ==> t.trusted == s.trusted - Hashes(h, nodes) && t.count == s.count - |nodes| &&
                            t.log == s.log + RemovedEvents(nodes))
      && (call.TransferOwnership? ==> t == s.(owner := call.owner))
  {
    if call.Add? || call.Remove? {
      SingleBatch(h, s, call.node);
    }
    AddAllIff(h, s, NodesOf(call));
    RemoveAllIff(h, s, NodesOf(call));
    AddAllEvents(h, s, NodesOf(call));
    RemoveAllEvents(h, s, NodesOf(call));
  }

  /** A stranger's call, whatever it is but an initialisation, changes nothing. */
  lemma StrangerRefused(h: Hash, s: State, sender: nat, call: Call)
    requires !call.Initialize? && sender != s.owner
    ensures Step(h, s, sender, call) == s
  {
  }

  /** The call at i is an initialisation, or sent by the owner of that moment. */
  ghost predicate FromOwner(h: Hash, calls: seq<Sent>, i: nat)
    requires i < |calls|
  {
    calls[i].call.Initialize? || calls[i].sender == Run(h, calls[..i]).owner
  }

  lemma RunNext(h: Hash, calls: seq<Sent>, i: nat)
    requires i < |calls|
    ensures Run(h, calls[..i + 1]) == Step(h, Run(h, calls[..i]), calls[i].sender, calls[i].call)
  {
    assert calls[..i + 1][..i] == calls[..i];
  }

  /** Between two moments nothing changes at all unless someone initialises or the owner calls. */
  lemma {:induction false} StrangersChangeNothing(h: Hash, calls: seq<Sent>, n: nat, m: nat)
    requires n <= m <= |calls| && forall i :: n <= i < m ==> !FromOwner(h, calls, i)
    ensures Run(h, calls[..m]) == Run(h, calls[..n])
  {
    if n == m {
    } else {
      StrangersChangeNothing(h, calls, n, m - 1);
      RunNext(h, calls, m - 1);
      assert !FromOwner(h, calls, m - 1);
      StrangerRefused(h, Run(h, calls[..m - 1]), calls[m - 1].sender, calls[m - 1].call);
    }
  }

  // ----- the log alone determines the state -----

  function Replay(h: Hash, log: seq<Event>): set<nat> {
    if log == [] then {}
    else
      var before := Replay(h, log[..|log| - 1]);
      match log[|log| - 1]
      case Added(n) => before + {h(n)}
      case Removed(n) => before - {h(n)}
  }

  /** The successful removals of nodes that were not trusted. */
  function Strays(h: Hash, log: seq<Event>): nat {
    if log == [] then 0
    else
      var front, last := log[..|log| - 1], log[|log| - 1];
      Strays(h, front) + if last.Removed? && h(last.node) !in Replay(h, front) then 1 else 0
  }

  ghost predicate Consistent(h: Hash, s: State) {
    && s.trusted == Replay(h, s.log)
    && |s.trusted| == s.count + Strays(h, s.log)
    && s.count <= UINT256_MAX
  }

  lemma AddOneConsistent(h: Hash, s: State, node: string)
    requires Consistent(h, s) && AddOne(h, s, node).Some?
    ensures Consistent(h, AddOne(h, s, node).value)
  {
  }

  lemma RemoveOneConsistent(h: Hash, s: State, node: string)
    requires Consistent(h, s) && RemoveOne(h, s, node).Some?
    ensures Consistent(h, RemoveOne(h, s, node).value)
  {
  }

  lemma {:induction false} AddAllConsistent(h: Hash, s: State, nodes: seq<string>)
    requires Consistent(h, s) && AddAll(h, s, nodes).Some?
    ensures Consistent(h, AddAll(h, s, nodes).value)
  {
    if nodes == [] {
    } else {
      var front := nodes[..|nodes| - 1];
      AddAllConsistent(h, s, front);
      AddOneConsistent(h, AddAll(h, s, front).value, nodes[|nodes| - 1]);
    }
  }

  lemma {:induction false} RemoveAllConsistent(h: Hash, s: State, nodes: seq<string>)
    requires Consistent(h, s) && RemoveAll(h, s, nodes).Some?
    ensures Consistent(h, RemoveAll(h, s, nodes).value)
  {
    if nodes == [] {
    } else {
      var front := nodes[..|nodes| - 1];
      RemoveAllConsistent(h, s, front);
      RemoveOneConsistent(h, RemoveAll(h, s, front).value, nodes[|nodes| - 1]);
    }
  }

  lemma StepConsistent(h: Hash, s: State, sender: nat, call: Call)
    requires Consistent(h, s)
    ensures Consistent(h, Step(h, s, sender, call))
  {
    if Attempt(h, s, sender, call).Some? {
      match call
      case Initialize(nodes, _) => AddAllConsistent(h, s, nodes);
      case Add(node) => AddOneConsistent(h, s, node);
      case AddBatch(nodes) => AddAllConsistent(h, s, nodes);
      case Remove(node) => RemoveOneConsistent(h, s, node);
      case RemoveBatch(nodes) => RemoveAllConsistent(h, s, nodes);
      case TransferOwnership(_) =>
    }
  }

  /**
   * Conservation: over every run of calls, accepted or reverted, the trusted set outgrows the counter by exactly the
   * number of successful removals of nodes that were not trusted, and the emitted events alone give the trusted set.
   */
  lemma {:induction false} Conservation(h: Hash, calls: seq<Sent>)
    ensures var s := Run(h, calls);
            s.trusted == Replay(h, s.log) && |s.trusted| - s.count == Strays(h, s.log) && s.count <= UINT256_MAX
  {
    if calls == [] {
    } else {
      var front, last := calls[..|calls| - 1], calls[|calls| - 1];
      Conservation(h, front);
      StepConsistent(h, Run(h, front), last.sender, last.call);
    }
  }

  /** The call at i is accepted, and an initialisation or the owner's transfer. */
  ghost predicate MakesOwner(h: Hash, calls: seq<Sent>, i: nat)
    requires i < |calls|
  {
    var s, c := Run(h, calls[..i]), calls[i];
    && (c.call.Initialize? || (c.call.TransferOwnership? && c.sender == s.owner))
    && Attempt(h, s, c.sender, c.call).Some?
  }

  lemma OwnerAfter(h: Hash, calls: seq<Sent>, i: nat)
    requires i < |calls|
    ensures Run(h, calls[..i + 1]).owner ==
      if MakesOwner(h, calls, i) then calls[i].call.owner else Run(h, calls[..i]).owner
  {
    var s, c := Run(h, calls[..i]), calls[i];
    RunNext(h, calls, i);
    Conservation(h, calls[..i]);
    if Attempt(h, s, c.sender, c.call).Some? {
      AcceptedIff(h, s, c.sender, c.call);
      AcceptedLeaves(h, s, c.sender, c.call);
    }
  }

  /** The last call up to m that made an owner; m when there is none. */
  ghost function LastMade(h: Hash, calls: seq<Sent>, m: nat): (i: nat)
    requires m <= |calls|
    ensures i <= m
  {
    if m == 0 then 0
    else if MakesOwner(h, calls, m - 1) then m - 1
    else
      var i := LastMade(h, calls, m - 1);
      if i == m - 1 then m else i
  }

  /**
   * Whoever owns the registry was made its owner by the last accepted initialisation or owner's own transfer; before
   * any of these it is still the deployed contract's.
   */
  lemma {:induction false} OwnerIsLastMade(h: Hash, calls: seq<Sent>, m: nat)
    requires m <= |calls|
    ensures var i := LastMade(h, calls, m);
      && (forall j :: 0 <= j < m && (i == m || i < j) ==> !MakesOwner(h, calls, j))
      && (i < m ==> MakesOwner(h, calls, i))
      && Run(h, calls[..m]).owner == if i == m then DEPLOYED.owner else calls[i].call.owner
  {
    if m == 0 {
      assert calls[..0] == [];
    } else {
      OwnerIsLastMade(h, calls, m - 1);
      OwnerAfter(h, calls, m - 1);
    }
  }

  lemma {:induction false} DistinctCount(h: Hash, nodes: seq<string>)
    requires Distinct(h, nodes)
    ensures |Hashes(h, nodes)| == |nodes|
  {
    if nodes == [] {
      assert Hashes(h, nodes) == {};
    } else {
      var front, last := nodes[..|nodes| - 1], nodes[|nodes| - 1];
      assert nodes == front + [last];
      HashesGrow(h, front, last);
      DistinctGrows(h, front, last);
      DistinctCount(h, front);
    }
  }

  /** After any run, the owner can remove all trusted nodes exactly if no untrusted node was ever removed. */
  lemma AllRemovableIff(h: Hash, calls: seq<Sent>, nodes: seq<string>)
    requires Distinct(h, nodes) && Hashes(h, nodes) == Run(h, calls).trusted
    ensures var s := Run(h, calls);
            Attempt(h, s, s.owner, RemoveBatch(nodes)).Some? <==> Strays(h, s.log) == 0
  {
    Conservation(h, calls);
    DistinctCount(h, nodes);
    RemoveAllIff(h, Run(h, calls), nodes);
  }

  /** Calls only ever add to the log. */
  lemma StepLogs(h: Hash, s: State, sender: nat, call: Call)
    ensures s.log <= Step(h, s, sender, call).log
  {
    match call
    case Initialize(nodes, _) => AddAllEvents(h, s, nodes);
    case AddBatch(nodes) => AddAllEvents(h, s, nodes);
    case RemoveBatch(nodes) => RemoveAllEvents(h, s, nodes);
    case _ =>
  }

  lemma {:induction false} RunLogs(h: Hash, calls: seq<Sent>, n: nat)
    requires n <= |calls|
    ensures Run(h, calls[..n]).log <= Run(h, calls).log
    decreases |calls|
  {
    if n == |calls| {
      assert calls[..n] == calls;
    } else {
      var front := calls[..|calls| - 1];
      assert front[..n] == calls[..n];
      RunLogs(h, front, n);
      StepLogs(h, Run(h, front), calls[|calls| - 1].sender, calls[|calls| - 1].call);
    }
  }

  lemma {:induction false} StraysGrow(h: Hash, short: seq<Event>, log: seq<Event>)
    requires short <= log
    ensures Strays(h, short) <= Strays(h, log)
    decreases |log|
  {
    if |short| == |log| {
      assert short == log;
    } else {
      StraysGrow(h, short, log[..|log| - 1]);
    }
  }

  /** Stray removals are never made good: whatever follows, at least as many nodes stay trusted. */
  lemma StraysStay(h: Hash, calls: seq<Sent>, n: nat)
    requires n <= |calls|
    ensures |Run(h, calls).trusted| >= Strays(h, Run(h, calls[..n]).log)
  {
    Conservation(h, calls);
    RunLogs(h, calls, n);
    StraysGrow(h, Run(h, calls[..n]).log, Run(h, calls).log);
  }

  /** For instance, once one node is trusted and another name has been removed, the trusted one cannot be. */
  lemma StrayRemovalStrands(h: Hash, deployer: nat, owner: nat, a: string, b: string)
    requires h(a) != h(b)
    ensures var s := Run(h, [Sent(deployer, Initialize([a], owner)), Sent(owner, Remove(b))]);
      && s.trusted == {h(a)} == Hashes(h, [a]) && Distinct(h, [a]) && s.owner == owner
      && Attempt(h, s, owner, RemoveBatch([a])) == None
  {
    var first := [Sent(deployer, Initialize([a], owner))];
    var calls := first + [Sent(owner, Remove(b))];
    assert calls[..1] == first && first[..0] == [];
    assert [a][..0] == [];
    assert AddAll(h, DEPLOYED, [a]) == AddOne(h, DEPLOYED, a);
    assert Run(h, first) == State({h(a)}, 1, owner, [Added(a)]);
    var s := Run(h, calls);
    assert s.trusted == {h(a)} && s.count == 0;
    RemoveAllIff(h, s, [a]);
  }

  /** After any run, initialising is accepted exactly if every node still trusted is paid for by a stray removal. */
  lemma InitializeIff(h: Hash, calls: seq<Sent>, sender: nat, nodes: seq<string>, owner: nat)
    ensures var s := Run(h, calls);
            Attempt(h, s, sender, Initialize(nodes, owner)).Some? <==>
            && |s.trusted| == Strays(h, s.log)
            && Distinct(h, nodes) && s.trusted !! Hashes(h, nodes) && |nodes| <= UINT256_MAX
  {
    Conservation(h, calls);
    AddAllIff(h, Run(h, calls), nodes);
  }

  // ----- boot nodes -----

  function AddedNodes(log: seq<Event>): seq<string> {
    if log == [] then []
    else if log[0].Added? then [log[0].node] + AddedNodes(log[1..])
    else AddedNodes(log[1..])
  }

  function Flags(h: Hash, trusted: set<nat>, nodes: seq<string>): seq<bool> {
    seq(|nodes|, i requires 0 <= i < |nodes| => h(nodes[i]) in trusted)
  }

  function ZipKept(flags: seq<bool>, nodes: seq<string>): seq<string> {
    if flags == [] || nodes == [] then []
    else if flags[0] then [nodes[0]] + ZipKept(flags[1..], nodes[1..])
    else ZipKept(flags[1..], nodes[1..])
  }

  /** The nodes named by the added events of a log, less those the contract, when asked, no longer trusts. */
  function BootNodes(h: Hash, log: seq<Event>, trusted: set<nat>): seq<string> {
    ZipKept(Flags(h, trusted, AddedNodes(log)), AddedNodes(log))
  }

  /** The last event about this hash added it. */
  ghost predicate LastAdded(h: Hash, log: seq<Event>, x: nat) {
    exists i :: 0 <= i < |log| && log[i].Added? && h(log[i].node) == x && Untouched(h, log, i + 1, x)
  }

  ghost predicate Untouched(h: Hash, log: seq<Event>, from: nat, x: nat) {
    forall j :: from <= j < |log| ==> h(log[j].node) != x
  }

  lemma {:induction false} ReplayIsLast(h: Hash, log: seq<Event>, x: nat)
    ensures x in Replay(h, log) <==> LastAdded(h, log, x)
  {
    if log == [] {
    } else {
      var front, last := log[..|log| - 1], log[|log| - 1];
      ReplayIsLast(h, front, x);
      if h(last.node) == x {
        if last.Added? {
          assert Untouched(h, log, |front| + 1, x);
        }
      } else {
        if LastAdded(h, front, x) {
          var i :| 0 <= i < |front| && front[i].Added? && h(front[i].node) == x && Untouched(h, front, i + 1, x);
          assert log[i] == front[i] && Untouched(h, log, i + 1, x);
        }
        if LastAdded(h, log, x) {
          var i :| 0 <= i < |log| && log[i].Added? && h(log[i].node) == x && Untouched(h, log, i + 1, x);
          assert front[i] == log[i] && Untouched(h, front, i + 1, x);
        }
      }
    }
  }

  lemma {:induction false} AddedTimes(log: seq<Event>, n: string)
    ensures multiset(AddedNodes(log))[n] == multiset(log)[Added(n)]
  {
    if log == [] {
    } else {
      AddedTimes(log[1..], n);
      assert log == [log[0]] + log[1..];
    }
  }

  lemma {:induction false} KeptTimes(h: Hash, trusted: set<nat>, nodes: seq<string>, n: string)
    ensures multiset(ZipKept(Flags(h, trusted, nodes), nodes))[n] == if h(n) in trusted then multiset(nodes)[n] else 0
  {
    if nodes == [] {
    } else {
      KeptTimes(h, trusted, nodes[1..], n);
      assert Flags(h, trusted, nodes)[1..] == Flags(h, trusted, nodes[1..]);
      assert nodes == [nodes[0]] + nodes[1..];
    }
  }

  /** A boot node is listed as often as it was ever added, provided it is still trusted, and otherwise not at all. */
  lemma BootNodesTimes(h: Hash, log: seq<Event>, trusted: set<nat>, n: string)
    ensures multiset(BootNodes(h, log, trusted))[n] == if h(n) in trusted then multiset(log)[Added(n)] else 0
  {
    KeptTimes(h, trusted, AddedNodes(log), n);
    AddedTimes(log, n);
  }

  lemma {:induction false} AddedNodesSnoc(log: seq<Event>, e: Event)
    ensures AddedNodes(log + [e]) == AddedNodes(log) + if e.Added? then [e.node] else []
  {
    if log == [] {
      assert [e][1..] == [];
    } else {
      assert (log + [e])[1..] == log[1..] + [e];
      AddedNodesSnoc(log[1..], e);
    }
  }

  lemma {:induction false} KeptSnoc(h: Hash, trusted: set<nat>, nodes: seq<string>, n: string)
    ensures ZipKept(Flags(h, trusted, nodes + [n]), nodes + [n]) ==
      ZipKept(Flags(h, trusted, nodes), nodes) + if h(n) in trusted then [n] else []
  {
    if nodes == [] {
      assert Flags(h, trusted, [n])[1..] == [] && [n][1..] == [];
    } else {
      assert (nodes + [n])[1..] == nodes[1..] + [n];
      assert Flags(h, trusted, nodes + [n])[1..] == Flags(h, trusted, nodes[1..] + [n]);
      assert Flags(h, trusted, nodes)[1..] == Flags(h, trusted, nodes[1..]);
      KeptSnoc(h, trusted, nodes[1..], n);
    }
  }

  lemma BootNodesSnoc(h: Hash, log: seq<Event>, trusted: set<nat>, e: Event)
    ensures BootNodes(h, log + [e], trusted) ==
      BootNodes(h, log, trusted) + if e.Added? && h(e.node) in trusted then [e.node] else []
  {
    AddedNodesSnoc(log, e);
    if e.Added? {
      KeptSnoc(h, trusted, AddedNodes(log), e.node);
    } else {
      assert AddedNodes(log) + [] == AddedNodes(log);
    }
  }

  /** The events that add nodes still trusted. */
  predicate Counts(h: Hash, trusted: set<nat>, e: Event) {
    e.Added? && h(e.node) in trusted
  }

  /** Places go up, and they are exactly those of the log's events that count. */
  ghost predicate Places(h: Hash, log: seq<Event>, trusted: set<nat>, places: seq<nat>) {
    && (forall i, j :: 0 <= i < j < |places| ==> places[i] < places[j])
    && (forall k :: k in places <==> 0 <= k < |log| && Counts(h, trusted, log[k]))
  }

  lemma PlacesSnoc(h: Hash, log: seq<Event>, trusted: set<nat>, places: seq<nat>, e: Event)
    requires Places(h, log, trusted, places)
    ensures Places(h, log + [e], trusted, places + if Counts(h, trusted, e) then [|log|] else [])
  {
    var more := if Counts(h, trusted, e) then [|log|] else [];
    assert forall k :: k in places + more <==> k in places || k in more;
    assert forall i :: 0 <= i < |places| ==> places[i] in places;
    assert forall k :: 0 <= k < |log| ==> (log + [e])[k] == log[k];
  }

  /** The names are those the events at these places add, in turn. */
  ghost predicate NamedAt(log: seq<Event>, names: seq<string>, places: seq<nat>) {
    |names| == |places| && forall i :: 0 <= i < |names| ==> places[i] < |log| && log[places[i]] == Added(names[i])
  }

  /** The boot nodes come in the order of the log: they are the names of the events that count, one after the other. */
  lemma {:induction false} BootNodesInLogOrder(h: Hash, log: seq<Event>, trusted: set<nat>) returns (places: seq<nat>)
    ensures Places(h, log, trusted, places) && NamedAt(log, BootNodes(h, log, trusted), places)
  {
    if log == [] {
      places := [];
    } else {
      var front, e := log[..|log| - 1], log[|log| - 1];
      assert log == front + [e];
      var before := BootNodesInLogOrder(h, front, trusted);
      BootNodesSnoc(h, front, trusted, e);
      PlacesSnoc(h, front, trusted, before, e);
      places := before + if Counts(h, trusted, e) then [|front|] else [];
      var names := BootNodes(h, front, trusted);
      forall i | 0 <= i < |before|
        ensures before[i] < |log| && log[before[i]] == Added(names[i])
      {
        assert front[before[i]] == log[before[i]];
      }
    }
  }

  /**
   * Replay: after any run, the boot nodes are the names once added whose hash was added by the last event about it,
   * and their hashes are exactly the trusted set.
   */
  lemma BootNodesExact(h: Hash, calls: seq<Sent>)
    ensures var s := Run(h, calls);
            && Hashes(h, BootNodes(h, s.log, s.trusted)) == s.trusted
            && forall n :: n in BootNodes(h, s.log, s.trusted) <==> Added(n) in s.log && LastAdded(h, s.log, h(n))
  {
    var s := Run(h, calls);
    var boot := BootNodes(h, s.log, s.trusted);
    Conservation(h, calls);
    forall n
      ensures n in boot <==> Added(n) in s.log && h(n) in s.trusted
      ensures h(n) in s.trusted <==> LastAdded(h, s.log, h(n))
    {
      BootNodesTimes(h, s.log, s.trusted, n);
      ReplayIsLast(h, s.log, h(n));
    }
    forall x | x in s.trusted
      ensures x in Hashes(h, boot)
    {
      ReplayIsLast(h, s.log, x);
      var i :| 0 <= i < |s.log| && s.log[i].Added? && h(s.log[i].node) == x && Untouched(h, s.log, i + 1, x);
      assert Added(s.log[i].node) in s.log;
    }
  }
}
