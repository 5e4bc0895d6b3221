/** What a sync response can do to the table's order: its tasks judge a table that others change before they write. */
module SyncOrder {
  import opened Wrappers
  import opened Premints
  import opened PremintTable
  import opened PremintRules
  import opened Gate
  import opened SyncBatch

  // ----- one write -----

  /** The write takes over a row of another signer, or puts a second id under a URI. */
  ghost predicate Overtaken(t: Table, p: Premint) {
    var k, m := KeyOf(p), MetadataOf(p);
    if k in t then AsI64(m.version) > t[k].version && t[k].signer != m.signer
    else exists l :: l in t && l.id != k.id && t[l].tokenUri == m.uri
  }

  predicate OwnSigner(r: Row) {
    r.signer == MetadataOf(r.json).signer
  }

  /** A table that differs in one row has its signers right if that row has. */
  lemma SignersWithOneMore(t: Table, t': Table, k: Key)
    requires k in t' && forall l :: l in t && l != k ==> l in t' && t'[l] == t[l]
    requires forall l :: l in t' && l != k ==> l in t
    requires Signers(t)
    ensures Signers(t') <==> OwnSigner(t'[k])
  {
  }

  lemma UpsertSignersIff(t: Table, p: Premint, now: nat)
    requires Signers(t)
    ensures var k, m := KeyOf(p), MetadataOf(p);
      Signers(Upsert(t, p, now).0) <==>
        !(k in t && AsI64(m.version) > t[k].version && t[k].signer != m.signer)
  {
    SignersWithOneMore(t, Upsert(t, p, now).0, KeyOf(p));
  }

  lemma UpsertUriOwnersIff(t: Table, p: Premint, now: nat)
    requires UriOwners(t)
    ensures UriOwners(Upsert(t, p, now).0) <==>
      (KeyOf(p) in t || forall l :: l in t && t[l].tokenUri == MetadataOf(p).uri ==> l.id == KeyOf(p).id)
  {
    var k, t' := KeyOf(p), Upsert(t, p, now).0;
    if k in t {
      assert forall l :: l in t' ==> l in t && t'[l].tokenUri == t[l].tokenUri;
    } else {
      assert k in t' && t'[k].tokenUri == MetadataOf(p).uri;
      assert forall l :: l in t ==> l in t' && t'[l] == t[l];
    }
  }

  /** A write leaves the table in order exactly if it does not overtake. */
  lemma UpsertInOrderIff(t: Table, p: Premint, now: nat)
    requires InOrder(t)
    ensures InOrder(Upsert(t, p, now).0) <==> !Overtaken(t, p)
  {
    UpsertKeepsColumns(t, p, now);
    UpsertSignersIff(t, p, now);
    UpsertUriOwnersIff(t, p, now);
  }

  // ----- runs -----

  /** The action is a write of an accepted document. */
  ghost predicate Writes(ps: seq<Premint>, s: State, a: Action) {
    Enabled(ps, s, a) && a.Write? && s.tasks[a.i].accept
  }

  lemma StepTable(ps: seq<Premint>, s: State, a: Action)
    ensures Do(ps, s, a).table == if Writes(ps, s, a) then Upsert(s.table, ps[a.i], a.now).0 else s.table
  {
  }

  ghost predicate InOrderThroughout(ps: seq<Premint>, s: State, acts: seq<Action>) {
    if acts == [] then InOrder(s.table)
    else InOrderThroughout(ps, s, acts[..|acts| - 1]) && InOrder(Run(ps, s, acts).table)
  }

  ghost predicate OvertakesNow(ps: seq<Premint>, s: State, a: Action) {
    Writes(ps, s, a) && Overtaken(s.table, ps[a.i])
  }

  ghost predicate NoneOvertakes(ps: seq<Premint>, s: State, acts: seq<Action>) {
    acts == [] ||
    (NoneOvertakes(ps, s, acts[..|acts| - 1]) &&
     !OvertakesNow(ps, Run(ps, s, acts[..|acts| - 1]), acts[|acts| - 1]))
  }

  lemma StepInOrderIff(ps: seq<Premint>, s: State, a: Action)
    requires InOrder(s.table)
    ensures InOrder(Do(ps, s, a).table) <==> !OvertakesNow(ps, s, a)
  {
    StepTable(ps, s, a);
    if Writes(ps, s, a) {
      UpsertInOrderIff(s.table, ps[a.i], a.now);
    }
  }

  lemma InOrderAtEnd(ps: seq<Premint>, s: State, acts: seq<Action>)
    requires InOrderThroughout(ps, s, acts)
    ensures InOrder(Run(ps, s, acts).table)
  {
  }

  /** Over every interleaving, failures included, the table stays in order exactly as long as no write overtakes. */
  lemma {:induction false} RunInOrderIff(ps: seq<Premint>, s: State, acts: seq<Action>)
    requires InOrder(s.table)
    ensures InOrderThroughout(ps, s, acts) <==> NoneOvertakes(ps, s, acts)
  {
    if acts == [] {
    } else {
      var front := acts[..|acts| - 1];
      RunInOrderIff(ps, s, front);
      if InOrderThroughout(ps, s, front) {
        InOrderAtEnd(ps, s, front);
        StepInOrderIff(ps, Run(ps, s, front), acts[|acts| - 1]);
      }
    }
  }

  // ----- which batches can be overtaken -----

  /** A document with a key of its own and a URI the table allows it. */
  ghost predicate Newcomer(t0: Table, p: Premint) {
    KeyOf(p) !in t0 && TokenUriLength(MetadataOf(p)) == Accept && OwnUri(t0, p)
  }

  /** Every row that shows the document's URI has its id. */
  ghost predicate OwnUri(t: Table, p: Premint) {
    forall l :: l in t && t[l].tokenUri == MetadataOf(p).uri ==> l.id == KeyOf(p).id
  }

  /** Two versions of one document by different signers, or two ids under one URI. */
  predicate Rivals(p: Premint, q: Premint) {
    var m, n := MetadataOf(p), MetadataOf(q);
    || (KeyOf(p) == KeyOf(q) && m.signer != n.signer && AsI64(m.version) < AsI64(n.version))
    || (m.id != n.id && m.uri == n.uri)
  }

  /** Two rivals of the batch are both newcomers. */
  ghost predicate Contested(t0: Table, ps: seq<Premint>) {
    exists p, q :: p in ps && q in ps && Newcomer(t0, p) && Newcomer(t0, q) && Rivals(p, q)
  }

  /** No rule fails; reads may be lost, and other rules may reject. */
  ghost predicate NoFailure(acts: seq<Action>) {
    forall a :: a in acts && a.Judge? ==> Failed !in a.others
  }

  /** The row is an initial one with its first columns, or a newcomer of the batch made it. */
  ghost predicate Origin(t0: Table, ps: seq<Premint>, k: Key, r: Row) {
    if k in t0 then r.signer == t0[k].signer && r.tokenUri == t0[k].tokenUri
    else exists q :: q in ps && MadeBy(t0, k, r, q)
  }

  ghost predicate MadeBy(t0: Table, k: Key, r: Row, q: Premint) {
    && Newcomer(t0, q) && KeyOf(q) == k && AsI64(MetadataOf(q).version) <= r.version
    && r.signer == MetadataOf(q).signer && r.tokenUri == MetadataOf(q).uri
  }

  /** What the initial table asks of a document that is let in. */
  ghost predicate Agrees(t0: Table, p: Premint) {
    && TokenUriLength(MetadataOf(p)) == Accept && OwnUri(t0, p)
    && (KeyOf(p) in t0 ==> t0[KeyOf(p)].signer == MetadataOf(p).signer)
  }

  ghost predicate TaskAgrees(t0: Table, p: Premint, task: Task) {
    match task
    case Holding(existing) =>
      KeyOf(p) in t0 ==> existing.Some? && MetadataOf(existing.value).signer == t0[KeyOf(p)].signer
    case Judged(accept) => accept ==> Agrees(t0, p)
    case _ => true
  }

  ghost predicate Tidy(t0: Table, ps: seq<Premint>, s: State) {
    && |s.tasks| == |ps| && InOrder(s.table) && Origins(t0, ps, s.table)
    && (forall i :: 0 <= i < |ps| ==> TaskAgrees(t0, ps[i], s.tasks[i]))
  }

  /** What was read of an initial key is a document of its first signer. */
  lemma ReadAgrees(t0: Table, ps: seq<Premint>, s: State, p: Premint)
    requires Tidy(t0, ps, s)
    ensures TaskAgrees(t0, p, Holding(GetByKey(s.table, KeyOf(p))))
  {
    var k := KeyOf(p);
    if k in t0 {
      assert k in s.table && Origin(t0, ps, k, s.table[k]);
    }
  }

  /** The initial rows still speak against a document, whichever row the lookup returned. */
  lemma AcceptedOwnUri(t0: Table, ps: seq<Premint>, s: State, p: Premint, answer: Option<Premint>)
    requires Tidy(t0, ps, s) && UriAnswer(s.table, MetadataOf(p).uri, answer)
    requires answer.Some? ==> MetadataOf(answer.value).id == MetadataOf(p).id
    ensures OwnUri(t0, p)
  {
    forall l | l in t0 && t0[l].tokenUri == MetadataOf(p).uri
      ensures l.id == KeyOf(p).id
    {
      assert l in s.table && Origin(t0, ps, l, s.table[l]);
      var k :| k in s.table && s.table[k].tokenUri == MetadataOf(p).uri && s.table[k].json == answer.value;
      assert ColumnsAgree(k, s.table[k]);
    }
  }

  lemma JudgedAgrees(t0: Table, ps: seq<Premint>, s: State, i: nat, answer: Option<Premint>, others: Results)
    requires Tidy(t0, ps, s) && i < |ps| && s.tasks[i].Holding? && Failed !in others
    requires UriAnswer(s.table, MetadataOf(ps[i]).uri, answer)
    ensures TaskAgrees(t0, ps[i], Judged(IsAccept(Evaluate(ps[i], s.tasks[i].existing, answer, others))))
  {
    var p, e := ps[i], s.tasks[i].existing;
    assert TaskAgrees(t0, p, s.tasks[i]);
    AcceptedMeans(p, e, answer, others);
    if IsAccept(Evaluate(p, e, answer, others)) {
      AcceptedOwnUri(t0, ps, s, p, answer);
    }
  }

  /** A row the document could take over was made by a rival. */
  lemma RowNotTaken(t0: Table, ps: seq<Premint>, t: Table, p: Premint)
    requires p in ps && Agrees(t0, p) && !Contested(t0, ps)
    requires KeyOf(p) in t && Origin(t0, ps, KeyOf(p), t[KeyOf(p)])
    ensures AsI64(MetadataOf(p).version) <= t[KeyOf(p)].version || t[KeyOf(p)].signer == MetadataOf(p).signer
  {
    var k := KeyOf(p);
    if k !in t0 {
      var q :| q in ps && MadeBy(t0, k, t[k], q);
      assert Newcomer(t0, p) && !Rivals(q, p);
    }
  }

  /** A row of another id that shows the document's URI would have been made by a rival. */
  lemma UriNotTaken(t0: Table, ps: seq<Premint>, t: Table, p: Premint, l: Key)
    requires p in ps && Newcomer(t0, p) && !Contested(t0, ps)
    requires l in t && Origin(t0, ps, l, t[l]) && t[l].tokenUri == MetadataOf(p).uri
    ensures l.id == KeyOf(p).id
  {
    if l !in t0 {
      var q :| q in ps && MadeBy(t0, l, t[l], q);
      assert !Rivals(q, p);
    }
  }

  /** In a batch without rival newcomers no accepted write overtakes. */
  lemma NotOvertaken(t0: Table, ps: seq<Premint>, s: State, p: Premint)
    requires Tidy(t0, ps, s) && p in ps && Agrees(t0, p) && !Contested(t0, ps)
    ensures !Overtaken(s.table, p)
  {
    var k, t := KeyOf(p), s.table;
    if k in t {
      RowNotTaken(t0, ps, t, p);
    } else {
      assert Newcomer(t0, p);
      forall l | l in t && t[l].tokenUri == MetadataOf(p).uri
        ensures l.id == k.id
      {
        UriNotTaken(t0, ps, t, p, l);
      }
    }
  }

  /** A row keeps its origin with its first columns while its version grows. */
  lemma OriginKept(t0: Table, ps: seq<Premint>, k: Key, r: Row, r': Row)
    requires Origin(t0, ps, k, r)
    requires r'.signer == r.signer && r'.tokenUri == r.tokenUri && r.version <= r'.version
    ensures Origin(t0, ps, k, r')
  {
    if k !in t0 {
      var q :| q in ps && MadeBy(t0, k, r, q);
      assert MadeBy(t0, k, r', q);
    }
  }

  lemma OriginNew(t0: Table, ps: seq<Premint>, p: Premint, now: nat)
    requires p in ps && Agrees(t0, p) && KeyOf(p) !in t0
    ensures Origin(t0, ps, KeyOf(p), NewRow(p, now))
  {
    assert Newcomer(t0, p);
    assert MadeBy(t0, KeyOf(p), NewRow(p, now), p);
  }

  /** All rows have their origin, and no initial one is gone. */
  ghost predicate Origins(t0: Table, ps: seq<Premint>, t: Table) {
    && (forall k :: k in t0 ==> k in t)
    && (forall k {:trigger Origin(t0, ps, k, t[k])} :: k in t ==> Origin(t0, ps, k, t[k]))
  }

  /** A row after an upsert at k0: the same columns and no lower a version, or the row made for the document. */
  lemma RowAfter(t: Table, t': Table, k0: Key, v: i64, made: Row, p: Premint, k: Key)
    requires t' == if k0 !in t then t[k0 := made]
                   else if v > t[k0].version then t[k0 := t[k0].(version := v, json := p)]
                   else t
    requires k in t'
    ensures var r := t'[k];
      if k in t then r.signer == t[k].signer && r.tokenUri == t[k].tokenUri && t[k].version <= r.version
      else k == k0 && r == made
  {
  }

  lemma UpsertOrigins(t0: Table, ps: seq<Premint>, t: Table, p: Premint, now: nat)
    requires Origins(t0, ps, t) && p in ps && Agrees(t0, p)
    ensures Origins(t0, ps, Upsert(t, p, now).0)
  {
    var t' := Upsert(t, p, now).0;
    assert forall k :: k in t ==> k in t';
    forall k | k in t'
      ensures Origin(t0, ps, k, t'[k])
    {
      RowAfter(t, t', KeyOf(p), AsI64(MetadataOf(p).version), NewRow(p, now), p, k);
      if k in t {
        assert Origin(t0, ps, k, t[k]);
        OriginKept(t0, ps, k, t[k], t'[k]);
      } else {
        OriginNew(t0, ps, p, now);
      }
    }
  }

  lemma WriteTidy(t0: Table, ps: seq<Premint>, s: State, i: nat, now: nat)
    requires Tidy(t0, ps, s) && !Contested(t0, ps) && i < |ps| && Agrees(t0, ps[i])
    ensures var (t, ok) := Upsert(s.table, ps[i], now); Tidy(t0, ps, State(t, s.tasks[i := Done(ok)]))
  {
    NotOvertaken(t0, ps, s, ps[i]);
    UpsertInOrderIff(s.table, ps[i], now);
    UpsertOrigins(t0, ps, s.table, ps[i], now);
  }

  lemma StepTidy(t0: Table, ps: seq<Premint>, s: State, a: Action)
    requires Tidy(t0, ps, s) && !Contested(t0, ps) && (a.Judge? ==> Failed !in a.others)
    ensures Tidy(t0, ps, Do(ps, s, a))
  {
    if Enabled(ps, s, a) {
      match a
      case Read(i) => ReadAgrees(t0, ps, s, ps[i]);
      case LoseRead(i) =>
      case Judge(i, answer, others) => JudgedAgrees(t0, ps, s, i, answer, others);
      case Write(i, now) =>
        if s.tasks[i].accept {
          assert TaskAgrees(t0, ps[i], s.tasks[i]);
          WriteTidy(t0, ps, s, i, now);
        }
    }
  }

  /** Without rival newcomers every interleaving without a failing rule keeps the table in order. */
  lemma {:induction false} UncontestedTidy(t0: Table, ps: seq<Premint>, acts: seq<Action>)
    requires InOrder(t0) && !Contested(t0, ps) && NoFailure(acts)
    ensures Tidy(t0, ps, Run(ps, Start(t0, ps), acts))
  {
    if acts == [] {
    } else {
      UncontestedTidy(t0, ps, acts[..|acts| - 1]);
      assert acts[|acts| - 1] in acts;
      StepTidy(t0, ps, Run(ps, Start(t0, ps), acts[..|acts| - 1]), acts[|acts| - 1]);
    }
  }

  // ----- races -----

  /** A run with one more action. */
  lemma Extend(ps: seq<Premint>, s: State, acts: seq<Action>, a: Action) returns (more: seq<Action>)
    requires NoFailure(acts) && (a.Judge? ==> Failed !in a.others)
    ensures NoFailure(more) && Run(ps, s, more) == Do(ps, Run(ps, s, acts), a)
  {
    more := acts + [a];
    assert more[..|acts|] == acts;
  }

  /** An answer the lookup can give. */
  lemma AnswerExists(t: Table, uri: string) returns (answer: Option<Premint>)
    ensures UriAnswer(t, uri, answer)
  {
    if k :| k in t && t[k].tokenUri == uri {
      answer := Some(t[k].json);
    } else {
      answer := None;
    }
  }

  /** The gate lets a newcomer in. */
  lemma NewcomerAccepted(t0: Table, p: Premint, answer: Option<Premint>)
    requires Columns(t0) && Newcomer(t0, p) && UriAnswer(t0, MetadataOf(p).uri, answer)
    ensures IsAccept(Evaluate(p, GetByKey(t0, KeyOf(p)), answer, []))
  {
    AcceptedMeans(p, GetByKey(t0, KeyOf(p)), answer, []);
    if answer.Some? {
      var k :| k in t0 && t0[k].tokenUri == MetadataOf(p).uri && t0[k].json == answer.value;
      assert ColumnsAgree(k, t0[k]);
    }
  }

  /** Both tasks read before either does more. */
  lemma RaceReads(t0: Table, ps: seq<Premint>, i: nat, j: nat) returns (acts: seq<Action>)
    requires i < |ps| && j < |ps| && i != j && KeyOf(ps[i]) !in t0 && KeyOf(ps[j]) !in t0
    ensures NoFailure(acts)
    ensures var s := Run(ps, Start(t0, ps), acts);
      s == State(t0, Start(t0, ps).tasks[i := Holding(None)][j := Holding(None)])
  {
    acts := Extend(ps, Start(t0, ps), [], Read(i));
    acts := Extend(ps, Start(t0, ps), acts, Read(j));
  }

  /** From the two reads on, both judge before either writes. */
  lemma JudgeThenWrite(t0: Table, ps: seq<Premint>, s: State, i: nat, j: nat, a: Option<Premint>, b: Option<Premint>)
    requires Columns(t0) && i < |ps| && j < |ps| && i != j && Newcomer(t0, ps[i]) && Newcomer(t0, ps[j])
    requires UriAnswer(t0, MetadataOf(ps[i]).uri, a) && UriAnswer(t0, MetadataOf(ps[j]).uri, b)
    requires s.table == t0 && |s.tasks| == |ps| && s.tasks[i] == s.tasks[j] == Holding(None)
    ensures var s1 := Do(ps, Do(ps, s, Judge(i, a, [])), Judge(j, b, []));
      s1 == s.(tasks := s.tasks[i := Judged(true)][j := Judged(true)])
  {
    NewcomerAccepted(t0, ps[i], a);
    NewcomerAccepted(t0, ps[j], b);
  }

  lemma WriteBoth(ps: seq<Premint>, s: State, i: nat, j: nat)
    requires i < |ps| == |s.tasks| && j < |ps| && i != j && s.tasks[i] == s.tasks[j] == Judged(true)
    ensures var s1 := Do(ps, Do(ps, s, Write(i, 0)), Write(j, 1));
      && s1.table == Upsert(Upsert(s.table, ps[i], 0).0, ps[j], 1).0
      && |s1.tasks| == |ps| && s1.tasks[i].Done? && s1.tasks[j].Done?
  {
  }

  /** Both read, both judge, and then both write: neither sees the other, and both newcomers are written. */
  lemma RaceWrites(t0: Table, ps: seq<Premint>, i: nat, j: nat) returns (acts: seq<Action>)
    requires Columns(t0) && i < |ps| && j < |ps| && i != j && Newcomer(t0, ps[i]) && Newcomer(t0, ps[j])
    ensures NoFailure(acts)
    ensures var s := Run(ps, Start(t0, ps), acts);
      && s.table == Upsert(Upsert(t0, ps[i], 0).0, ps[j], 1).0
      && |s.tasks| == |ps| && s.tasks[i].Done? && s.tasks[j].Done?
  {
    var a := AnswerExists(t0, MetadataOf(ps[i]).uri);
    var b := AnswerExists(t0, MetadataOf(ps[j]).uri);
    var s0 := Start(t0, ps);
    acts := RaceReads(t0, ps, i, j);
    JudgeThenWrite(t0, ps, Run(ps, s0, acts), i, j, a, b);
    acts := Extend(ps, s0, acts, Judge(i, a, []));
    acts := Extend(ps, s0, acts, Judge(j, b, []));
    WriteBoth(ps, Run(ps, s0, acts), i, j);
    acts := Extend(ps, s0, acts, Write(i, 0));
    acts := Extend(ps, s0, acts, Write(j, 1));
  }

  /** Rivals written one after the other leave the table out of order. */
  lemma RivalsBreakOrder(t0: Table, p: Premint, q: Premint)
    requires InOrder(t0) && Newcomer(t0, p) && Newcomer(t0, q) && Rivals(p, q)
    ensures !InOrder(Upsert(Upsert(t0, p, 0).0, q, 1).0)
  {
    var t1 := Upsert(t0, p, 0).0;
    UpsertInOrderIff(t0, p, 0);
    assert KeyOf(p) in t1 && t1[KeyOf(p)] == NewRow(p, 0);
    UpsertInOrderIff(t1, q, 1);
    assert Overtaken(t1, q);
  }

  /** In a contested batch some interleaving without a failing rule breaks the order. */
  lemma ContestedBreaks(t0: Table, ps: seq<Premint>) returns (acts: seq<Action>)
    requires InOrder(t0) && Contested(t0, ps)
    ensures NoFailure(acts) && !InOrder(Run(ps, Start(t0, ps), acts).table)
  {
    var p, q :| p in ps && q in ps && Newcomer(t0, p) && Newcomer(t0, q) && Rivals(p, q);
    var i :| 0 <= i < |ps| && ps[i] == p;
    var j :| 0 <= j < |ps| && ps[j] == q;
    acts := RaceWrites(t0, ps, i, j);
    RivalsBreakOrder(t0, p, q);
  }

  /** Every interleaving without a failing rule leaves the table in order. */
  ghost predicate AlwaysInOrder(t0: Table, ps: seq<Premint>) {
    forall acts :: NoFailure(acts) ==> InOrder(Run(ps, Start(t0, ps), acts).table)
  }

  /**
   * A sync response keeps the table in order under every interleaving without a failing rule if and only if no two
   * documents that are both new to the table are two signers' versions of one document or two ids under one URI.
   */
  lemma BatchInOrderIff(t0: Table, ps: seq<Premint>)
    requires InOrder(t0)
    ensures AlwaysInOrder(t0, ps) <==> !Contested(t0, ps)
  {
    if Contested(t0, ps) {
      var acts := ContestedBreaks(t0, ps);
    } else {
      forall acts | NoFailure(acts)
        ensures InOrder(Run(ps, Start(t0, ps), acts).table)
      {
        UncontestedTidy(t0, ps, acts);
      }
    }
  }

  /** Two signers' versions of a new document: in a race the second's replaces the first's under its signer column. */
  lemma RowTakenOver(t0: Table, p: Premint, q: Premint) returns (acts: seq<Action>)
    requires InOrder(t0) && Newcomer(t0, p) && Newcomer(t0, q) && KeyOf(p) == KeyOf(q)
    requires MetadataOf(p).signer != MetadataOf(q).signer
    requires AsI64(MetadataOf(p).version) < AsI64(MetadataOf(q).version)
    ensures NoFailure(acts)
    ensures var s, k := Run([p, q], Start(t0, [p, q]), acts), KeyOf(p);
      && Complete(s) && k in s.table
      && s.table[k].signer == MetadataOf(p).signer && s.table[k].json == q && !Signers(s.table)
  {
    acts := RaceWrites(t0, [p, q], 0, 1);
    var s, k := Run([p, q], Start(t0, [p, q]), acts), KeyOf(p);
    assert Upsert(t0, p, 0).0[k] == NewRow(p, 0);
    assert k in s.table && s.table[k].json == q;
  }

  /**
   * A task judges by what it read: with the first signer's version already stored the gate would turn the second's
   * down, and the task that read before that lets it in.
   */
  lemma StaleReadLetsIn(p: Premint, q: Premint) returns (acts: seq<Action>, answer: Option<Premint>)
    requires Newcomer(map[], p) && Newcomer(map[], q) && KeyOf(p) == KeyOf(q)
    requires MetadataOf(p).signer != MetadataOf(q).signer
    ensures NoFailure(acts)
    ensures var ps := [p, q];
      var s := Run(ps, Start(map[], ps), acts);
      && s.table == map[KeyOf(p) := NewRow(p, 0)] && Enabled(ps, s, Judge(1, answer, []))
      && !IsAccept(Evaluate(q, GetByKey(s.table, KeyOf(q)), answer, []))
      && Do(ps, s, Judge(1, answer, [])).tasks[1] == Judged(true)
  {
    var ps, s0 := [p, q], Start(map[], [p, q]);
    var t: Table := map[KeyOf(p) := NewRow(p, 0)];
    NewcomerAccepted(map[], p, None);
    acts := RaceReads(map[], ps, 0, 1);
    assert Run(ps, s0, acts) == State(map[], [Holding(None), Holding(None)]);
    acts := Extend(ps, s0, acts, Judge(0, None, []));
    assert Run(ps, s0, acts) == State(map[], [Judged(true), Holding(None)]);
    acts := Extend(ps, s0, acts, Write(0, 0));
    assert Run(ps, s0, acts) == State(t, [Done(true), Holding(None)]);
    answer := AnswerExists(t, MetadataOf(q).uri);
    StaleVerdicts(p, q, answer);
  }

  /** The verdict on what was read and the verdict on what is stored. */
  lemma StaleVerdicts(p: Premint, q: Premint, answer: Option<Premint>)
    requires Newcomer(map[], q) && KeyOf(p) == KeyOf(q) && MetadataOf(p).signer != MetadataOf(q).signer
    requires UriAnswer(map[KeyOf(p) := NewRow(p, 0)], MetadataOf(q).uri, answer)
    ensures IsAccept(Evaluate(q, None, answer, [])) && !IsAccept(Evaluate(q, Some(p), answer, []))
  {
    AcceptedMeans(q, None, answer, []);
    AcceptedMeans(q, Some(p), answer, []);
  }

  // ----- the schedule decides -----

  /** With the first one stored, the lookup returns it and the second is turned down. */
  lemma ShownUri(p: Premint, q: Premint)
    requires MetadataOf(p).id != MetadataOf(q).id && MetadataOf(p).uri == MetadataOf(q).uri
    ensures var t: Table := map[KeyOf(p) := NewRow(p, 0)];
      && UriAnswer(t, MetadataOf(q).uri, Some(p)) && GetByKey(t, KeyOf(q)) == None
      && !IsAccept(Evaluate(q, None, Some(p), []))
  {
    var t: Table := map[KeyOf(p) := NewRow(p, 0)];
    assert KeyOf(p) in t;
    AcceptedMeans(q, None, Some(p), []);
  }

  /** A task that goes through before the other starts. */
  lemma FirstAlone(p: Premint, q: Premint) returns (acts: seq<Action>)
    requires Newcomer(map[], p)
    ensures NoFailure(acts)
    ensures Run([p, q], Start(map[], [p, q]), acts) == State(map[KeyOf(p) := NewRow(p, 0)], [Done(true), Waiting])
  {
    var ps, s0 := [p, q], Start(map[], [p, q]);
    NewcomerAccepted(map[], p, None);
    assert s0 == State(map[], [Waiting, Waiting]);
    acts := Extend(ps, s0, [], Read(0));
    assert Run(ps, s0, acts) == State(map[], [Holding(None), Waiting]);
    acts := Extend(ps, s0, acts, Judge(0, None, []));
    assert Run(ps, s0, acts) == State(map[], [Judged(true), Waiting]);
    acts := Extend(ps, s0, acts, Write(0, 0));
  }

  /** Two ids under one URI: handled one after the other only the first is stored. */
  lemma SecondTurnedDown(p: Premint, q: Premint) returns (acts: seq<Action>)
    requires Newcomer(map[], p)
    requires MetadataOf(p).id != MetadataOf(q).id && MetadataOf(p).uri == MetadataOf(q).uri
    ensures NoFailure(acts)
    ensures var s := Run([p, q], Start(map[], [p, q]), acts); s.table.Keys == {KeyOf(p)} && Complete(s)
  {
    var ps, s0 := [p, q], Start(map[], [p, q]);
    var t: Table := map[KeyOf(p) := NewRow(p, 0)];
    acts := FirstAlone(p, q);
    ShownUri(p, q);
    acts := Extend(ps, s0, acts, Read(1));
    assert Run(ps, s0, acts) == State(t, [Done(true), Holding(None)]);
    acts := Extend(ps, s0, acts, Judge(1, Some(p), []));
    assert Run(ps, s0, acts) == State(t, [Done(true), Judged(false)]);
    acts := Extend(ps, s0, acts, Write(1, 1));
  }

  /** In a race both are. */
  lemma BothStored(p: Premint, q: Premint) returns (acts: seq<Action>)
    requires Newcomer(map[], p) && Newcomer(map[], q) && KeyOf(p) != KeyOf(q)
    ensures NoFailure(acts)
    ensures var s := Run([p, q], Start(map[], [p, q]), acts); s.table.Keys == {KeyOf(p), KeyOf(q)} && Complete(s)
  {
    acts := RaceWrites(map[], [p, q], 0, 1);
  }

  /**
   * For any two ids under one URI the schedule decides: of two complete interleavings without any failure one stores
   * both documents and the other only the first.
   */
  lemma ScheduleDecides(p: Premint, q: Premint) returns (xs: seq<Action>, ys: seq<Action>)
    requires Newcomer(map[], p) && Newcomer(map[], q)
    requires MetadataOf(p).id != MetadataOf(q).id && MetadataOf(p).uri == MetadataOf(q).uri
    ensures NoFailure(xs) && NoFailure(ys)
    ensures var s, s' := Run([p, q], Start(map[], [p, q]), xs), Run([p, q], Start(map[], [p, q]), ys);
      && Complete(s) && s.table.Keys == {KeyOf(p), KeyOf(q)}
      && Complete(s') && s'.table.Keys == {KeyOf(p)}
  {
    xs := BothStored(p, q);
    ys := SecondTurnedDown(p, q);
  }
}
