/** Handling a sync response: every document is read, judged and stored by a task of its own, in any interleaving. */
module SyncBatch {
  import opened Wrappers
  import opened Premints
  import opened PremintTable
  import opened PremintRules
  import opened Gate

  /** Where one document's validate-and-insert stands. */
  datatype Task = Waiting | Holding(existing: Option<Premint>) | Judged(accept: bool) | Done(stored: bool)

  datatype State = State(table: Table, tasks: seq<Task>)

  /** One step of one task; the lookups of a judgement are answered when it is made. */
  datatype Action =
    | Read(i: nat)
    | LoseRead(i: nat)
    | Judge(i: nat, answer: Option<Premint>, others: Results)
    | Write(i: nat, now: nat)

  function Start(t: Table, ps: seq<Premint>): State {
    State(t, seq(|ps|, _ => Waiting))
  }

  ghost predicate Enabled(ps: seq<Premint>, s: State, a: Action) {
    && a.i < |ps| && |s.tasks| == |ps|
    && match a
       case Read(i) => s.tasks[i].Waiting?
       case LoseRead(i) => s.tasks[i].Waiting?
       case Judge(i, answer, _) => s.tasks[i].Holding? && UriAnswer(s.table, MetadataOf(ps[i]).uri, answer)
       case Write(i, _) => s.tasks[i].Judged?
  }

  ghost function Do(ps: seq<Premint>, s: State, a: Action): State {
    if !Enabled(ps, s, a) then s
    else match a
      case Read(i) => s.(tasks := s.tasks[i := Holding(GetByKey(s.table, KeyOf(ps[i])))])
      case LoseRead(i) => s.(tasks := s.tasks[i := Done(false)])
      case Judge(i, answer, others) =>
        s.(tasks := s.tasks[i := Judged(IsAccept(Evaluate(ps[i], s.tasks[i].existing, answer, others)))])
      case Write(i, now) =>
        if s.tasks[i].accept then
          var (t, ok) := Upsert(s.table, ps[i], now);
          State(t, s.tasks[i := Done(ok)])
        else s.(tasks := s.tasks[i := Done(false)])
  }

  ghost function Run(ps: seq<Premint>, s: State, acts: seq<Action>): State {
    if acts == [] then s else Do(ps, Run(ps, s, acts[..|acts| - 1]), acts[|acts| - 1])
  }

  // ----- every interleaving, errors included -----

  /** The row of k, if there, is still there and no older, with its first columns. */
  predicate NoOlder(t: Table, t': Table, k: Key) {
    k !in t || (k in t' && t[k].version <= t'[k].version && Kept(t, t', k))
  }

  /** One step never takes a row back; a task that ends stored has strictly raised its row's version to its own. */
  lemma StepNoOlder(ps: seq<Premint>, s: State, a: Action, k: Key)
    ensures NoOlder(s.table, Do(ps, s, a).table, k)
    ensures Enabled(ps, s, a) && Do(ps, s, a).tasks[a.i] == Done(true) ==>
      var l, t' := KeyOf(ps[a.i]), Do(ps, s, a).table;
      l in t' && t'[l].json == ps[a.i] && t'[l].version == AsI64(MetadataOf(ps[a.i]).version) &&
      (l in s.table ==> s.table[l].version < t'[l].version)
  {
  }

  /** Over every interleaving, whatever fails and whatever the rules say, no row ever goes back. */
  lemma {:induction false} RunNoOlder(ps: seq<Premint>, s: State, acts: seq<Action>, n: nat, k: Key)
    requires n <= |acts|
    ensures NoOlder(Run(ps, s, acts[..n]).table, Run(ps, s, acts).table, k)
    decreases |acts|
  {
    if n == |acts| {
      assert acts[..n] == acts;
    } else {
      var before := acts[..|acts| - 1];
      assert before[..n] == acts[..n];
      RunNoOlder(ps, s, before, n, k);
      StepNoOlder(ps, Run(ps, s, before), acts[|acts| - 1], k);
    }
  }

  /** A task nobody interrupts does to the table what one sequential validate-and-insert does. */
  lemma AloneIsSequential(ps: seq<Premint>, s: State, i: nat, answer: Option<Premint>, others: Results, now: nat)
    requires i < |ps| && |s.tasks| == |ps| && s.tasks[i].Waiting? && UriAnswer(s.table, MetadataOf(ps[i]).uri, answer)
    ensures Run(ps, s, [Read(i), Judge(i, answer, others), Write(i, now)]) ==
      var (t, ok) := ValidateAndInsert(s.table, ps[i], answer, others, now);
      State(t, s.tasks[i := Done(ok)])
  {
    var acts := [Read(i), Judge(i, answer, others), Write(i, now)];
    assert acts[..2] == [Read(i), Judge(i, answer, others)] && acts[..2][..1] == [Read(i)] && acts[..1][..0] == [];
    var existing := GetByKey(s.table, KeyOf(ps[i]));
    assert Run(ps, s, acts[..1]) == s.(tasks := s.tasks[i := Holding(existing)]);
    var verdict := IsAccept(Evaluate(ps[i], existing, answer, others));
    assert Run(ps, s, acts[..2]) == s.(tasks := s.tasks[i := Judged(verdict)]);
    assert s.tasks[i := Judged(verdict)][i := Done(false)] == s.tasks[i := Done(false)];
  }

  // ----- the order of the writes -----

  /** The documents a run writes, in order, whether or not the table takes them. */
  ghost function Written(ps: seq<Premint>, s: State, acts: seq<Action>): seq<Premint> {
    if acts == [] then []
    else
      var front, a := acts[..|acts| - 1], acts[|acts| - 1];
      var t := Run(ps, s, front);
      Written(ps, s, front) + if Enabled(ps, t, a) && a.Write? && t.tasks[a.i].accept then [ps[a.i]] else []
  }

  /** Whether k's row holds a highest version of what was there and what was written, with a document that has it. */
  ghost predicate Tops(t: Table, ws: seq<Premint>, k: Key, r: Row) {
    && (k in t ==> t[k].version <= r.version)
    && (forall p :: p in ws && KeyOf(p) == k ==> AsI64(MetadataOf(p).version) <= r.version)
    && ((k in t && r.version == t[k].version && r.json == t[k].json) ||
        (r.json in ws && KeyOf(r.json) == k && r.version == AsI64(MetadataOf(r.json).version)))
  }

  /** A key that was there or is written. */
  predicate Known(t: Table, ws: seq<Premint>, k: Key) {
    k in t || exists p :: p in ws && KeyOf(p) == k
  }

  lemma KnownGrows(t: Table, ws: seq<Premint>, p: Premint, k: Key)
    ensures Known(t, ws + [p], k) <==> Known(t, ws, k) || KeyOf(p) == k
  {
    assert forall q :: q in ws + [p] <==> q in ws || q == p;
    assert p in ws + [p];
  }

  /** A key is there exactly if it was there or written, and then at a highest version. */
  ghost predicate HoldsTop(t: Table, ws: seq<Premint>, t': Table, k: Key) {
    && (k in t' <==> Known(t, ws, k))
    && (k in t' ==> Tops(t, ws, k, t'[k]))
  }

  /** The row of the written key, taken over or kept, holds a highest version still. */
  lemma TopsGrows(t: Table, ws: seq<Premint>, p: Premint, r: Row, r': Row)
    requires Tops(t, ws, KeyOf(p), r)
    requires var v := AsI64(MetadataOf(p).version);
      r' == if v > r.version then r.(version := v, json := p) else r
    ensures Tops(t, ws + [p], KeyOf(p), r')
  {
    assert forall q :: q in ws + [p] <==> q in ws || q == p;
  }

  /** The first row of a key nobody has written before. */
  lemma FirstTops(t: Table, ws: seq<Premint>, p: Premint, r: Row)
    requires !Known(t, ws, KeyOf(p))
    requires r.json == p && r.version == AsI64(MetadataOf(p).version)
    ensures Tops(t, ws + [p], KeyOf(p), r)
  {
    assert forall q :: q in ws + [p] <==> q in ws || q == p;
  }

  lemma OtherTops(t: Table, ws: seq<Premint>, p: Premint, k: Key, r: Row)
    requires Tops(t, ws, k, r) && KeyOf(p) != k
    ensures Tops(t, ws + [p], k, r)
  {
    assert forall q :: q in ws + [p] <==> q in ws || q == p;
  }

  lemma UpsertHoldsTop(t: Table, ws: seq<Premint>, t': Table, p: Premint, now: nat, k: Key)
    requires HoldsTop(t, ws, t', k)
    ensures HoldsTop(t, ws + [p], Upsert(t', p, now).0, k)
  {
    KnownGrows(t, ws, p, k);
    if KeyOf(p) != k {
      if k in t' { OtherTops(t, ws, p, k, t'[k]); }
    } else if k in t' {
      TopsGrows(t, ws, p, t'[k], Upsert(t', p, now).0[k]);
    } else {
      FirstTops(t, ws, p, Upsert(t', p, now).0[k]);
    }
  }

  /**
   * Over every interleaving, with any verdicts and failures, each row ends at the maximum of its version and those
   * written for its key, compared as the table compares them.
   */
  lemma {:induction false} RunHoldsTop(ps: seq<Premint>, s: State, acts: seq<Action>, k: Key)
    ensures HoldsTop(s.table, Written(ps, s, acts), Run(ps, s, acts).table, k)
  {
    if acts == [] {
    } else {
      var front, a := acts[..|acts| - 1], acts[|acts| - 1];
      var t := Run(ps, s, front);
      RunHoldsTop(ps, s, front, k);
      if Enabled(ps, t, a) && a.Write? && t.tasks[a.i].accept {
        UpsertHoldsTop(s.table, Written(ps, s, front), t.table, ps[a.i], a.now, k);
      } else {
        assert Written(ps, s, acts) == Written(ps, s, front);
      }
    }
  }

  /** Two documents of one key and one version, as the table compares versions. */
  predicate SameVersion(p: Premint, q: Premint) {
    KeyOf(p) == KeyOf(q) && AsI64(MetadataOf(p).version) == AsI64(MetadataOf(q).version)
  }

  /** Key and version, as the table stores it, determine a document among the initial rows and those written. */
  ghost predicate VersionDetermines(t: Table, ws: seq<Premint>, k: Key) {
    && (forall p, q :: p in ws && q in ws && KeyOf(p) == k && SameVersion(p, q) ==> p == q)
    && (k in t ==>
          forall p :: p in ws && KeyOf(p) == k && AsI64(MetadataOf(p).version) == t[k].version ==> p == t[k].json)
  }

  lemma TopsAgree(t: Table, ws: seq<Premint>, vs: seq<Premint>, k: Key, r: Row, r': Row)
    requires Tops(t, ws, k, r) && Tops(t, vs, k, r')
    requires forall p :: p in ws <==> p in vs
    ensures r.version == r'.version
    ensures VersionDetermines(t, ws, k) ==> r.json == r'.json
  {
    assert r.json in ws && r'.json in ws && KeyOf(r.json) == KeyOf(r'.json) == k &&
           r.version == AsI64(MetadataOf(r.json).version) && r'.version == AsI64(MetadataOf(r'.json).version)
           ==> SameVersion(r.json, r'.json);
  }

  /**
   * Two runs from one table that write the same documents, in whatever order and however often, end with the same
   * versions and, where a version determines its document, the same documents.
   */
  lemma WriteOrderIrrelevant(ps: seq<Premint>, qs: seq<Premint>, s: State, s': State,
                             xs: seq<Action>, ys: seq<Action>, k: Key)
    requires s.table == s'.table
    requires forall p :: p in Written(ps, s, xs) <==> p in Written(qs, s', ys)
    ensures var t, u := Run(ps, s, xs).table, Run(qs, s', ys).table;
      && (k in t <==> k in u)
      && (k in t ==> t[k].version == u[k].version)
      && (k in t && VersionDetermines(s.table, Written(ps, s, xs), k) ==> t[k].json == u[k].json)
  {
    RunHoldsTop(ps, s, xs, k);
    RunHoldsTop(qs, s', ys, k);
    var t, u := Run(ps, s, xs).table, Run(qs, s', ys).table;
    if k in t && k in u {
      TopsAgree(s.table, Written(ps, s, xs), Written(qs, s', ys), k, t[k], u[k]);
    }
  }

  // ----- convergence -----

  /** A document the batch or the initial table supplied. */
  predicate Source(t0: Table, ps: seq<Premint>, q: Premint) {
    q in ps || exists k :: k in t0 && t0[k].json == q
  }

  /** A URI column value the initial row of k, or the first document stored for k, supplied. */
  predicate UriSource(t0: Table, ps: seq<Premint>, k: Key, uri: string) {
    (k in t0 && t0[k].tokenUri == uri) || exists q :: q in ps && KeyOf(q) == k && MetadataOf(q).uri == uri
  }

  /** Nothing but a version can speak against a document of the batch. */
  ghost predicate Friendly(t0: Table, ps: seq<Premint>) {
    && Columns(t0)
    && (forall q :: Source(t0, ps, q) ==> MetadataOf(q).version < TWO_63)
    && (forall q, r ::
          Source(t0, ps, q) && Source(t0, ps, r) && KeyOf(q) == KeyOf(r)
          ==> MetadataOf(q).signer == MetadataOf(r).signer)
    && (forall p, k, uri :: p in ps && UriSource(t0, ps, k, uri) && uri == MetadataOf(p).uri ==> k.id == KeyOf(p).id)
    && (forall p :: p in ps ==> TokenUriLength(MetadataOf(p)) == Accept)
  }

  /** The run loses no read and meets no rejection from the other rules; they may fail. */
  ghost predicate Quiet(acts: seq<Action>) {
    forall a :: a in acts ==> !a.LoseRead? && (a.Judge? ==> Checked(Reject) !in a.others)
  }

  predicate RowOk(t0: Table, ps: seq<Premint>, k: Key, r: Row) {
    ColumnsAgree(k, r) && Source(t0, ps, r.json) && UriSource(t0, ps, k, r.tokenUri)
  }

  /** The table has p's row at p's version or a later one. */
  predicate Covered(t: Table, p: Premint) {
    KeyOf(p) in t && AsI64(MetadataOf(p).version) <= t[KeyOf(p)].version
  }

  predicate TaskOk(t0: Table, ps: seq<Premint>, t: Table, p: Premint, task: Task) {
    match task
    case Waiting => true
    case Holding(None) => true
    case Holding(Some(q)) => KeyOf(q) == KeyOf(p) && Source(t0, ps, q) && Covered(t, q)
    case Judged(accept) => !accept ==> Covered(t, p)
    case Done(_) => Covered(t, p)
  }

  ghost predicate Inv(t0: Table, ps: seq<Premint>, s: State) {
    && |s.tasks| == |ps|
    && (forall k :: k in s.table ==> RowOk(t0, ps, k, s.table[k]))
    && (forall i :: 0 <= i < |ps| ==> TaskOk(t0, ps, s.table, ps[i], s.tasks[i]))
  }

  /** A row that shows the URI of a document of the batch has its id. */
  lemma AnswerIsOwn(t0: Table, ps: seq<Premint>, t: Table, p: Premint, answer: Option<Premint>)
    requires Friendly(t0, ps) && p in ps && (forall k :: k in t ==> RowOk(t0, ps, k, t[k]))
    requires UriAnswer(t, MetadataOf(p).uri, answer)
    ensures answer.Some? ==> MetadataOf(answer.value).id == MetadataOf(p).id
  {
    if answer.Some? {
      var k :| k in t && t[k].tokenUri == MetadataOf(p).uri && t[k].json == answer.value;
      assert RowOk(t0, ps, k, t[k]);
    }
  }

  /** A document the gate turns down although its URI is free is no newer than the stored one, if of one signer. */
  lemma TurnedDownIsOld(p: Premint, e: Option<Premint>, answer: Option<Premint>, others: Results)
    requires !IsAccept(Evaluate(p, e, answer, others)) && Checked(Reject) !in others
    requires TokenUriLength(MetadataOf(p)) == Accept
    requires answer.Some? ==> MetadataOf(answer.value).id == MetadataOf(p).id
    requires e.Some? ==> MetadataOf(e.value).signer == MetadataOf(p).signer
    ensures e.Some? && MetadataOf(p).version <= MetadataOf(e.value).version
  {
    AcceptedMeans(p, e, answer, others);
  }

  /** What a judgement comes to: only a stored version at least as high can have rejected. */
  lemma JudgedByVersion(t0: Table, ps: seq<Premint>, s: State, i: nat, answer: Option<Premint>, others: Results)
    requires Friendly(t0, ps) && Inv(t0, ps, s) && i < |ps| && s.tasks[i].Holding?
    requires UriAnswer(s.table, MetadataOf(ps[i]).uri, answer) && Checked(Reject) !in others
    requires !IsAccept(Evaluate(ps[i], s.tasks[i].existing, answer, others))
    ensures Covered(s.table, ps[i])
  {
    var p, e := ps[i], s.tasks[i].existing;
    assert p in ps && Source(t0, ps, p);
    assert TaskOk(t0, ps, s.table, p, s.tasks[i]);
    AnswerIsOwn(t0, ps, s.table, p, answer);
    TurnedDownIsOld(p, e, answer, others);
  }

  lemma UpsertKeepsRows(t0: Table, ps: seq<Premint>, t: Table, p: Premint, now: nat)
    requires p in ps && forall k :: k in t ==> RowOk(t0, ps, k, t[k])
    ensures var t' := Upsert(t, p, now).0; forall k :: k in t' ==> RowOk(t0, ps, k, t'[k])
    ensures Covered(Upsert(t, p, now).0, p)
  {
    var k := KeyOf(p);
    UpsertedRowAgrees(t, p, now);
    assert Source(t0, ps, p);
    if k !in t {
      assert UriSource(t0, ps, k, MetadataOf(p).uri);
    }
  }

  lemma TaskMoves(t0: Table, ps: seq<Premint>, s: State, i: nat, task: Task)
    requires Inv(t0, ps, s) && i < |ps| && TaskOk(t0, ps, s.table, ps[i], task)
    ensures Inv(t0, ps, s.(tasks := s.tasks[i := task]))
  {
  }

  lemma WriteKeepsInv(t0: Table, ps: seq<Premint>, s: State, i: nat, now: nat)
    requires Inv(t0, ps, s) && Enabled(ps, s, Write(i, now)) && s.tasks[i].accept
    ensures Inv(t0, ps, Do(ps, s, Write(i, now)))
  {
    var s' := Do(ps, s, Write(i, now));
    UpsertKeepsRows(t0, ps, s.table, ps[i], now);
    OthersStayOk(t0, ps, s, Write(i, now));
    forall j | 0 <= j < |ps|
      ensures TaskOk(t0, ps, s'.table, ps[j], s'.tasks[j])
    {
      assert j != i ==> s'.tasks[j] == s.tasks[j];
    }
  }

  lemma StepKeepsInv(t0: Table, ps: seq<Premint>, s: State, a: Action)
    requires Friendly(t0, ps) && Inv(t0, ps, s)
    requires !a.LoseRead? && (a.Judge? ==> Checked(Reject) !in a.others)
    ensures Inv(t0, ps, Do(ps, s, a))
  {
    if Enabled(ps, s, a) {
      var p, s' := ps[a.i], Do(ps, s, a);
      assert TaskOk(t0, ps, s.table, p, s.tasks[a.i]);
      match a
      case Read(i) =>
        ReadOk(t0, ps, s.table, p);
        TaskMoves(t0, ps, s, i, s'.tasks[i]);
      case Judge(i, answer, others) =>
        if !s'.tasks[i].accept {
          JudgedByVersion(t0, ps, s, i, answer, others);
        }
        TaskMoves(t0, ps, s, i, s'.tasks[i]);
      case Write(i, now) =>
        if s.tasks[i].accept {
          WriteKeepsInv(t0, ps, s, i, now);
        } else {
          TaskMoves(t0, ps, s, i, Done(false));
        }
    }
  }

  lemma ReadOk(t0: Table, ps: seq<Premint>, t: Table, p: Premint)
    requires forall k :: k in t ==> RowOk(t0, ps, k, t[k])
    ensures TaskOk(t0, ps, t, p, Holding(GetByKey(t, KeyOf(p))))
  {
  }

  lemma OthersStayOk(t0: Table, ps: seq<Premint>, s: State, a: Action)
    requires Inv(t0, ps, s) && Enabled(ps, s, a) && a.Write?
    ensures forall j :: 0 <= j < |ps| && j != a.i ==> TaskOk(t0, ps, Do(ps, s, a).table, ps[j], s.tasks[j])
  {
    var t' := Do(ps, s, a).table;
    forall j | 0 <= j < |ps| && j != a.i
      ensures TaskOk(t0, ps, t', ps[j], s.tasks[j])
    {
      assert TaskOk(t0, ps, s.table, ps[j], s.tasks[j]);
      StepNoOlder(ps, s, a, KeyOf(ps[j]));
    }
  }

  lemma {:induction false} RunKeepsInv(t0: Table, ps: seq<Premint>, acts: seq<Action>)
    requires Friendly(t0, ps) && Quiet(acts)
    ensures Inv(t0, ps, Run(ps, Start(t0, ps), acts))
  {
    if acts == [] {
      forall k | k in t0 ensures RowOk(t0, ps, k, t0[k]) { assert ColumnsAgree(k, t0[k]); }
    } else {
      var before, a := acts[..|acts| - 1], acts[|acts| - 1];
      assert a in acts && forall b :: b in before ==> b in acts;
      RunKeepsInv(t0, ps, before);
      StepKeepsInv(t0, ps, Run(ps, Start(t0, ps), before), a);
    }
  }

  predicate Complete(s: State) {
    forall i :: 0 <= i < |s.tasks| ==> s.tasks[i].Done?
  }

  /** k's row holds a supplied document for k whose version no supplied document for k exceeds. */
  ghost predicate HoldsLatest(t0: Table, ps: seq<Premint>, t: Table, k: Key) {
    && k in t && Source(t0, ps, t[k].json) && KeyOf(t[k].json) == k
    && t[k].version == AsI64(MetadataOf(t[k].json).version)
    && (forall q :: Source(t0, ps, q) && KeyOf(q) == k ==> MetadataOf(q).version <= MetadataOf(t[k].json).version)
  }

  /**
   * A sync response, however its tasks interleave, leaves exactly the keys that were there or supplied, each at the
   * latest version supplied or already stored.
   */
  lemma SyncReachesLatest(t0: Table, ps: seq<Premint>, acts: seq<Action>, k: Key)
    requires Friendly(t0, ps) && Quiet(acts) && Complete(Run(ps, Start(t0, ps), acts))
    ensures var t := Run(ps, Start(t0, ps), acts).table;
      k in t <==> exists q :: Source(t0, ps, q) && KeyOf(q) == k
    ensures var t := Run(ps, Start(t0, ps), acts).table; k in t ==> HoldsLatest(t0, ps, t, k)
  {
    var s := Run(ps, Start(t0, ps), acts);
    RunKeepsInv(t0, ps, acts);
    if k in s.table { assert RowOk(t0, ps, k, s.table[k]); }
    forall q | Source(t0, ps, q) && KeyOf(q) == k
      ensures Covered(s.table, q)
    {
      SourceCovered(t0, ps, acts, q);
    }
  }

  lemma SourceCovered(t0: Table, ps: seq<Premint>, acts: seq<Action>, q: Premint)
    requires Friendly(t0, ps) && Quiet(acts) && Complete(Run(ps, Start(t0, ps), acts)) && Source(t0, ps, q)
    ensures Covered(Run(ps, Start(t0, ps), acts).table, q)
  {
    var s := Run(ps, Start(t0, ps), acts);
    RunKeepsInv(t0, ps, acts);
    if q in ps {
      var i :| 0 <= i < |ps| && ps[i] == q;
      assert s.tasks[i].Done? && TaskOk(t0, ps, s.table, ps[i], s.tasks[i]);
    } else {
      var l :| l in t0 && t0[l].json == q;
      assert ColumnsAgree(l, t0[l]);
      RunNoOlder(ps, Start(t0, ps), acts, 0, l);
      assert acts[..0] == [];
    }
  }

  /** Key and version determine a supplied document. */
  ghost predicate SourcesDetermined(t0: Table, ps: seq<Premint>) {
    forall q, r :: Source(t0, ps, q) && Source(t0, ps, r) && SameVersion(q, r) ==> q == r
  }

  /** Two runs of one response end with the same versions and, where these determine them, the same documents. */
  lemma SyncConverges(t0: Table, ps: seq<Premint>, xs: seq<Action>, ys: seq<Action>, k: Key)
    requires Friendly(t0, ps) && Quiet(xs) && Quiet(ys)
    requires Complete(Run(ps, Start(t0, ps), xs)) && Complete(Run(ps, Start(t0, ps), ys))
    ensures var t, u := Run(ps, Start(t0, ps), xs).table, Run(ps, Start(t0, ps), ys).table;
      && (k in t <==> k in u)
      && (k in t ==> t[k].version == u[k].version)
      && (k in t && SourcesDetermined(t0, ps) ==> t[k].json == u[k].json)
  {
    SyncReachesLatest(t0, ps, xs, k);
    SyncReachesLatest(t0, ps, ys, k);
    var t, u := Run(ps, Start(t0, ps), xs).table, Run(ps, Start(t0, ps), ys).table;
    if k in t && k in u {
      LatestAgree(t0, ps, t, u, k);
    }
  }

  lemma LatestAgree(t0: Table, ps: seq<Premint>, t: Table, u: Table, k: Key)
    requires HoldsLatest(t0, ps, t, k) && HoldsLatest(t0, ps, u, k)
    ensures t[k].version == u[k].version
    ensures SourcesDetermined(t0, ps) ==> t[k].json == u[k].json
  {
    var q, r := t[k].json, u[k].json;
    assert MetadataOf(q).version == MetadataOf(r).version;
    assert SameVersion(q, r);
  }
}
