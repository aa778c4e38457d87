/** Script atomicity, and when the audit trail tells the truth. */
module QueryTheorems {
  import opened Common
  import opened QueryAudit
  import opened QueryExecution
  import opened QueryStatements
  import opened StatementLexer
  import opened Text

  /** The engine executed one request of `s`, which took the database from `a` to `b`. */
  ghost predicate Executed<Db>(engine: Engine<Db>, s: Statement, a: Db, b: Db) {
    exists request: Request, aborted: bool ::
      request.text == s.text && engine(request, a, aborted).Done? && engine(request, a, aborted).after == b
  }

  ghost predicate Path<Db>(engine: Engine<Db>, ss: seq<Statement>, states: seq<Db>) {
    |states| == |ss| + 1 && forall i :: 0 <= i < |ss| ==> Executed(engine, ss[i], states[i], states[i + 1])
  }

  /** From `a` to `b` by executing each of the statements once, in order. */
  ghost predicate ExecutedAll<Db(!new)>(engine: Engine<Db>, ss: seq<Statement>, a: Db, b: Db) {
    exists states: seq<Db> :: Path(engine, ss, states) && states[0] == a && states[|ss|] == b
  }

  /** The requests a statement sends, each with the engine's word on earlier failures; the second only when the first
      fails. */
  function Sent<Db>(engine: Engine<Db>, s: Statement, tx: bool, db: Db, aborted: bool): seq<(Request, bool)> {
    if RouteOf(s) != RowsRoute then [(AsWritten(s.text), aborted)]
    else if s.ast.None? && engine(Paged(s.text), db, aborted).Failed?
      then [(Paged(s.text), aborted), (AsWritten(s.text), tx)]
    else [(Paged(s.text), aborted)]
  }

  /**
   * A statement counts as executed exactly when the engine executes the last request it sends, and then its effect is
   * that request's; otherwise the database is unchanged.
   */
  lemma TryEffect<Db>(engine: Engine<Db>, s: Statement, only: bool, tx: bool, db: Db, aborted: bool)
    ensures var a, sent := Try(engine, s, only, tx, db, aborted), Sent(engine, s, tx, db, aborted);
            var last := sent[|sent| - 1];
            && (a.ran <==> exists q :: q in sent && engine(q.0, db, q.1).Done?)
            && (a.ran <==> engine(last.0, db, last.1).Done?)
            && (a.ran ==> a.db == engine(last.0, db, last.1).after && Executed(engine, s, db, a.db))
            && (!a.ran ==> a.db == db)
  {
    hide Executed;
    var sent := Sent(engine, s, tx, db, aborted);
    var last := sent[|sent| - 1];
    assert last in sent;
    if engine(last.0, db, last.1).Done? {
      OneRequest(engine, s, last.0, db, last.1);
    }
  }

  lemma OneRequest<Db>(engine: Engine<Db>, s: Statement, request: Request, db: Db, aborted: bool)
    requires request.text == s.text && engine(request, db, aborted).Done?
    ensures Executed(engine, s, db, engine(request, db, aborted).after)
  {
  }

  /** The statements that were executed. */
  function Kept(ss: seq<Statement>, ran: seq<bool>): seq<Statement>
    requires |ran| == |ss|
  {
    if ss == [] then []
    else
      var last := |ss| - 1;
      Kept(ss[..last], ran[..last]) + if ran[last] then [ss[last]] else []
  }

  lemma ExecutedSnoc<Db(!new)>(engine: Engine<Db>, ss: seq<Statement>, s: Statement, a: Db, m: Db, b: Db)
    requires ExecutedAll(engine, ss, a, m) && Executed(engine, s, m, b)
    ensures ExecutedAll(engine, ss + [s], a, b)
  {
    hide Executed;
    var states :| Path(engine, ss, states) && states[0] == a && states[|ss|] == m;
    assert Path(engine, ss + [s], states + [b]);
  }

  lemma ExecutedNone<Db(!new)>(engine: Engine<Db>, a: Db)
    ensures ExecutedAll(engine, [], a, a)
  {
    assert Path(engine, [], [a]);
  }

  /** Without a transaction the database holds the effects of exactly the executed statements. */
  lemma {:induction false} AutocommitEffects<Db(!new)>(engine: Engine<Db>, ss: seq<Statement>, only: bool, db: Db)
    ensures var p := Autocommitted(engine, ss, only, db);
            |p.ran| == |ss| && ExecutedAll(engine, Kept(ss, p.ran), db, p.db)
  {
    hide Try, Executed, ExecutedAll;
    if ss == [] {
      ExecutedNone(engine, db);
    } else {
      var last := |ss| - 1;
      var p := Autocommitted(engine, ss[..last], only, db);
      var a := Try(engine, ss[last], only, false, p.db, false);
      AutocommitEffects(engine, ss[..last], only, db);
      TryEffect(engine, ss[last], only, false, p.db, false);
      assert (p.ran + [a.ran])[..last] == p.ran;
      assert Kept(ss, p.ran + [a.ran]) == Kept(ss[..last], p.ran) + if a.ran then [ss[last]] else [];
      if a.ran {
        ExecutedSnoc(engine, Kept(ss[..last], p.ran), ss[last], db, p.db, a.db);
      } else {
        assert Kept(ss, p.ran + [a.ran]) == Kept(ss[..last], p.ran);
      }
    }
  }

  lemma {:induction false} TransactionEffects<Db(!new)>(engine: Engine<Db>, ss: seq<Statement>, db: Db)
    requires !Stopped(InTransaction(engine, ss, db))
    ensures ExecutedAll(engine, ss, db, InTransaction(engine, ss, db).db)
  {
    hide Executed, Try, ExecutedAll;
    if ss == [] {
      ExecutedNone(engine, db);
    } else {
      var last := |ss| - 1;
      var p := InTransaction(engine, ss[..last], db);
      var a := Try(engine, ss[last], false, true, p.db, p.aborted);
      TransactionEffects(engine, ss[..last], db);
      TryEffect(engine, ss[last], false, true, p.db, p.aborted);
      assert a.ran by { SuccessRan(engine, ss[last], false, true, p.db, p.aborted); }
      ExecutedSnoc(engine, ss[..last], ss[last], db, p.db, a.db);
      assert ss == ss[..last] + [ss[last]];
    }
  }

  lemma SuccessRan<Db>(engine: Engine<Db>, s: Statement, only: bool, tx: bool, db: Db, aborted: bool)
    ensures var a := Try(engine, s, only, tx, db, aborted); !a.result.Error? ==> a.ran
  {
  }

  /** A transactional script leaves all effects or none, and an error is the last result and the only one. */
  lemma TransactionIsAtomic<Db(!new)>(engine: Engine<Db>, ss: seq<Statement>, faults: Faults, db: Db)
    ensures var (results, after) := Transacted(engine, ss, faults, db);
            && (after == db || (results.Some? && ExecutedAll(engine, ss, db, after)))
            && (results.Some? && !AnyError(results.value) ==>
                |results.value| == |ss| && ExecutedAll(engine, ss, db, after))
            && (results.Some? && AnyError(results.value) ==> after == db)
            && (results.Some? ==> forall i :: 0 <= i < |results.value| - 1 ==> !results.value[i].Error?)
  {
    hide Try, Executed, ExecutedAll;
    ResultsOfTransaction(engine, ss, db);
    if !Stopped(InTransaction(engine, ss, db)) {
      TransactionEffects(engine, ss, db);
    }
  }

  /** Entry `k` of the trail is about write `k` of the script, and claims success exactly when that write's effect
      persists. */
  predicate TrueEntry(ss: seq<Statement>, ran: seq<bool>, committed: bool, trail: seq<Entry>, k: nat)
    requires k < |Writes(ss)| && k < |trail|
  {
    var i := Writes(ss)[k];
    trail[k].text == ss[i].text && (trail[k].success <==> committed && i < |ran| && ran[i])
  }

  /** In a transaction the trail is always true: every write once, success exactly when its effect persists. */
  lemma TransactionTrailIsTrue<Db>(engine: Engine<Db>, ss: seq<Statement>, faults: Faults, db: Db)
    requires Transacted(engine, ss, faults, db).0.Some?
    ensures var p, results := InTransaction(engine, ss, db), Transacted(engine, ss, faults, db).0.value;
            var trail, committed := Trail(ss, results, AnyError(results)), !Stopped(p);
            && |trail| == |Writes(ss)|
            && forall k :: 0 <= k < |trail| ==> TrueEntry(ss, p.ran, committed, trail, k)
  {
    hide Writes, InTransaction;
    ResultsOfTransaction(engine, ss, db);
    var p, results := InTransaction(engine, ss, db), Transacted(engine, ss, faults, db).0.value;
    var trail, committed := Trail(ss, results, AnyError(results)), !Stopped(p);
    assert results == p.results;
    forall k | 0 <= k < |trail|
      ensures TrueEntry(ss, p.ran, committed, trail, k)
    {
      var i := Writes(ss)[k];
      assert trail[k] == EntryFor(ss, results, AnyError(results), i);
    }
  }

  /** The statement's effect stands although its result is an error: describing the result failed. */
  predicate LookupBroke<Db>(engine: Engine<Db>, s: Statement, only: bool, db: Db) {
    var paged, written := engine(Paged(s.text), db, false), engine(AsWritten(s.text), db, false);
    match RouteOf(s)
    case PlanRoute => false
    case CommandRoute => written.Done? && written.fields > 0 && written.columnsFail
    case RowsRoute =>
      if paged.Done? then (only && IsSelect(s) && paged.editabilityFails) || (paged.fields > 0 && paged.columnsFail)
      else s.ast.None? && written.Done? && written.fields > 0 && written.columnsFail
  }

  /** Each statement of an autocommit script meets the database its predecessors left. */
  lemma {:induction false} AutocommitAt<Db>(engine: Engine<Db>, ss: seq<Statement>, only: bool, db: Db, i: nat)
    requires i < |ss|
    ensures var p, a := Autocommitted(engine, ss, only, db),
                        Try(engine, ss[i], only, false, Autocommitted(engine, ss[..i], only, db).db, false);
            i < |p.results| && i < |p.ran| && p.results[i] == a.result && p.ran[i] == a.ran
    decreases |ss|
  {
    hide Try;
    ResultsOfAutocommit(engine, ss, only, db);
    var last := |ss| - 1;
    ResultsOfAutocommit(engine, ss[..last], only, db);
    if i < last {
      AutocommitAt(engine, ss[..last], only, db, i);
      assert ss[..last][..i] == ss[..i];
    }
  }

  lemma BrokeExactly<Db>(engine: Engine<Db>, s: Statement, only: bool, db: Db)
    ensures var a := Try(engine, s, only, false, db, false);
            a.ran && a.result.Error? <==> LookupBroke(engine, s, only, db)
  {
  }

  /**
   * Without a transaction every write has one entry in order, and the trail is true exactly when no write was executed
   * whose result could then not be described.
   */
  lemma AutocommitTrailIsTrueExactly<Db>(engine: Engine<Db>, ss: seq<Statement>, only: bool, db: Db)
    ensures var p := Autocommitted(engine, ss, only, db);
            var trail := Trail(ss, p.results, false);
            && |trail| == |Writes(ss)|
            && (forall k :: 0 <= k < |trail| ==> trail[k].text == ss[Writes(ss)[k]].text)
            && ((forall k :: 0 <= k < |trail| ==> TrueEntry(ss, p.ran, true, trail, k))
                <==> forall i :: 0 <= i < |ss| && ClassifyStatement(ss[i]) == Write ==>
                       !LookupBroke(engine, ss[i], only, Autocommitted(engine, ss[..i], only, db).db))
  {
    hide Try, Autocommitted, ClassifyStatement, LookupBroke;
    var p, ws := Autocommitted(engine, ss, only, db), Writes(ss);
    var trail := Trail(ss, p.results, false);
    ResultsOfAutocommit(engine, ss, only, db);
    forall k | 0 <= k < |ws|
      ensures TrueEntry(ss, p.ran, true, trail, k)
         <==> !LookupBroke(engine, ss[ws[k]], only, Autocommitted(engine, ss[..ws[k]], only, db).db)
    {
      var i := ws[k];
      AutocommitAt(engine, ss, only, db, i);
      BrokeExactly(engine, ss[i], only, Autocommitted(engine, ss[..i], only, db).db);
    }
    forall i | 0 <= i < |ss| && ClassifyStatement(ss[i]) == Write
      ensures exists k :: 0 <= k < |ws| && ws[k] == i
    {
      assert i in ws;
    }
  }

  /** Which statements' effects the database holds after the script: none when the transaction was rolled back. */
  function Effective<Db>(engine: Engine<Db>, ss: seq<Statement>, transactional: bool, db: Db): seq<bool> {
    if !transactional then Autocommitted(engine, ss, |ss| == 1, db).ran
    else
      var p := InTransaction(engine, ss, db);
      if Stopped(p) then seq(|ss|, i => false) else p.ran
  }

  /** No executed write's result was impossible to describe. */
  ghost predicate AllDescribed<Db>(engine: Engine<Db>, ss: seq<Statement>, db: Db) {
    forall i :: 0 <= i < |ss| && ClassifyStatement(ss[i]) == Write ==>
      !LookupBroke(engine, ss[i], |ss| == 1, Autocommitted(engine, ss[..i], |ss| == 1, db).db)
  }

  /** The trail has one entry per write, in order, and each claims success exactly when the write's effect is in the
      database. */
  ghost predicate TrueTrail(ss: seq<Statement>, effective: seq<bool>, trail: seq<Entry>) {
    |trail| == |Writes(ss)| && forall k :: 0 <= k < |trail| ==> TrueEntry(ss, effective, true, trail, k)
  }

  /** An entry has the code of its statement's error, `rolled_back` for another failure, and no class for a success. */
  predicate ErrorsClassed(ss: seq<Statement>, results: seq<StatementResult>, trail: seq<Entry>) {
    |trail| == |Writes(ss)| && forall k :: 0 <= k < |trail| ==>
      var i := Writes(ss)[k];
      if i < |results| && results[i].Error? then
        && !trail[k].success
        && trail[k].errorClass == Some(if results[i].code.Some? then results[i].code.value else "Error")
      else trail[k].errorClass == (if trail[k].success then None else Some("rolled_back"))
  }

  predicate AllRefused(trail: seq<Entry>) {
    forall k :: 0 <= k < |trail| ==> !trail[k].success && trail[k].errorClass == Some("read-only")
  }

  lemma TrailClassed<Db>(engine: Engine<Db>, ss: seq<Statement>, transactional: bool, faults: Faults, db: Db)
    requires Ran(engine, ss, transactional, faults, db).0.Some?
    ensures var results := Ran(engine, ss, transactional, faults, db).0.value;
            ErrorsClassed(ss, results, Trail(ss, results, transactional && AnyError(results)))
  {
    hide Writes, Autocommitted, InTransaction;
    ResultsOfTransaction(engine, ss, db);
    ResultsOfAutocommit(engine, ss, |ss| == 1, db);
  }

  /** The database holds exactly the effective statements' effects; when the trail of a script that reports is true of
      it. */
  lemma RanTruthfully<Db(!new)>(engine: Engine<Db>, ss: seq<Statement>, transactional: bool, faults: Faults, db: Db)
    requires Ran(engine, ss, transactional, faults, db).0.Some?
    ensures var (results, after) := Ran(engine, ss, transactional, faults, db);
            var effective := Effective(engine, ss, transactional, db);
            var trail := Trail(ss, results.value, transactional && AnyError(results.value));
            && |effective| == |ss| && ExecutedAll(engine, Kept(ss, effective), db, after)
            && |trail| == |Writes(ss)|
            && (TrueTrail(ss, effective, trail) <==> transactional || AllDescribed(engine, ss, db))
            && ErrorsClassed(ss, results.value, trail)
  {
    TrailClassed(engine, ss, transactional, faults, db);
    hide Executed, ExecutedAll, Writes, Kept, Autocommitted, InTransaction, ClassifyStatement, LookupBroke, Try;
    if transactional {
      var p := InTransaction(engine, ss, db);
      ResultsOfTransaction(engine, ss, db);
      TransactionTrailIsTrue(engine, ss, faults, db);
      if Stopped(p) {
        KeptNone(ss);
        ExecutedNone(engine, db);
      } else {
        AllRan(p);
        KeptAll(ss, p.ran);
        TransactionEffects(engine, ss, db);
      }
    } else {
      AutocommitEffects(engine, ss, |ss| == 1, db);
      AutocommitTrailIsTrueExactly(engine, ss, |ss| == 1, db);
    }
  }

  lemma AllRan<Db>(p: Progress<Db>)
    requires !AnyError(p.results) && |p.ran| == |p.results|
    requires forall i :: 0 <= i < |p.results| && !p.results[i].Error? ==> p.ran[i]
    ensures forall i :: 0 <= i < |p.ran| ==> p.ran[i]
  {
  }

  lemma {:induction false} KeptAll(ss: seq<Statement>, ran: seq<bool>)
    requires |ran| == |ss| && forall i :: 0 <= i < |ran| ==> ran[i]
    ensures Kept(ss, ran) == ss
  {
    if ss != [] {
      KeptAll(ss[..|ss| - 1], ran[..|ss| - 1]);
    }
  }

  lemma {:induction false} KeptNone(ss: seq<Statement>)
    ensures Kept(ss, seq(|ss|, i => false)) == []
  {
    if ss != [] {
      KeptNone(ss[..|ss| - 1]);
      assert seq(|ss|, i => false)[..|ss| - 1] == seq(|ss| - 1, i => false);
    }
  }

  // ---- the read-only gate ----------------------------------------------------------------------------------------

  /** A node, at any depth, of a statement that changes data. */
  ghost predicate HoldsWrite(n: Ast) {
    exists m :: Within(m, n) && m.Node? && m.kind.Some?
      && Lower(m.kind.value) in {"insert", "update", "delete", "replace"}
  }

  /** A plan without ANALYZE, a parsed SELECT with no writing statement in it, or unparsed text that looks like a
      SELECT. */
  ghost predicate ReadsOnly(s: Statement) {
    if s.explain.Some? then !s.explain.value
    else if s.ast.None? then s.looksLikeSelect
    else s.ast.value.Node? && s.ast.value.kind == Some("select") && !HoldsWrite(s.ast.value)
  }

  lemma ClassifiedExactly(s: Statement)
    ensures ClassifyStatement(s) == Read <==> ReadsOnly(s)
  {
    hide Within, ContainsWrite;
    if s.ast.Some? {
      ContainsWriteExactly(s.ast.value);
      assert (exists m :: Within(m, s.ast.value) && IsWriteNode(m)) <==> HoldsWrite(s.ast.value);
    }
  }

  /** What the read-only gate lets through: scripts whose every statement only reads. */
  lemma GateExactly(ss: seq<Statement>)
    ensures Writes(ss) == [] <==> forall i :: 0 <= i < |ss| ==> ReadsOnly(ss[i])
  {
    hide ClassifyStatement, ReadsOnly;
    forall i | 0 <= i < |ss| ensures ClassifyStatement(ss[i]) == Read <==> ReadsOnly(ss[i]) {
      ClassifiedExactly(ss[i]);
    }
    if Writes(ss) != [] {
      var i := Writes(ss)[0];
      assert ClassifyStatement(ss[i]) == Write;
    }
  }

  // ---- what a script answers -------------------------------------------------------------------------------------

  /** The script up to statement `i`: the database it has left, and whether a request of its transaction has failed. */
  function RunBefore<Db>(engine: Engine<Db>, ss: seq<Statement>, transactional: bool, db: Db, i: nat): Progress<Db>
    requires i <= |ss|
  {
    if transactional then InTransaction(engine, ss[..i], db) else Autocommitted(engine, ss[..i], |ss| == 1, db)
  }

  lemma {:induction false} TransactionAt<Db>(engine: Engine<Db>, ss: seq<Statement>, db: Db, i: nat)
    requires i < |InTransaction(engine, ss, db).results|
    ensures i < |ss|
    ensures var p := InTransaction(engine, ss[..i], db);
            InTransaction(engine, ss, db).results[i] == Try(engine, ss[i], false, true, p.db, p.aborted).result
    decreases |ss|
  {
    hide Try, AnyError;
    ResultsOfTransaction(engine, ss, db);
    var last := |ss| - 1;
    var p := InTransaction(engine, ss[..last], db);
    ResultsOfTransaction(engine, ss[..last], db);
    if i < |p.results| {
      TransactionAt(engine, ss[..last], db, i);
      assert ss[..last][..i] == ss[..i];
      assert InTransaction(engine, ss, db).results[i] == p.results[i];
    } else {
      assert i == last;
    }
  }

  /** Each result is what its statement answers on the database that the statements before it left. */
  ghost predicate ScriptAnswered<Db>(
      engine: Engine<Db>, ss: seq<Statement>, transactional: bool, db: Db, results: seq<StatementResult>)
  {
    |results| <= |ss| && forall i :: 0 <= i < |results| ==>
      var p := RunBefore(engine, ss, transactional, db, i);
      Answered(engine, ss[i], !transactional && |ss| == 1, transactional, p.db, transactional && p.aborted, results[i])
  }

  lemma ScriptAnswers<Db>(engine: Engine<Db>, ss: seq<Statement>, transactional: bool, faults: Faults, db: Db)
    requires Ran(engine, ss, transactional, faults, db).0.Some?
    ensures ScriptAnswered(engine, ss, transactional, db, Ran(engine, ss, transactional, faults, db).0.value)
  {
    hide Try, Answered, InTransaction, Autocommitted;
    var results := Ran(engine, ss, transactional, faults, db).0.value;
    ResultsOfTransaction(engine, ss, db);
    ResultsOfAutocommit(engine, ss, |ss| == 1, db);
    forall i | 0 <= i < |results|
      ensures var p := RunBefore(engine, ss, transactional, db, i);
              Answered(engine, ss[i], !transactional && |ss| == 1, transactional, p.db, transactional && p.aborted,
                       results[i])
    {
      var p := RunBefore(engine, ss, transactional, db, i);
      if transactional {
        TransactionAt(engine, ss, db, i);
      } else {
        AutocommitAt(engine, ss, |ss| == 1, db, i);
      }
      TryAnswers(engine, ss[i], !transactional && |ss| == 1, transactional, p.db, transactional && p.aborted);
    }
  }

  // ---- the service end to end ------------------------------------------------------------------------------------

  /**
   * Runs a script that is let through: what the service then appended to the audit trail is true of the target
   * database, in a transaction always, and otherwise exactly when every executed write could be described. Each result
   * is what the engine's answers to its statement make of it.
   */
  method ExecuteTruthfully<Db(!new)>(
    service: QueryService<Db>, sql: string, parse: Parser, transactional: bool, readOnly: bool, faults: Faults,
    historyFails: bool)
    returns (r: Result<seq<StatementResult>, Refusal>, ghost trail: seq<Entry>)
    requires service.client.Ready() && service.client.working.None?
    modifies service`audit, service.client
    ensures service.audit == old(service.audit) + trail
    ensures var client, ss, db := service.client, StatementsOf(parse, Split(sql)), old(service.client.committed);
            r.Ok? ==>
              var effective := Effective(client.engine, ss, transactional, db);
              && |effective| == |ss| && ExecutedAll(client.engine, Kept(ss, effective), db, client.committed)
              && |trail| == |Writes(ss)|
              && (TrueTrail(ss, effective, trail) <==> transactional || AllDescribed(client.engine, ss, db))
              && (readOnly ==> Writes(ss) == [])
              && ErrorsClassed(ss, r.value, trail) && ScriptAnswered(client.engine, ss, transactional, db, r.value)
    ensures var ss := StatementsOf(parse, Split(sql));
            r == Err(ReadOnlyConnection) <==> readOnly && exists i :: 0 <= i < |ss| && !ReadsOnly(ss[i])
    ensures r == Err(ReadOnlyConnection) ==>
              && service.client.committed == old(service.client.committed)
              && |trail| == |Writes(StatementsOf(parse, Split(sql)))| && AllRefused(trail)
    ensures r == Err(TransactionFailed) ==> service.client.committed == old(service.client.committed) && trail == []
    ensures r == Err(HistoryFailed) ==> trail == []
  {
    hide Split, StatementsOf, Ran, Trail, Writes, Effective, ExecutedAll, Kept, TrueTrail, AllDescribed, RunBefore;
    hide ReadsOnly, ScriptAnswered;
    ghost var ss := StatementsOf(parse, Split(sql));
    GateExactly(ss);
    ghost var before, db := service.audit, service.client.committed;
    r := service.Execute(sql, parse, transactional, readOnly, faults, historyFails);
    trail := service.audit[|before|..];
    assert service.audit == before + trail;
    if r == Err(TransactionFailed) {
      ghost var ran := Ran(service.client.engine, ss, transactional, faults, db);
      assert ran.0.None? && service.client.committed == ran.1;
      UnreportedIsUndone(service.client.engine, ss, transactional, faults, db);
    }
    if r == Err(ReadOnlyConnection) {
      ghost var results := Ran(service.client.engine, ss, transactional, faults, db).0;
      assert results.None? || results.Some?;
      assert service.audit == before + BlockedEntries(ss);
      assert trail == BlockedEntries(ss);
    }
    if r.Ok? {
      if ss == [] {
        NothingRan(service.client.engine, transactional, db);
      } else {
        RanTruthfully(service.client.engine, ss, transactional, faults, db);
        ScriptAnswers(service.client.engine, ss, transactional, faults, db);
      }
    }
  }

  lemma UnreportedIsUndone<Db>(engine: Engine<Db>, ss: seq<Statement>, transactional: bool, faults: Faults, db: Db)
    ensures var (results, after) := Ran(engine, ss, transactional, faults, db); results.None? ==> after == db
  {
  }

  lemma NothingRan<Db(!new)>(engine: Engine<Db>, transactional: bool, db: Db)
    ensures Effective(engine, [], transactional, db) == [] && Kept([], []) == [] && ExecutedAll(engine, [], db, db)
    ensures Writes([]) == [] && TrueTrail([], [], []) && AllDescribed(engine, [], db)
    ensures ErrorsClassed([], [], []) && ScriptAnswered(engine, [], transactional, db, [])
  {
    ExecutedNone(engine, db);
  }

  /** An `INSERT ... RETURNING` whose columns cannot be described is recorded as a failure although its row is there. */
  lemma FalseEntry()
    ensures var engine: Engine<nat> := (request, db, aborted) => Done(db + 1, 1, 1, false, true);
            var s := Statement("insert into t values (1) returning id", None, Some(Node(Some("insert"), [])), false);
            var p := Autocommitted(engine, [s], true, 0);
            p.db == 1 && Trail([s], p.results, false) == [Entry(s.text, false, Some("Error"))]
  {
    var engine: Engine<nat> := (request, db, aborted) => Done(db + 1, 1, 1, false, true);
    var s := Statement("insert into t values (1) returning id", None, Some(Node(Some("insert"), [])), false);
    assert [s][..0] == [];
    assert Autocommitted(engine, [], true, 0) == Progress([], [], 0, false);
    assert Writes([]) == [] && Writes([s]) == [0];
  }

}
