/** Running a script end to end, and the audit trail it leaves. */
module QueryAudit {
  import opened Common
  import opened Driver
  import opened QueryExecution
  import opened QueryStatements
  import opened StatementLexer
  import opened StatementSplitter

  datatype Entry = Entry(text: string, success: bool, errorClass: Option<string>)

  datatype Refusal = ReadOnlyConnection | TransactionFailed | HistoryFailed

  /** The lexical checks and the parser, for one statement. */
  type Parser = string -> (Option<bool>, Option<Ast>, bool)

  function StatementsOf(parse: Parser, texts: seq<string>): seq<Statement> {
    seq(|texts|, i requires 0 <= i < |texts| =>
      var parsed := parse(texts[i]);
      Statement(texts[i], parsed.0, parsed.1, parsed.2))
  }

  predicate AnyError(results: seq<StatementResult>) {
    exists i :: 0 <= i < |results| && results[i].Error?
  }

  /** What the trail says of statement `i`. */
  function EntryFor(ss: seq<Statement>, results: seq<StatementResult>, rolledBack: bool, i: nat): Entry
    requires i < |ss|
  {
    var errored := i < |results| && results[i].Error?;
    Entry(ss[i].text,
          !rolledBack && i < |results| && !errored,
          if errored then Some(if results[i].code.Some? then results[i].code.value else "Error")
          else if rolledBack then Some("rolled_back")
          else None)
  }

  /** The positions of the writes, in order. */
  function Writes(ss: seq<Statement>): (r: seq<nat>)
    ensures forall k :: 0 <= k < |r| ==> r[k] < |ss| && ClassifyStatement(ss[r[k]]) == Write
    ensures forall i :: 0 <= i < |ss| && ClassifyStatement(ss[i]) == Write ==> i in r
    ensures forall j, k :: 0 <= j < k < |r| ==> r[j] < r[k]
  {
    hide ClassifyStatement;
    if ss == [] then []
    else
      var last := |ss| - 1;
      var before := Writes(ss[..last]);
      assert forall i :: 0 <= i < last ==> ss[..last][i] == ss[i];
      before + if ClassifyStatement(ss[last]) == Write then [last] else []
  }

  /** One entry per write, in order. */
  function Trail(ss: seq<Statement>, results: seq<StatementResult>, rolledBack: bool): seq<Entry> {
    var ws := Writes(ss);
    seq(|ws|, k requires 0 <= k < |ws| => EntryFor(ss, results, rolledBack, ws[k]))
  }

  function BlockedEntries(ss: seq<Statement>): seq<Entry> {
    var ws := Writes(ss);
    seq(|ws|, k requires 0 <= k < |ws| => Entry(ss[ws[k]].text, false, Some("read-only")))
  }

  /** The results and the database after a script that is allowed to run. */
  function Ran<Db>(engine: Engine<Db>, ss: seq<Statement>, transactional: bool, faults: Faults, db: Db)
    : (Option<seq<StatementResult>>, Db)
  {
    if transactional then Transacted(engine, ss, faults, db)
    else
      var p := Autocommitted(engine, ss, |ss| == 1, db);
      (Some(p.results), p.db)
  }

  class QueryService<Db> {
    const client: Client<Db>
    var audit: seq<Entry>

    constructor (client: Client<Db>)
      ensures this.client == client && audit == []
    {
      this.client, audit := client, [];
    }

    /** Records the writes among the attempted statements, or all of them when the transaction was rolled back. */
    method AuditMutations(ss: seq<Statement>, results: seq<StatementResult>, transactional: bool)
      modifies this`audit
      ensures var rolledBack := transactional && AnyError(results);
              audit == old(audit) + Trail(if rolledBack then ss else ss[..Min(|ss|, |results|)], results, rolledBack)
    {
      hide Trail, Writes, ClassifyStatement;
      var rolledBack := transactional && exists i :: 0 <= i < |results| && results[i].Error?;
      TrailNone(results, rolledBack);
      assert ss[..0] == [];
      ghost var n := if rolledBack then |ss| else Min(|ss|, |results|);
      for i := 0 to |ss|
        invariant audit == old(audit) + Trail(ss[..Min(i, n)], results, rolledBack)
      {
        TrailSnoc(ss, results, rolledBack, i);
        if ClassifyStatement(ss[i]) == Read {
          continue;
        }
        if i >= |results| && !rolledBack {
          continue;
        }
        var errored := i < |results| && results[i].Error?;
        var failed := rolledBack || i >= |results| || errored;
        var errorClass :=
          if errored then Some(if results[i].code.Some? then results[i].code.value else "Error")
          else if rolledBack then Some("rolled_back") else None;
        audit := audit + [Entry(ss[i].text, !failed, errorClass)];
      }
      assert ss[..|ss|] == ss;
    }

    /** The writes of the script, each recorded as refused. */
    method AuditBlocked(ss: seq<Statement>) returns (blocked: bool)
      modifies this`audit
      ensures blocked == (Writes(ss) != []) && audit == old(audit) + BlockedEntries(ss)
    {
      hide BlockedEntries, Writes, ClassifyStatement;
      assert ss[..0] == [];
      NoEntries();
      blocked := false;
      for i := 0 to |ss|
        invariant blocked == (Writes(ss[..i]) != []) && audit == old(audit) + BlockedEntries(ss[..i])
      {
        BlockedSnoc(ss, i);
        if ClassifyStatement(ss[i]) == Write {
          blocked, audit := true, audit + [Entry(ss[i].text, false, Some("read-only"))];
        }
      }
      assert ss[..|ss|] == ss;
    }

    /**
     * Runs a script. On a read-only connection one write refuses the whole script before anything executes. `faults`
     * and `historyFails` say whether the transaction's own statements and the history record fail.
     */
    method Execute(sql: string, parse: Parser, transactional: bool, readOnly: bool, faults: Faults, historyFails: bool)
      returns (r: Result<seq<StatementResult>, Refusal>)
      requires client.Ready() && client.working.None?
      modifies this`audit, client
      ensures client.Ready() && client.working.None?
      ensures var ss, db := StatementsOf(parse, Split(sql)), old(client.committed);
              if ss == [] then
                r == Ok([]) && client.committed == db && audit == old(audit)
              else if readOnly && Writes(ss) != [] then
                r == Err(ReadOnlyConnection) && client.committed == db && audit == old(audit) + BlockedEntries(ss)
              else
                var (results, after) := Ran(client.engine, ss, transactional, faults, db);
                && client.committed == after
                && (results.None? ==> r == Err(TransactionFailed))
                && (results.Some? ==> r == if historyFails then Err(HistoryFailed) else Ok(results.value))
                && audit == old(audit) + if r.Ok? then Trail(ss, r.value, transactional && AnyError(r.value)) else []
    {
      hide Split, Autocommitted, InTransaction, Trail, BlockedEntries, Writes, StatementsOf;
      var texts := SplitStatements(sql);
      var ss := StatementsOf(parse, texts);
      assert |ss| == |texts| by { OneEach(parse, texts); }
      if texts == [] {
        return Ok([]);
      }
      if readOnly {
        var blocked := AuditBlocked(ss);
        if blocked {
          return Err(ReadOnlyConnection);
        }
        NothingBlocked(ss);
        assert audit == old(audit);
      }
      var results: seq<StatementResult>;
      if transactional {
        var transacted := client.ExecuteTransactional(ss, faults);
        if transacted.None? {
          return Err(TransactionFailed);
        }
        results := transacted.value;
        ResultsOfTransaction(client.engine, ss, old(client.committed));
      } else {
        results := client.ExecuteAutocommit(ss);
        ResultsOfAutocommit(client.engine, ss, |ss| == 1, old(client.committed));
      }
      if historyFails {
        return Err(HistoryFailed);
      }
      assert ss[..|ss|] == ss;
      AuditMutations(ss, results, transactional);
      return Ok(results);
    }
  }

  lemma OneEach(parse: Parser, texts: seq<string>)
    ensures |StatementsOf(parse, texts)| == |texts|
  {
  }

  lemma NothingBlocked(ss: seq<Statement>)
    requires Writes(ss) == []
    ensures BlockedEntries(ss) == []
  {
  }

  lemma NoEntries()
    ensures Writes([]) == [] && BlockedEntries([]) == []
  {
  }

  lemma TrailNone(results: seq<StatementResult>, rolledBack: bool)
    ensures Trail([], results, rolledBack) == []
  {
  }

  lemma TrailSnoc(ss: seq<Statement>, results: seq<StatementResult>, rolledBack: bool, i: nat)
    requires i < |ss|
    ensures Trail(ss[..i + 1], results, rolledBack)
         == Trail(ss[..i], results, rolledBack)
            + if ClassifyStatement(ss[i]) == Write then [EntryFor(ss, results, rolledBack, i)] else []
  {
    hide ClassifyStatement;
    assert ss[..i + 1][..i] == ss[..i];
  }

  lemma BlockedSnoc(ss: seq<Statement>, i: nat)
    requires i < |ss|
    ensures Writes(ss[..i + 1]) == Writes(ss[..i]) + if ClassifyStatement(ss[i]) == Write then [i] else []
    ensures BlockedEntries(ss[..i + 1])
         == BlockedEntries(ss[..i]) + if ClassifyStatement(ss[i]) == Write
           then [Entry(ss[i].text, false, Some("read-only"))] else []
  {
    hide ClassifyStatement;
    assert ss[..i + 1][..i] == ss[..i];
  }

  /** One result per statement; one that is not an error was executed. */
  lemma {:induction false} ResultsOfAutocommit<Db>(engine: Engine<Db>, ss: seq<Statement>, only: bool, db: Db)
    ensures var p := Autocommitted(engine, ss, only, db);
            && |p.results| == |ss| == |p.ran|
            && forall i :: 0 <= i < |ss| && !p.results[i].Error? ==> p.ran[i]
  {
    if ss != [] {
      ResultsOfAutocommit(engine, ss[..|ss| - 1], only, db);
    }
  }

  /** All statements succeeded, or the last result is the only error. */
  lemma {:induction false} ResultsOfTransaction<Db>(engine: Engine<Db>, ss: seq<Statement>, db: Db)
    ensures var p := InTransaction(engine, ss, db);
            && |p.results| == |p.ran| <= |ss|
            && (Stopped(p) || |p.results| == |ss|)
            && (Stopped(p) <==> AnyError(p.results))
            && (forall i :: 0 <= i < |p.results| - 1 ==> !p.results[i].Error?)
            && (forall i :: 0 <= i < |p.results| && !p.results[i].Error? ==> p.ran[i])
  {
    hide Try;
    if ss != [] {
      ResultsOfTransaction(engine, ss[..|ss| - 1], db);
      var p := InTransaction(engine, ss[..|ss| - 1], db);
      RanUnlessError(engine, ss[|ss| - 1], p.db, p.aborted);
    }
  }

  lemma RanUnlessError<Db>(engine: Engine<Db>, s: Statement, db: Db, aborted: bool)
    ensures var a := Try(engine, s, false, true, db, aborted); !a.result.Error? ==> a.ran
  {
  }
}
