/** Running a script on a target database, each statement on its own or all in one transaction. */
module QueryExecution {
  import opened Common
  import opened Driver
  import opened CursorStream
  import opened QueryStatements

  datatype Request = Paged(text: string) | AsWritten(text: string)

  /**
   * What the engine answers to one request. `rows` and `fields` count the rows and columns it returns; the two flags
   * say whether the lookups that describe a result afterwards fail.
   */
  datatype Outcome<+Db> =
    | Failed(code: Option<string>)
    | Done(after: Db, rows: nat, fields: nat, editabilityFails: bool, columnsFail: bool)

  datatype StatementResult =
    | Rows(text: string, totalRows: nat, truncated: bool)
    | CommandDone(text: string)
    | Plan(text: string, analyze: bool)
    | Error(text: string, code: Option<string>)

  /** An engine, told whether a request of the same transaction has failed before; a failed request changes nothing. */
  type Engine<!Db> = (Request, Db, bool) -> Outcome<Db>

  /** A statement tried: its result, whether the engine executed it, and the state after it. */
  datatype Attempt<+Db> = Attempt(result: StatementResult, ran: bool, db: Db, aborted: bool)

  // ---- what each kind of statement answers -----------------------------------------------------------------------

  /** A page of `n` rows: as many as fit on it, and truncated exactly when there are more. */
  predicate IsPage(text: string, n: nat, result: StatementResult) {
    result.Rows? && result.text == text && result.totalRows == Min(n, 100) && (result.truncated <==> n > 100)
  }

  /** The lookups that describe the result of a SELECT go through; editability is looked up for a single parsed one. */
  predicate Described<Db>(o: Outcome<Db>, s: Statement, only: bool)
    requires o.Done?
  {
    !(only && s.ast.Some? && o.editabilityFails) && !(o.fields > 0 && o.columnsFail)
  }

  /** A SELECT whose paged form the engine runs. */
  predicate SelectAnswered<Db>(o: Outcome<Db>, s: Statement, only: bool, result: StatementResult) {
    o.Done? ==> if Described(o, s, only) then IsPage(s.text, o.rows, result) else result == Error(s.text, None)
  }

  /** A statement run as written: all the rows it returns, or none when it returns no columns. */
  predicate CommandAnswered<Db>(o: Outcome<Db>, s: Statement, result: StatementResult) {
    match o
    case Failed(code) => result == Error(s.text, code)
    case Done(_, n, fields, _, columnsFail) =>
      result == if fields == 0 then CommandDone(s.text)
                else if columnsFail then Error(s.text, None)
                else Rows(s.text, n, false)
  }

  predicate PlanAnswered<Db>(o: Outcome<Db>, s: Statement, analyze: bool, result: StatementResult) {
    result == if o.Failed? then Error(s.text, o.code) else Plan(s.text, analyze)
  }

  /** What a statement answers, by what it is and by what the engine says to its requests. */
  predicate Answered<Db>(
      engine: Engine<Db>, s: Statement, only: bool, tx: bool, db: Db, aborted: bool, result: StatementResult) {
    var paged, written := engine(Paged(s.text), db, aborted), engine(AsWritten(s.text), db, aborted);
    var select := if s.ast.Some? then s.ast.value.Node? && s.ast.value.kind == Some("select") else s.looksLikeSelect;
    if s.explain.Some? then PlanAnswered(written, s, s.explain.value, result)
    else if !select then CommandAnswered(written, s, result)
    else if paged.Done? then SelectAnswered(paged, s, only, result)
    else if s.ast.Some? then result == Error(s.text, paged.code)
    else CommandAnswered(engine(AsWritten(s.text), db, tx), s, result)
  }

  // ---- attempts --------------------------------------------------------------------------------------------------

  function CommandAttempt<Db>(engine: Engine<Db>, s: Statement, tx: bool, db: Db, aborted: bool): Attempt<Db> {
    match engine(AsWritten(s.text), db, aborted)
    case Failed(code) => Attempt(Error(s.text, code), false, db, tx)
    case Done(after, rows, fields, _, columnsFail) =>
      if fields == 0 then Attempt(CommandDone(s.text), true, after, aborted)
      else if columnsFail then Attempt(Error(s.text, None), true, after, aborted)
      else Attempt(Rows(s.text, rows, false), true, after, aborted)
  }

  /** A page of a SELECT; one the parser did not understand is run as written when its paged form fails. */
  function RowsAttempt<Db>(engine: Engine<Db>, s: Statement, only: bool, tx: bool, db: Db, aborted: bool): Attempt<Db> {
    match engine(Paged(s.text), db, aborted)
    case Failed(code) =>
      if s.ast.None? then CommandAttempt(engine, s, tx, db, tx) else Attempt(Error(s.text, code), false, db, tx)
    case Done(after, rows, fields, editabilityFails, columnsFail) =>
      if (only && IsSelect(s) && editabilityFails) || (fields > 0 && columnsFail)
      then Attempt(Error(s.text, None), true, after, aborted)
      else Attempt(Rows(s.text, Min(rows, QUERY_PAGE_SIZE), rows > QUERY_PAGE_SIZE), true, after, aborted)
  }

  function PlanAttempt<Db>(engine: Engine<Db>, s: Statement, tx: bool, db: Db, aborted: bool): Attempt<Db>
    requires s.explain.Some?
  {
    match engine(AsWritten(s.text), db, aborted)
    case Failed(code) => Attempt(Error(s.text, code), false, db, tx)
    case Done(after, _, _, _, _) => Attempt(Plan(s.text, s.explain.value), true, after, aborted)
  }

  function Try<Db>(engine: Engine<Db>, s: Statement, only: bool, tx: bool, db: Db, aborted: bool): Attempt<Db> {
    match RouteOf(s)
    case PlanRoute => PlanAttempt(engine, s, tx, db, aborted)
    case RowsRoute => RowsAttempt(engine, s, only, tx, db, aborted)
    case CommandRoute => CommandAttempt(engine, s, tx, db, aborted)
  }

  lemma TryAnswers<Db>(engine: Engine<Db>, s: Statement, only: bool, tx: bool, db: Db, aborted: bool)
    ensures Answered(engine, s, only, tx, db, aborted, Try(engine, s, only, tx, db, aborted).result)
  {
  }

  /** A script as far as it has run: a result and an executed-flag per statement, and the state it left. */
  datatype Progress<+Db> = Progress(results: seq<StatementResult>, ran: seq<bool>, db: Db, aborted: bool)

  function Then<Db>(p: Progress<Db>, a: Attempt<Db>): Progress<Db> {
    Progress(p.results + [a.result], p.ran + [a.ran], a.db, a.aborted)
  }

  /** Every statement on its own. */
  function Autocommitted<Db>(engine: Engine<Db>, ss: seq<Statement>, only: bool, db: Db): Progress<Db> {
    if ss == [] then Progress([], [], db, false)
    else
      var p := Autocommitted(engine, ss[..|ss| - 1], only, db);
      Then(p, Try(engine, ss[|ss| - 1], only, false, p.db, false))
  }

  predicate Stopped<Db>(p: Progress<Db>) {
    p.results != [] && p.results[|p.results| - 1].Error?
  }

  /** Inside a transaction, up to and including the first statement that fails. */
  function InTransaction<Db>(engine: Engine<Db>, ss: seq<Statement>, db: Db): Progress<Db> {
    if ss == [] then Progress([], [], db, false)
    else
      var p := InTransaction(engine, ss[..|ss| - 1], db);
      if Stopped(p) then p else Then(p, Try(engine, ss[|ss| - 1], false, true, p.db, p.aborted))
  }

  /** Which of the transaction's own statements fail. */
  datatype Faults = Faults(begin: bool, rollback: bool, commit: bool)

  /** The results a transaction reports, if it reports any, and the database after it. */
  function Transacted<Db>(
      engine: Engine<Db>, ss: seq<Statement>, faults: Faults, db: Db): (Option<seq<StatementResult>>, Db) {
    var p := InTransaction(engine, ss, db);
    if faults.begin then (None, db)
    else if Stopped(p) then (if faults.rollback then None else Some(p.results), db)
    else if faults.commit then (None, db)
    else (Some(p.results), p.db)
  }

  /** A client of the target database, in a transaction or not. */
  class Client<Db> {
    const engine: Engine<Db>
    var committed: Db
    var working: Option<Db>
    var aborted: bool

    constructor (engine: Engine<Db>, db: Db)
      ensures this.engine == engine && committed == db && working == None && !aborted
    {
      this.engine, committed, working, aborted := engine, db, None, false;
    }

    /** The state a request runs on. */
    function Current(): Db
      reads this
    {
      if working.Some? then working.value else committed
    }

    /** No transaction is open, or the client is inside one. */
    predicate Ready()
      reads this
    {
      working.None? ==> !aborted
    }

    method Query(request: Request) returns (o: Outcome<Db>)
      requires Ready()
      modifies this`committed, this`working, this`aborted
      ensures Ready() && o == engine(request, old(Current()), old(aborted))
      ensures working.Some? == old(working.Some?)
      ensures working.Some? ==> committed == old(committed)
      ensures Current() == if o.Done? then o.after else old(Current())
      ensures aborted == if o.Done? then old(aborted) else working.Some?
    {
      o := engine(request, Current(), aborted);
      match o
      case Failed(_) => aborted := working.Some?;
      case Done(after, _, _, _, _) =>
        if working.Some? {
          working := Some(after);
        } else {
          committed := after;
        }
    }

    method Begin()
      requires Ready() && working.None?
      modifies this`working
      ensures Ready() && working == Some(committed)
    {
      working := Some(committed);
    }

    /** Ends the transaction, keeping its effects or not. */
    method End(keep: bool)
      requires Ready() && working.Some?
      modifies this`committed, this`working, this`aborted
      ensures Ready() && working.None? && committed == if keep then old(Current()) else old(committed)
    {
      if keep {
        committed := working.value;
      }
      working, aborted := None, false;
    }

    method ExecuteOneStatement(s: Statement, only: bool) returns (result: StatementResult)
      requires Ready()
      modifies this`committed, this`working, this`aborted
      ensures Ready() && working.Some? == old(working.Some?) && (working.Some? ==> committed == old(committed))
      ensures var a := Try(engine, s, only, old(working.Some?), old(Current()), old(aborted));
              result == a.result && Current() == a.db && aborted == a.aborted
      ensures Answered(engine, s, only, old(working.Some?), old(Current()), old(aborted), result)
    {
      TryAnswers(engine, s, only, working.Some?, Current(), aborted);
      if s.explain.Some? {
        result := ExecutePlan(s);
      } else if IsSelect(s) || (s.ast.None? && s.looksLikeSelect) {
        result := ExecuteRows(s, only);
      } else {
        result := ExecuteCommand(s);
      }
    }

    method ExecutePlan(s: Statement) returns (result: StatementResult)
      requires Ready() && s.explain.Some?
      modifies this`committed, this`working, this`aborted
      ensures Ready() && working.Some? == old(working.Some?) && (working.Some? ==> committed == old(committed))
      ensures var a := PlanAttempt(engine, s, old(working.Some?), old(Current()), old(aborted));
              result == a.result && Current() == a.db && aborted == a.aborted
      ensures PlanAnswered(engine(AsWritten(s.text), old(Current()), old(aborted)), s, s.explain.value, result)
    {
      var o := Query(AsWritten(s.text));
      match o
      case Failed(code) => result := Error(s.text, code);
      case Done(_, _, _, _, _) => result := Plan(s.text, s.explain.value);
    }

    method ExecuteRows(s: Statement, only: bool) returns (result: StatementResult)
      requires Ready()
      modifies this`committed, this`working, this`aborted
      ensures Ready() && working.Some? == old(working.Some?) && (working.Some? ==> committed == old(committed))
      ensures var a := RowsAttempt(engine, s, only, old(working.Some?), old(Current()), old(aborted));
              result == a.result && Current() == a.db && aborted == a.aborted
      ensures IsSelect(s) || s.ast.None? ==>
                SelectAnswered(engine(Paged(s.text), old(Current()), old(aborted)), s, only, result)
    {
      var o := Query(Paged(s.text));
      match o
      case Failed(code) =>
        if s.ast.None? {
          result := ExecuteCommand(s);
        } else {
          result := Error(s.text, code);
        }
      case Done(_, rows, fields, editabilityFails, columnsFail) =>
        var truncated := rows > QUERY_PAGE_SIZE;
        var total := if truncated then QUERY_PAGE_SIZE else rows;
        if only && IsSelect(s) && editabilityFails {
          return Error(s.text, None);
        }
        if fields > 0 && columnsFail {
          return Error(s.text, None);
        }
        result := Rows(s.text, total, truncated);
    }

    method ExecuteCommand(s: Statement) returns (result: StatementResult)
      requires Ready()
      modifies this`committed, this`working, this`aborted
      ensures Ready() && working.Some? == old(working.Some?) && (working.Some? ==> committed == old(committed))
      ensures var a := CommandAttempt(engine, s, old(working.Some?), old(Current()), old(aborted));
              result == a.result && Current() == a.db && aborted == a.aborted
      ensures CommandAnswered(engine(AsWritten(s.text), old(Current()), old(aborted)), s, result)
    {
      var o := Query(AsWritten(s.text));
      match o
      case Failed(code) => result := Error(s.text, code);
      case Done(_, rows, fields, _, columnsFail) =>
        if fields > 0 {
          if columnsFail {
            return Error(s.text, None);
          }
          return Rows(s.text, rows, false);
        }
        result := CommandDone(s.text);
    }

    /** Each statement runs and commits on its own; a failure does not stop the rest. */
    method ExecuteAutocommit(ss: seq<Statement>) returns (results: seq<StatementResult>)
      requires Ready() && working.None?
      modifies this`committed, this`working, this`aborted
      ensures Ready() && working.None?
      ensures var p := Autocommitted(engine, ss, |ss| == 1, old(committed));
              results == p.results && committed == p.db
    {
      hide Try, Answered;
      results := [];
      for i := 0 to |ss|
        invariant Ready() && working.None?
        invariant var p := Autocommitted(engine, ss[..i], |ss| == 1, old(committed));
                  results == p.results && committed == p.db
      {
        assert ss[..i + 1][..i] == ss[..i];
        var result := ExecuteOneStatement(ss[i], |ss| == 1);
        results := results + [result];
      }
      assert ss[..|ss|] == ss;
    }

    /** All statements in one transaction: the first failure rolls everything back. `None` when the transaction itself
        fails. */
    method ExecuteTransactional(ss: seq<Statement>, faults: Faults) returns (r: Option<seq<StatementResult>>)
      requires Ready() && working.None?
      modifies this`committed, this`working, this`aborted
      ensures Ready() && working.None?
      ensures (r, committed) == Transacted(engine, ss, faults, old(committed))
    {
      hide Try, Answered;
      if faults.begin {
        return None;
      }
      Begin();
      var results := [];
      for i := 0 to |ss|
        invariant Ready() && working.Some? && committed == old(committed)
        invariant var p := InTransaction(engine, ss[..i], committed);
                  && !Stopped(p) && results == p.results && working == Some(p.db) && aborted == p.aborted
      {
        assert ss[..i + 1][..i] == ss[..i];
        var result := ExecuteOneStatement(ss[i], false);
        results := results + [result];
        if result.Error? {
          StaysStopped(engine, ss, i + 1, committed);
          End(false);
          return if faults.rollback then None else Some(results);
        }
      }
      assert ss[..|ss|] == ss;
      End(!faults.commit);
      return if faults.commit then None else Some(results);
    }
  }

  /** Nothing runs after the first failure. */
  lemma {:induction false} StaysStopped<Db>(engine: Engine<Db>, ss: seq<Statement>, n: nat, db: Db)
    requires n <= |ss| && Stopped(InTransaction(engine, ss[..n], db))
    ensures InTransaction(engine, ss, db) == InTransaction(engine, ss[..n], db)
    decreases |ss|
  {
    hide Try;
    if n < |ss| {
      assert ss[..|ss| - 1][..n] == ss[..n];
      StaysStopped(engine, ss[..|ss| - 1], n, db);
    } else {
      assert ss[..n] == ss;
    }
  }
}
