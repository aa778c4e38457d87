/** The guarded bulk write: validation, then one update per row in a single transaction. */
module BulkUpdate {
  import opened Common
  import opened EditBuffer
  import opened EditBufferState
  import opened GuardedUpdates

  /** What the request is checked against: live metadata and the user's masking. */
  datatype Context = Context(readOnly: bool, columns: seq<string>, primaryKey: seq<string>, masked: set<string>)

  // ---- validation ----------------------------------------------------------------------------------------------

  predicate KeyMatches(provided: Record, primaryKey: seq<string>) {
    |provided| == |primaryKey| && forall i :: 0 <= i < |primaryKey| ==> primaryKey[i] in provided
  }

  function KeyValues(provided: Record, primaryKey: seq<string>): Key
    requires KeyMatches(provided, primaryKey)
  {
    seq(|primaryKey|, i requires 0 <= i < |primaryKey| => provided[primaryKey[i]])
  }

  /** The key has the provided value of each key column, in the order of the key. */
  ghost predicate KeyedBy(key: Key, provided: Record, primaryKey: seq<string>) {
    |key| == |primaryKey| && forall i :: 0 <= i < |primaryKey| ==> Lookup(provided, primaryKey[i]) == Some(key[i])
  }

  function FirstUnknown(edits: seq<string>, columns: seq<string>): (r: Option<string>)
    ensures r.None? <==> forall i :: 0 <= i < |edits| ==> edits[i] in columns
  {
    if edits == [] then None else if edits[0] !in columns then Some(edits[0]) else FirstUnknown(edits[1..], columns)
  }

  function ValidateBulkRow(row: BulkRowEdit, ctx: Context): Result<Key, GridError> {
    if !KeyMatches(row.primaryKey, ctx.primaryKey) then Err(KeyMismatch)
    else if row.edits == [] then Err(NoColumnEdits)
    else
      var unknown := FirstUnknown(ColumnsOfEdits(row.edits), ctx.columns);
      if unknown.Some? then Err(UnknownColumn(unknown.value)) else Ok(KeyValues(row.primaryKey, ctx.primaryKey))
  }

  /** `entries` is the order in which the record's keys come; only the error for an unknown column depends on it. */
  function ResolveGuard(row: BulkRowEdit, entries: seq<CellEdit>, ctx: Context): Result<Guard, GridError> {
    if row.version.Some? then Ok(VersionGuard(row.version.value))
    else if row.expected.Some? then
      if entries == [] then Err(EmptyGuard)
      else
        var unknown := FirstUnknown(ColumnsOfEdits(entries), ctx.columns);
        if unknown.Some? then Err(UnknownColumn(unknown.value))
        else Ok(PreimageGuard(ColumnsOfEdits(entries),
                              seq(|entries|, i requires 0 <= i < |entries| => entries[i].value)))
    else Err(MissingGuard)
  }

  // ---- preparing -----------------------------------------------------------------------------------------------

  /** `us` are the validated updates of `body`. */
  ghost predicate PreparedFrom(body: seq<BulkRowEdit>, ctx: Context, us: seq<Update>) {
    && |us| == |body|
    && forall i :: 0 <= i < |body| ==>
         && us[i].edits == body[i].edits
         && ValidateBulkRow(body[i], ctx) == Ok(us[i].key)
         && GuardFrom(body[i], ctx, us[i].guard)
  }

  ghost predicate GuardFrom(row: BulkRowEdit, ctx: Context, guard: Guard) {
    exists entries ::
      Lists(entries, if row.expected.Some? then row.expected.value else map[])
        && ResolveGuard(row, entries, ctx) == Ok(guard)
  }

  /** The checks before any row is looked at. */
  function Precheck(body: seq<BulkRowEdit>, ctx: Context): Option<GridError> {
    if ctx.readOnly then Some(ReadOnly)
    else if ctx.columns == [] then Some(TableNotFound)
    else if ctx.primaryKey == [] then Some(NotEditable)
    else if body == [] then Some(NoRowEdits)
    else if exists i, j :: 0 <= i < |body| && 0 <= j < |body[i].edits| &&
                           body[i].edits[j].column in ctx.masked && body[i].edits[j].column !in ctx.primaryKey
      then Some(MaskedColumn)
    else None
  }

  // ---- what is accepted ----------------------------------------------------------------------------------------

  /** The key columns and no others, known columns only, and a guard: a version, or values of known columns. */
  ghost predicate RowAcceptable(row: BulkRowEdit, ctx: Context) {
    && |row.primaryKey| == |ctx.primaryKey| && (forall c :: c in ctx.primaryKey ==> c in row.primaryKey)
    && row.edits != [] && (forall j :: 0 <= j < |row.edits| ==> row.edits[j].column in ctx.columns)
    && (|| row.version.Some?
        || (row.expected.Some? && row.expected.value != map[]
            && forall c :: c in row.expected.value ==> c in ctx.columns))
  }

  ghost predicate Acceptable(body: seq<BulkRowEdit>, ctx: Context) {
    && !ctx.readOnly && ctx.columns != [] && ctx.primaryKey != [] && body != []
    && (forall i :: 0 <= i < |body| ==> RowAcceptable(body[i], ctx))
    && forall i, j :: 0 <= i < |body| && 0 <= j < |body[i].edits| ==>
         body[i].edits[j].column in ctx.masked ==> body[i].edits[j].column in ctx.primaryKey
  }

  /** The checks of the whole request, in their order. */
  lemma PrecheckInOrder(body: seq<BulkRowEdit>, ctx: Context)
    ensures ctx.readOnly <==> Precheck(body, ctx) == Some(ReadOnly)
    ensures !ctx.readOnly && ctx.columns == [] <==> Precheck(body, ctx) == Some(TableNotFound)
    ensures !ctx.readOnly && ctx.columns != [] && ctx.primaryKey == [] <==> Precheck(body, ctx) == Some(NotEditable)
    ensures !ctx.readOnly && ctx.columns != [] && ctx.primaryKey != [] && body == [] <==>
              Precheck(body, ctx) == Some(NoRowEdits)
    ensures Precheck(body, ctx) == Some(MaskedColumn) ==>
              exists i, j :: 0 <= i < |body| && 0 <= j < |body[i].edits| &&
                             body[i].edits[j].column in ctx.masked && body[i].edits[j].column !in ctx.primaryKey
  {
  }

  /** The checks of one row, in their order: its key, its edits, its columns, its guard. */
  lemma RefusedInOrder(row: BulkRowEdit, ctx: Context, error: GridError)
    requires RowRefused(row, ctx, error)
    ensures !KeyMatches(row.primaryKey, ctx.primaryKey) <==> error == KeyMismatch
    ensures KeyMatches(row.primaryKey, ctx.primaryKey) && row.edits == [] <==> error == NoColumnEdits
    ensures error == EmptyGuard ==> row.version.None? && row.expected == Some(map[])
    ensures error == MissingGuard ==> row.version.None? && row.expected.None?
    ensures error.UnknownColumn? ==>
              && error.column !in ctx.columns
              && (|| (exists j :: 0 <= j < |row.edits| && row.edits[j].column == error.column)
                  || (row.version.None? && row.expected.Some? && error.column in row.expected.value))
  {
    hide ResolveGuard, KeyMatches, Lists;
    InvalidInOrder(row, ctx);
    if ValidateBulkRow(row, ctx).Ok? {
      var m := if row.expected.Some? then row.expected.value else map[];
      var entries :| Lists(entries, m) && ResolveGuard(row, entries, ctx) == Err(error);
      UnguardedInOrder(row, ctx, m, entries, error);
    }
  }

  lemma InvalidInOrder(row: BulkRowEdit, ctx: Context)
    ensures match ValidateBulkRow(row, ctx)
            case Ok(_) => KeyMatches(row.primaryKey, ctx.primaryKey) && row.edits != []
            case Err(e) =>
              && (!KeyMatches(row.primaryKey, ctx.primaryKey) <==> e == KeyMismatch)
              && (KeyMatches(row.primaryKey, ctx.primaryKey) && row.edits == [] <==> e == NoColumnEdits)
              && !e.EmptyGuard? && !e.MissingGuard?
              && (e.UnknownColumn? ==>
                    e.column !in ctx.columns && exists j :: 0 <= j < |row.edits| && row.edits[j].column == e.column)
  {
    hide KeyMatches;
    FirstUnknownWhere(ColumnsOfEdits(row.edits), ctx.columns);
    assert forall j :: 0 <= j < |row.edits| ==> ColumnsOfEdits(row.edits)[j] == row.edits[j].column;
  }

  lemma UnguardedInOrder(row: BulkRowEdit, ctx: Context, m: Record, entries: seq<CellEdit>, error: GridError)
    requires m == (if row.expected.Some? then row.expected.value else map[]) && Lists(entries, m)
    requires ResolveGuard(row, entries, ctx) == Err(error)
    ensures row.version.None? && !error.KeyMismatch? && !error.NoColumnEdits?
    ensures error == EmptyGuard ==> row.expected == Some(map[])
    ensures error == MissingGuard ==> row.expected.None?
    ensures error.UnknownColumn? ==> error.column !in ctx.columns && row.expected.Some? && error.column in m
  {
    FirstUnknownWhere(ColumnsOfEdits(entries), ctx.columns);
    assert forall j :: 0 <= j < |entries| ==> ColumnsOfEdits(entries)[j] == entries[j].column;
    assert entries == [] ==> m == map[];
  }

  lemma {:induction false} FirstUnknownWhere(edits: seq<string>, columns: seq<string>)
    ensures var r := FirstUnknown(edits, columns);
            r.Some? ==> r.value !in columns && exists j :: 0 <= j < |edits| && edits[j] == r.value
  {
    if edits != [] && edits[0] in columns {
      FirstUnknownWhere(edits[1..], columns);
      var r := FirstUnknown(edits[1..], columns);
      if r.Some? {
        var j :| 0 <= j < |edits[1..]| && edits[1..][j] == r.value;
        assert edits[j + 1] == r.value;
      }
    }
  }

  /** The first edited column that the table lacks is named. */
  lemma UnknownNamed(row: BulkRowEdit, ctx: Context, j: nat)
    requires KeyMatches(row.primaryKey, ctx.primaryKey) && j < |row.edits| && row.edits[j].column !in ctx.columns
    requires forall k :: 0 <= k < j ==> row.edits[k].column in ctx.columns
    ensures ValidateBulkRow(row, ctx) == Err(UnknownColumn(row.edits[j].column))
  {
    FirstUnknownIs(ColumnsOfEdits(row.edits), ctx.columns, j);
  }

  lemma {:induction false} FirstUnknownIs(edits: seq<string>, columns: seq<string>, j: nat)
    requires j < |edits| && edits[j] !in columns && forall k :: 0 <= k < j ==> edits[k] in columns
    ensures FirstUnknown(edits, columns) == Some(edits[j])
  {
    if j > 0 {
      FirstUnknownIs(edits[1..], columns, j - 1);
    }
  }

  lemma {:induction false} ListingExists(m: Record) returns (es: seq<CellEdit>)
    ensures Lists(es, m)
    decreases |m|
  {
    if m == map[] {
      es := [];
    } else {
      var c :| c in m;
      assert m.Keys == (m - {c}).Keys + {c};
      assert |m.Keys| == |m| && |(m - {c}).Keys| == |m - {c}|;
      var rest := ListingExists(m - {c});
      ListsMore(rest, m - {c}, c, m[c]);
      es := rest + [CellEdit(c, m[c])];
      assert (m - {c})[c := m[c]] == m;
    }
  }

  lemma GuardExists(row: BulkRowEdit, ctx: Context)
    ensures (exists guard :: GuardFrom(row, ctx, guard)) <==>
              || row.version.Some?
              || (row.expected.Some? && row.expected.value != map[]
                  && forall c :: c in row.expected.value ==> c in ctx.columns)
  {
    var m := if row.expected.Some? then row.expected.value else map[];
    var entries := ListingExists(m);
    GuardOfListing(row, ctx, m, entries);
    if ResolveGuard(row, entries, ctx).Ok? {
      assert GuardFrom(row, ctx, ResolveGuard(row, entries, ctx).value);
    } else {
      forall guard ensures !GuardFrom(row, ctx, guard) {
        NoGuard(row, ctx, entries, guard);
      }
    }
  }

  lemma GuardOfListing(row: BulkRowEdit, ctx: Context, m: Record, entries: seq<CellEdit>)
    requires m == (if row.expected.Some? then row.expected.value else map[]) && Lists(entries, m)
    ensures ResolveGuard(row, entries, ctx).Ok? <==>
              || row.version.Some?
              || (row.expected.Some? && m != map[] && forall c :: c in m ==> c in ctx.columns)
  {
    assert entries == [] ==> m == map[];
    assert entries != [] ==> entries[0].column in m;
    if forall i :: 0 <= i < |entries| ==> ColumnsOfEdits(entries)[i] in ctx.columns {
      forall c | c in m ensures c in ctx.columns {
        var i :| 0 <= i < |entries| && entries[i].column == c;
        assert ColumnsOfEdits(entries)[i] in ctx.columns;
      }
    }
  }

  lemma ValidRow(row: BulkRowEdit, ctx: Context)
    ensures ValidateBulkRow(row, ctx).Ok? <==>
              && |row.primaryKey| == |ctx.primaryKey| && (forall c :: c in ctx.primaryKey ==> c in row.primaryKey)
              && row.edits != [] && (forall j :: 0 <= j < |row.edits| ==> row.edits[j].column in ctx.columns)
  {
    assert forall j :: 0 <= j < |row.edits| ==> ColumnsOfEdits(row.edits)[j] == row.edits[j].column;
  }

  /** The request is let through to the table exactly when every part of it is acceptable. */
  lemma AcceptedExactly(body: seq<BulkRowEdit>, ctx: Context)
    ensures Precheck(body, ctx).None? && (exists us :: PreparedFrom(body, ctx, us)) <==> Acceptable(body, ctx)
  {
    hide ValidateBulkRow, GuardFrom;
    forall i | 0 <= i < |body|
      ensures RowAcceptable(body[i], ctx) <==> Preparable(body[i], ctx)
    {
      ValidRow(body[i], ctx);
      GuardExists(body[i], ctx);
    }
    hide RowAcceptable;
    if forall i :: 0 <= i < |body| ==> RowAcceptable(body[i], ctx) {
      var us := PreparedUpdates(body, ctx);
      assert PreparedFrom(body, ctx, us);
    }
    if us: seq<Update> :| PreparedFrom(body, ctx, us) {
      forall i | 0 <= i < |body| ensures Preparable(body[i], ctx) {
        assert GuardFrom(body[i], ctx, us[i].guard);
      }
    }
  }

  ghost predicate Preparable(row: BulkRowEdit, ctx: Context) {
    ValidateBulkRow(row, ctx).Ok? && exists guard :: GuardFrom(row, ctx, guard)
  }

  lemma {:induction false} PreparedUpdates(body: seq<BulkRowEdit>, ctx: Context) returns (us: seq<Update>)
    requires forall i :: 0 <= i < |body| ==> Preparable(body[i], ctx)
    ensures PreparedFrom(body, ctx, us)
    decreases body
  {
    hide ValidateBulkRow, GuardFrom;
    us := [];
    if body != [] {
      var last := body[|body| - 1];
      var before := PreparedUpdates(body[..|body| - 1], ctx);
      var guard :| GuardFrom(last, ctx, guard);
      us := before + [Update(ValidateBulkRow(last, ctx).value, last.edits, guard)];
    }
  }

  class TableStore {
    var rows: Rows
    const primaryKey: seq<string>
    /** Whether an update hands the refreshed row back, or it must be read again. */
    const returning: bool

    constructor (rows: Rows, primaryKey: seq<string>, returning: bool)
      ensures this.rows == rows && this.primaryKey == primaryKey && this.returning == returning
    {
      this.rows, this.primaryKey, this.returning := rows, primaryKey, returning;
    }

    /** Runs the guarded statement; `out` is what the engine returns. */
    method Query(u: Update, stamp: string) returns (outcome: UpdateOutcome, out: Option<Row>)
      requires |u.key| == |primaryKey|
      modifies this
      ensures outcome == GuardedUpdate(old(rows), primaryKey, u, stamp)
      ensures rows == if outcome.Updated? then outcome.rows else old(rows)
      ensures out == if outcome.Updated? && returning then Some(rows[outcome.key]) else None
    {
      outcome, out := GuardedUpdate(rows, primaryKey, u, stamp), None;
      if outcome.Updated? {
        rows := outcome.rows;
        if returning {
          out := Some(rows[outcome.key]);
        }
      }
    }

    /** Re-reads a row by the key it has after its edits. */
    method ReselectRow(key: Key, edits: seq<CellEdit>) returns (row: Option<Row>)
      requires |key| == |primaryKey|
      ensures row == Lookup(rows, EditedKey(key, primaryKey, edits))
    {
      var editByColumn := Overlay(map[], edits);
      var newKey := seq(|key|, i requires 0 <= i < |key| =>
        if primaryKey[i] in editByColumn then editByColumn[primaryKey[i]] else key[i]);
      assert newKey == EditedKey(key, primaryKey, edits);
      row := Lookup(rows, newKey);
    }
  }

  /** The body of the transaction: it stops at the first row whose guard fails. */
  method RunInTransaction(store: TableStore, us: seq<Update>, stamp: string) returns (r: Result<seq<Row>, GridError>)
    requires forall i :: 0 <= i < |us| ==> |us[i].key| == |store.primaryKey|
    modifies store
    ensures match RunUpdates(old(store.rows), store.primaryKey, us, stamp)
            case Ok(done) => r == Ok(done.1) && store.rows == done.0
            case Err(e) => r == Err(e)
  {
    var updated := [];
    assert us[0..] == us;
    PrependTwice([], [], RunUpdates(store.rows, store.primaryKey, us, stamp));
    for i := 0 to |us|
      invariant RunUpdates(old(store.rows), store.primaryKey, us, stamp)
             == Prepend(updated, RunUpdates(store.rows, store.primaryKey, us[i..], stamp))
    {
      assert us[i..][1..] == us[i + 1..] && us[i..][0] == us[i];
      var outcome, out := store.Query(us[i], stamp);
      if outcome.Unmatched? {
        return Err(Conflict);
      }
      if outcome.Refused? {
        return Err(EngineError);
      }
      var row := out;
      if row.None? {
        row := store.ReselectRow(us[i].key, us[i].edits);
      }
      PrependTwice(updated, [row.value], RunUpdates(store.rows, store.primaryKey, us[i + 1..], stamp));
      updated := updated + [row.value];
    }
    assert us[|us|..] == [] && updated + [] == updated;
    return Ok(updated);
  }

  /** Whether there is a guard does not depend on the order in which the entries come. */
  lemma NoGuard(row: BulkRowEdit, ctx: Context, entries: seq<CellEdit>, guard: Guard)
    requires Lists(entries, if row.expected.Some? then row.expected.value else map[])
             && ResolveGuard(row, entries, ctx).Err?
    ensures !GuardFrom(row, ctx, guard)
  {
    var m := if row.expected.Some? then row.expected.value else map[];
    forall other: seq<CellEdit> | Lists(other, m) ensures ResolveGuard(row, other, ctx).Err? {
      if entries != [] && row.version.None? && row.expected.Some? {
        var i :| 0 <= i < |entries| && ColumnsOfEdits(entries)[i] !in ctx.columns;
        assert entries[i].column in m;
        var j :| 0 <= j < |other| && other[j].column == entries[i].column;
        assert ColumnsOfEdits(other)[j] !in ctx.columns;
      }
    }
  }

  /** The row is refused with this error: its own checks come before its guard's. */
  ghost predicate RowRefused(row: BulkRowEdit, ctx: Context, error: GridError) {
    match ValidateBulkRow(row, ctx)
    case Err(e) => error == e
    case Ok(_) => exists entries :: Lists(entries, if row.expected.Some? then row.expected.value else map[])
                                    && ResolveGuard(row, entries, ctx) == Err(error)
  }

  /** Every row is validated and guarded, or the first row that is refused gives the error. */
  method Prepare(body: seq<BulkRowEdit>, ctx: Context) returns (r: Result<seq<Update>, GridError>)
    ensures r.Ok? ==> PreparedFrom(body, ctx, r.value)
    ensures r.Err? ==> forall us :: !PreparedFrom(body, ctx, us)
    ensures r.Err? ==>
            exists i ::
              (0 <= i < |body| && RowRefused(body[i], ctx, r.error) && exists us :: PreparedFrom(body[..i], ctx, us))
  {
    hide ValidateBulkRow, ResolveGuard, Lists;
    var prepared := [];
    for i := 0 to |body|
      invariant PreparedFrom(body[..i], ctx, prepared)
    {
      var row := body[i];
      var key := ValidateBulkRow(row, ctx);
      if key.Err? {
        forall us: seq<Update> ensures !PreparedFrom(body, ctx, us) {
        }
        return Err(key.error);
      }
      var entries := EntriesOf(if row.expected.Some? then row.expected.value else map[]);
      var guard := ResolveGuard(row, entries, ctx);
      if guard.Err? {
        forall us: seq<Update> ensures !PreparedFrom(body, ctx, us) {
          forall g ensures !GuardFrom(row, ctx, g) {
            NoGuard(row, ctx, entries, g);
          }
        }
        return Err(guard.error);
      }
      assert GuardFrom(row, ctx, guard.value);
      assert body[..i + 1] == body[..i] + [row];
      prepared := prepared + [Update(key.value, row.edits, guard.value)];
    }
    assert body[..|body|] == body;
    return Ok(prepared);
  }

  lemma PreparedKeys(body: seq<BulkRowEdit>, ctx: Context, us: seq<Update>)
    requires PreparedFrom(body, ctx, us)
    ensures |us| == |body| && forall i :: 0 <= i < |us| ==>
              us[i].edits == body[i].edits && KeyedBy(us[i].key, body[i].primaryKey, ctx.primaryKey)
  {
    hide GuardFrom;
  }

  /** All or nothing: the table is changed only when every row was updated; then it keeps its keys in order. */
  method BulkUpdateRows(store: TableStore, body: seq<BulkRowEdit>, ctx: Context, stamp: string)
    returns (r: Result<seq<Row>, GridError>, ghost us: seq<Update>)
    requires ctx.primaryKey == store.primaryKey
    modifies store
    ensures r.Err? ==> store.rows == old(store.rows)
    ensures r.Ok? ==>
              && Acceptable(body, ctx) && |us| == |body|
              && (forall i :: 0 <= i < |us| ==>
                    us[i].edits == body[i].edits && KeyedBy(us[i].key, body[i].primaryKey, store.primaryKey))
              && KeysKept(old(store.rows), store.rows, store.primaryKey, us, r.value)
    ensures Precheck(body, ctx).Some? ==> r == Err(Precheck(body, ctx).value)
    ensures Precheck(body, ctx).None? && !PreparedFrom(body, ctx, us) ==>
              && r.Err? && (forall other :: !PreparedFrom(body, ctx, other))
              && exists i ::
                   (&& 0 <= i < |body| && RowRefused(body[i], ctx, r.error)
                    && exists some :: PreparedFrom(body[..i], ctx, some))
    ensures Precheck(body, ctx).None? && PreparedFrom(body, ctx, us) ==>
              match RunUpdates(old(store.rows), store.primaryKey, us, stamp)
              case Ok(done) => r == Ok(done.1) && store.rows == done.0
              case Err(e) => r == Err(e)
  {
    us := [];
    var failed := Precheck(body, ctx);
    if failed.Some? {
      return Err(failed.value), us;
    }
    var prepared := Prepare(body, ctx);
    if prepared.Err? {
      return Err(prepared.error), us;
    }
    us := prepared.value;
    var begin := store.rows;
    AcceptedExactly(body, ctx);
    PreparedKeys(body, ctx, us);
    BatchKeepsKeys(begin, store.primaryKey, us, stamp);
    r := RunInTransaction(store, prepared.value, stamp);
    if r.Err? {
      store.rows := begin; // ROLLBACK
    }
  }
}
