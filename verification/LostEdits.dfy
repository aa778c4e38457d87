/** Saves that go wrong: a column with an inherited name, and two rows under one row key. */
module LostEdits {
  import opened Common
  import opened EditBuffer
  import opened EditBufferState
  import opened BulkUpdate
  import opened GuardedUpdates
  import opened NoLostUpdate
  import opened GridSaves
  import opened Text

  // ---- when a row key stands for one row -------------------------------------------------------------------------

  /** The key under which a row's edits are kept: its key values, as text, with `::` between them. */
  function RowKeyOf(key: seq<string>): string {
    Join(key, "::")
  }

  lemma JoinTwo(a: string, b: string, rest: seq<string>)
    ensures RowKeyOf([a, b] + rest) == a + "::" + (if rest == [] then b else b + "::" + RowKeyOf(rest))
  {
    var all := [a, b] + rest;
    assert all[0] == a && all[1..] == [b] + rest && all[1..][0] == b && all[1..][1..] == rest;
    assert Join(all, "::") == a + "::" + Join(all[1..], "::");
  }

  /** Keys of `n` columns have row keys of their own exactly when there is at most one column. */
  lemma RowKeysDistinctExactly(n: nat)
    ensures (forall a: seq<string>, b: seq<string> :: |a| == |b| == n && RowKeyOf(a) == RowKeyOf(b) ==> a == b)
            <==> n <= 1
  {
    if n >= 2 {
      var rest := seq(n - 2, i => "");
      var a, b := ["::", ""] + rest, ["", "::"] + rest;
      JoinTwo("::", "", rest);
      JoinTwo("", "::", rest);
      assert RowKeyOf(a) == RowKeyOf(b) && a[0] != b[0];
    } else if n == 1 {
      forall a: seq<string>, b: seq<string> | |a| == |b| == n && RowKeyOf(a) == RowKeyOf(b) ensures a == b {
        assert a == [a[0]] && b == [b[0]];
      }
    }
  }

  predicate NoColons(key: seq<string>) {
    forall i :: 0 <= i < |key| ==> ':' !in key[i]
  }

  /** Key values without colons always have row keys of their own. */
  lemma {:induction false} RowKeysDistinct(a: seq<string>, b: seq<string>)
    requires |a| == |b| && NoColons(a) && NoColons(b) && RowKeyOf(a) == RowKeyOf(b)
    ensures a == b
  {
    if |a| > 1 {
      SameHead(a[0], "::" + RowKeyOf(a[1..]), b[0], "::" + RowKeyOf(b[1..]));
      assert RowKeyOf(a) == a[0] + ("::" + RowKeyOf(a[1..])) && RowKeyOf(b) == b[0] + ("::" + RowKeyOf(b[1..]));
      assert ("::" + RowKeyOf(a[1..]))[2..] == RowKeyOf(a[1..]) && ("::" + RowKeyOf(b[1..]))[2..] == RowKeyOf(b[1..]);
      RowKeysDistinct(a[1..], b[1..]);
      assert a == [a[0]] + a[1..] && b == [b[0]] + b[1..];
    } else if |a| == 1 {
      assert a == [a[0]] && b == [b[0]];
    }
  }

  lemma SameHead(a: string, x: string, b: string, y: string)
    requires ':' !in a && ':' !in b && x != "" && y != "" && x[0] == ':' && y[0] == ':'
    ensures a + x == b + y ==> a == b && x == y
  {
    if a + x == b + y {
      var s := a + x;
      assert s[|a|] == ':' && (b + y)[|b|] == ':';
      assert forall i :: 0 <= i < |a| ==> s[i] == a[i];
      assert forall i :: 0 <= i < |b| ==> (b + y)[i] == b[i];
      assert |a| == |b|;
      assert a == s[..|a|] && b == (b + y)[..|b|] && x == s[|a|..] && y == (b + y)[|b|..];
    }
  }

  // ---- two edits under one row key -------------------------------------------------------------------------------

  datatype Typed = Typed(column: string, before: Value, after: Value)

  function TwoCalls(row: string, first: RowIdentity, one: Typed, second: RowIdentity, two: Typed): seq<StageCall> {
    [StageCall(row, first, one.column, one.before, one.after),
     StageCall(row, second, two.column, two.before, two.after)]
  }

  /** What the two calls leave: both edits, with the identity of the second, and the values captured. */
  lemma TwoStaged(row: string, first: RowIdentity, one: Typed, second: RowIdentity, two: Typed)
    requires one.column != two.column && one.column !in INHERITED && one.before != one.after && two.before != two.after
    ensures StagedAll(TwoCalls(row, first, one, second, two)) ==
            map[row := RowEditEntry(
                  second.primaryKey, second.version,
                  if two.column in INHERITED then map[one.column := one.before]
                  else map[one.column := one.before, two.column := two.before],
                  map[one.column := one.after, two.column := two.after])]
  {
    hide INHERITED, StagedAll, Staged;
    StagedOne(row, first, one);
    StagedAnother(row, first, one, second, two);
    StagedTwice(StageCall(row, first, one.column, one.before, one.after),
                StageCall(row, second, two.column, two.before, two.after));
  }

  lemma StagedTwice(a: StageCall, b: StageCall)
    ensures StagedAll([a, b]) == Staged(Staged(map[], a), b)
  {
    hide Staged;
    assert [a, b][..1] == [a] && [a][..0] == [];
    assert StagedAll([a]) == Staged(map[], a);
  }

  function OneEntry(identity: RowIdentity, typed: Typed): RowEditEntry {
    RowEditEntry(
      identity.primaryKey, identity.version, map[typed.column := typed.before], map[typed.column := typed.after])
  }

  lemma StagedOne(row: string, identity: RowIdentity, typed: Typed)
    requires typed.column !in INHERITED && typed.before != typed.after
    ensures Staged(map[], StageCall(row, identity, typed.column, typed.before, typed.after)) ==
            map[row := OneEntry(identity, typed)]
  {
    hide INHERITED;
    assert typed.column in map[typed.column := typed.after];
  }

  lemma StagedAnother(row: string, first: RowIdentity, one: Typed, second: RowIdentity, two: Typed)
    requires one.column != two.column && two.before != two.after
    ensures Staged(map[row := OneEntry(first, one)], StageCall(row, second, two.column, two.before, two.after)) ==
            map[row := RowEditEntry(
                  second.primaryKey, second.version,
                  if two.column in INHERITED then map[one.column := one.before]
                  else map[one.column := one.before, two.column := two.before],
                  map[one.column := one.after, two.column := two.after])]
  {
    hide INHERITED;
    assert two.column in map[one.column := one.after][two.column := two.after];
  }

  function TwoEdit(entry: RowEditEntry, one: Typed, two: Typed): BulkRowEdit {
    BulkRowEdit(entry.primaryKey, [CellEdit(one.column, one.after), CellEdit(two.column, two.after)], None,
                Some(entry.original))
  }

  function GuardOf(entries: seq<CellEdit>): Guard {
    PreimageGuard(ColumnsOfEdits(entries), seq(|entries|, i requires 0 <= i < |entries| => entries[i].value))
  }

  /** The request for such an entry is accepted, guarded by the captured values. */
  lemma TwoAccepted(entry: RowEditEntry, one: Typed, two: Typed, entries: seq<CellEdit>, ctx: Context)
    requires one.column != two.column && entry.edits == map[one.column := one.after, two.column := two.after]
    requires entries != [] && Lists(entries, entry.original) && entry.original.Keys <= {one.column, two.column}
    requires one.column in ctx.columns && two.column in ctx.columns && KeyMatches(entry.primaryKey, ctx.primaryKey)
    ensures IsRowEdit(entry, Preimage, TwoEdit(entry, one, two))
    ensures ValidateBulkRow(TwoEdit(entry, one, two), ctx) == Ok(KeyValues(entry.primaryKey, ctx.primaryKey))
    ensures GuardFrom(TwoEdit(entry, one, two), ctx, GuardOf(entries))
  {
    hide KeyMatches, KeyValues, ResolveGuard, Lists;
    var edit := TwoEdit(entry, one, two);
    assert ExpectedOf(entry) == entry.original;
    assert Lists(edit.edits, entry.edits) by { TwoListed(entry.edits, edit.edits, one, two); }
    assert ColumnsOfEdits(edit.edits) == [one.column, two.column];
    TwoGuarded(entry, one, two, entries, ctx);
  }

  lemma TwoListed(m: Record, edits: seq<CellEdit>, one: Typed, two: Typed)
    requires one.column != two.column && m == map[one.column := one.after, two.column := two.after]
    requires edits == [CellEdit(one.column, one.after), CellEdit(two.column, two.after)]
    ensures Lists(edits, m)
  {
    assert edits[0].column == one.column && edits[1].column == two.column;
  }

  lemma TwoGuarded(entry: RowEditEntry, one: Typed, two: Typed, entries: seq<CellEdit>, ctx: Context)
    requires entries != [] && Lists(entries, entry.original) && entry.original.Keys <= {one.column, two.column}
    requires one.column in ctx.columns && two.column in ctx.columns
    ensures ResolveGuard(TwoEdit(entry, one, two), entries, ctx) == Ok(GuardOf(entries))
  {
    assert forall i :: 0 <= i < |entries| ==> ColumnsOfEdits(entries)[i] == entries[i].column;
  }

  /** A buffer of one row, its request, and the update prepared for it. */
  lemma OneBody(row: string, entry: RowEditEntry, edit: BulkRowEdit, ctx: Context, u: Update)
    requires IsRowEdit(entry, Preimage, edit)
    requires u.edits == edit.edits && ValidateBulkRow(edit, ctx) == Ok(u.key) && GuardFrom(edit, ctx, u.guard)
    ensures IsBody(map[row := entry], Preimage, [row], [edit]) && PreparedFrom([edit], ctx, [u])
  {
    hide IsRowEdit, ValidateBulkRow, GuardFrom;
    assert [row][0] == row;
  }

  /** One ready update, run. */
  lemma OneUpdate(rows: Rows, primaryKey: seq<string>, u: Update, stamp: string)
    requires KeepsKey(u, primaryKey) && Ready(rows, u)
    ensures var r := RunUpdates(rows, primaryKey, [u], stamp);
            r.Ok? && r.value.0 == rows[u.key := Row(Overlay(rows[u.key].cells, u.edits), stamp)]
  {
    hide GuardedUpdate, Overlay, GuardHolds, KeepsKey;
    UpdateInPlace(rows, primaryKey, u, stamp);
    assert [u][1..] == [];
    KeyLength(u, primaryKey);
  }

  lemma KeyLength(u: Update, primaryKey: seq<string>)
    requires KeepsKey(u, primaryKey)
    ensures |u.key| == |primaryKey|
  {
  }

  lemma TwoOverlaid(cells: Record, one: Typed, two: Typed)
    ensures Overlay(cells, [CellEdit(one.column, one.after), CellEdit(two.column, two.after)])
         == cells[one.column := one.after][two.column := two.after]
  {
    var es := [CellEdit(one.column, one.after), CellEdit(two.column, two.after)];
    assert es[..1] == [es[0]] && es[..1][..0] == [];
    assert Overlay(cells, []) == cells;
    assert Overlay(cells, [es[0]]) == cells[one.column := one.after];
  }

  // ---- a column with an inherited name ---------------------------------------------------------------------------

  const A_TYPED := Typed("a", Number(1), Number(2))
  const VALUE_OF_TYPED := Typed("valueOf", Number(5), Number(6))
  const ID_ROW := RowIdentity(map["id" := Number(0)], None)
  const ID_CONTEXT := Context(false, ["id", "a", "valueOf"], ["id"], {})

  /** The row that was loaded with 1 and 5, as it is now. */
  function IdTable(a: int, v: int, version: string): Rows {
    map[[Number(0)] := Row(map["id" := Number(0), "a" := Number(a), "valueOf" := Number(v)], version)]
  }

  /** The buffer's own save runs and overwrites 99, which somebody else wrote over the loaded 5, with 6. */
  lemma LostUpdateUnderInheritedName(stamp: string) returns (body: seq<BulkRowEdit>, us: seq<Update>)
    ensures var calls := TwoCalls("r", ID_ROW, A_TYPED, ID_ROW, VALUE_OF_TYPED);
            && FromGrid(map[("r", "a") := Number(1), ("r", "valueOf") := Number(5)], calls)
            && GridSave(calls, map["r" := ID_ROW], Preimage, ["r"], body, ID_CONTEXT, us)
            && var r := RunUpdates(IdTable(1, 99, ""), ["id"], us, stamp);
               r.Ok? && r.value.0 == IdTable(2, 6, stamp)
  {
    hide StagedAll, RunUpdates, GridSave, FromGrid, IsRowEdit, GuardFrom, ValidateBulkRow;
    var entry := RowEditEntry(map["id" := Number(0)], None, map["a" := Number(1)],
                              map["a" := Number(2), "valueOf" := Number(6)]);
    var entries := [CellEdit("a", Number(1))];
    body := [TwoEdit(entry, A_TYPED, VALUE_OF_TYPED)];
    us := [Update([Number(0)], body[0].edits, GuardOf(entries))];
    InheritedTyped();
    InheritedAccepted(entry, entries, body, us);
    InheritedRun(us[0], stamp);
  }

  lemma InheritedTyped()
    ensures FromGrid(map[("r", "a") := Number(1), ("r", "valueOf") := Number(5)],
                     TwoCalls("r", ID_ROW, A_TYPED, ID_ROW, VALUE_OF_TYPED))
  {
    var loaded: Cells := map[("r", "a") := Number(1), ("r", "valueOf") := Number(5)];
    var calls := TwoCalls("r", ID_ROW, A_TYPED, ID_ROW, VALUE_OF_TYPED);
    assert |"a"| != |"valueOf"|;
    assert Shown(loaded, calls[..0]) == loaded;
    assert calls[..1][..0] == calls[..0];
    assert Shown(loaded, calls[..1]) == loaded[("r", "a") := Number(2)];
  }

  lemma InheritedAccepted(entry: RowEditEntry, entries: seq<CellEdit>, body: seq<BulkRowEdit>, us: seq<Update>)
    requires entry == RowEditEntry(map["id" := Number(0)], None, map["a" := Number(1)],
                                   map["a" := Number(2), "valueOf" := Number(6)])
    requires entries == [CellEdit("a", Number(1))] && body == [TwoEdit(entry, A_TYPED, VALUE_OF_TYPED)]
    requires us == [Update([Number(0)], body[0].edits, GuardOf(entries))]
    ensures GridSave(TwoCalls("r", ID_ROW, A_TYPED, ID_ROW, VALUE_OF_TYPED), map["r" := ID_ROW], Preimage, ["r"], body,
                     ID_CONTEXT, us)
  {
    hide StagedAll, IsRowEdit, GuardFrom, ValidateBulkRow, IsBody, PreparedFrom, INHERITED, KeyMatches, KeyValues;
    hide Identified, ProperKeys, NoKeyColumn;
    InheritedCalls();
    assert "valueOf" in INHERITED && "a" !in INHERITED by { ShortNames(); }
    assert |"a"| != |"valueOf"|;
    TwoStaged("r", ID_ROW, A_TYPED, ID_ROW, VALUE_OF_TYPED);
    InheritedKey();
    InheritedListed(entries, entry.original);
    TwoAccepted(entry, A_TYPED, VALUE_OF_TYPED, entries, ID_CONTEXT);
    OneBody("r", entry, body[0], ID_CONTEXT, us[0]);
  }

  lemma InheritedCalls()
    ensures var calls := TwoCalls("r", ID_ROW, A_TYPED, ID_ROW, VALUE_OF_TYPED);
            Identified(calls, map["r" := ID_ROW]) && NoKeyColumn(calls, ["id"])
    ensures ProperKeys(map["r" := ID_ROW], ["id"])
  {
    assert |"id"| != |"a"| && |"id"| != |"valueOf"|;
  }

  lemma InheritedKey()
    ensures KeyMatches(ID_ROW.primaryKey, ["id"]) && KeyValues(ID_ROW.primaryKey, ["id"]) == [Number(0)]
  {
  }

  lemma InheritedListed(entries: seq<CellEdit>, m: Record)
    requires entries == [CellEdit("a", Number(1))] && m == map["a" := Number(1)]
    ensures Lists(entries, m)
    ensures "a" in ID_CONTEXT.columns && "valueOf" in ID_CONTEXT.columns
  {
    assert entries[0].column == "a";
    assert "a" == ID_CONTEXT.columns[1] && "valueOf" == ID_CONTEXT.columns[2];
  }

  lemma ShortNames()
    ensures "valueOf" in INHERITED && forall c :: c in INHERITED ==> |c| >= 7
  {
  }

  lemma InheritedRun(u: Update, stamp: string)
    requires u.key == [Number(0)] && u.guard == GuardOf([CellEdit("a", Number(1))])
    requires u.edits == [CellEdit("a", Number(2)), CellEdit("valueOf", Number(6))]
    ensures var r := RunUpdates(IdTable(1, 99, ""), ["id"], [u], stamp); r.Ok? && r.value.0 == IdTable(2, 6, stamp)
  {
    hide RunUpdates, Overlay;
    assert |"id"| != |"a"| && |"id"| != |"valueOf"| && |"a"| != |"valueOf"|;
    var cells := IdTable(1, 99, "")[u.key].cells;
    OneUpdate(IdTable(1, 99, ""), ["id"], u, stamp);
    TwoOverlaid(cells, A_TYPED, VALUE_OF_TYPED);
    assert cells["a" := Number(2)]["valueOf" := Number(6)]
           == map["id" := Number(0), "a" := Number(2), "valueOf" := Number(6)];
  }

  // ---- two rows under one row key --------------------------------------------------------------------------------

  const X_TYPED := Typed("x", Number(1), Number(2))
  const Y_TYPED := Typed("y", Number(5), Number(6))
  const FIRST_ROW := RowIdentity(map["p" := Text("a::b"), "q" := Text("c")], None)
  const SECOND_ROW := RowIdentity(map["p" := Text("a"), "q" := Text("b::c")], None)
  const PAIR_CONTEXT := Context(false, ["p", "q", "x", "y"], ["p", "q"], {})

  function PairCells(p: string, q: string, x: int, y: int): Record {
    map["p" := Text(p), "q" := Text(q), "x" := Number(x), "y" := Number(y)]
  }

  /** The two rows; the second as it is now. */
  function PairTable(x: int, y: int, version: string): Rows {
    map[[Text("a::b"), Text("c")] := Row(PairCells("a::b", "c", 1, 0), ""),
        [Text("a"), Text("b::c")] := Row(PairCells("a", "b::c", x, y), version)]
  }

  /** 2 typed into `x` of the first row, 6 into `y` of the second: both rows have one row key, and the save writes both
      edits to the second row. */
  lemma EditLandsInOtherRow(stamp: string) returns (row: string, body: seq<BulkRowEdit>, us: seq<Update>)
    ensures row == RowKeyOf(["a::b", "c"]) == RowKeyOf(["a", "b::c"])
    ensures var calls := TwoCalls(row, FIRST_ROW, X_TYPED, SECOND_ROW, Y_TYPED);
            && !(exists ids: Identities :: Identified(calls, ids))
            && IsBody(StagedAll(calls), Preimage, [row], body) && PreparedFrom(body, PAIR_CONTEXT, us)
            && forall i :: 0 <= i < |us| ==> |us[i].key| == 2
    ensures var r := RunUpdates(PairTable(1, 5, ""), ["p", "q"], us, stamp);
            r.Ok? && r.value.0 == PairTable(2, 6, stamp)
  {
    hide StagedAll, RunUpdates, IsRowEdit, GuardFrom, ValidateBulkRow, RowKeyOf;
    row := RowKeyOf(["a", "b::c"]);
    SameRowKey();
    var entry := RowEditEntry(SECOND_ROW.primaryKey, None, map["x" := Number(1), "y" := Number(5)],
                              map["x" := Number(2), "y" := Number(6)]);
    var entries := [CellEdit("x", Number(1)), CellEdit("y", Number(5))];
    body := [TwoEdit(entry, X_TYPED, Y_TYPED)];
    us := [Update([Text("a"), Text("b::c")], body[0].edits, GuardOf(entries))];
    NotIdentified(row);
    PairAccepted(row, entry, entries, body, us);
    PairRun(us[0], stamp);
  }

  lemma SameRowKey()
    ensures RowKeyOf(["a::b", "c"]) == RowKeyOf(["a", "b::c"])
  {
    JoinTwo("a::b", "c", []);
    JoinTwo("a", "b::c", []);
    assert ["a::b", "c"] + [] == ["a::b", "c"] && ["a", "b::c"] + [] == ["a", "b::c"];
  }

  lemma NotIdentified(row: string)
    ensures forall ids: Identities :: !Identified(TwoCalls(row, FIRST_ROW, X_TYPED, SECOND_ROW, Y_TYPED), ids)
  {
    var calls := TwoCalls(row, FIRST_ROW, X_TYPED, SECOND_ROW, Y_TYPED);
    assert FIRST_ROW.primaryKey["q"] == Text("c") && SECOND_ROW.primaryKey["q"] == Text("b::c");
    assert |"c"| != |"b::c"|;
    forall ids: Identities ensures !Identified(calls, ids) {
      assert calls[0].identity != calls[1].identity;
    }
  }

  lemma PairAccepted(row: string, entry: RowEditEntry, entries: seq<CellEdit>, body: seq<BulkRowEdit>, us: seq<Update>)
    requires entry == RowEditEntry(SECOND_ROW.primaryKey, None, map["x" := Number(1), "y" := Number(5)],
                                   map["x" := Number(2), "y" := Number(6)])
    requires entries == [CellEdit("x", Number(1)), CellEdit("y", Number(5))]
             && body == [TwoEdit(entry, X_TYPED, Y_TYPED)]
    requires us == [Update([Text("a"), Text("b::c")], body[0].edits, GuardOf(entries))]
    ensures IsBody(StagedAll(TwoCalls(row, FIRST_ROW, X_TYPED, SECOND_ROW, Y_TYPED)), Preimage, [row], body)
    ensures PreparedFrom(body, PAIR_CONTEXT, us)
  {
    hide StagedAll, IsRowEdit, GuardFrom, ValidateBulkRow, INHERITED, KeyMatches, KeyValues, IsBody, PreparedFrom;
    assert "x"[0] != "y"[0];
    assert "x" !in INHERITED && "y" !in INHERITED by { ShortNames(); }
    TwoStaged(row, FIRST_ROW, X_TYPED, SECOND_ROW, Y_TYPED);
    PairKey();
    PairListed(entries, entry.original);
    TwoAccepted(entry, X_TYPED, Y_TYPED, entries, PAIR_CONTEXT);
    OneBody(row, entry, body[0], PAIR_CONTEXT, us[0]);
  }

  lemma PairKey()
    ensures KeyMatches(SECOND_ROW.primaryKey, PAIR_CONTEXT.primaryKey)
    ensures KeyValues(SECOND_ROW.primaryKey, PAIR_CONTEXT.primaryKey) == [Text("a"), Text("b::c")]
  {
    assert "p"[0] != "q"[0];
    assert SECOND_ROW.primaryKey.Keys == {"p", "q"} && |SECOND_ROW.primaryKey.Keys| == 2;
  }

  lemma PairListed(entries: seq<CellEdit>, m: Record)
    requires entries == [CellEdit("x", Number(1)), CellEdit("y", Number(5))]
             && m == map["x" := Number(1), "y" := Number(5)]
    ensures Lists(entries, m)
    ensures "x" in PAIR_CONTEXT.columns && "y" in PAIR_CONTEXT.columns
  {
    assert "x"[0] != "y"[0];
    assert entries[0].column == "x" && entries[1].column == "y";
    assert "x" == PAIR_CONTEXT.columns[2] && "y" == PAIR_CONTEXT.columns[3];
  }

  lemma PairRun(u: Update, stamp: string)
    requires u.key == [Text("a"), Text("b::c")]
             && u.guard == GuardOf([CellEdit("x", Number(1)), CellEdit("y", Number(5))])
    requires u.edits == [CellEdit("x", Number(2)), CellEdit("y", Number(6))]
    ensures var r := RunUpdates(PairTable(1, 5, ""), ["p", "q"], [u], stamp);
            r.Ok? && r.value.0 == PairTable(2, 6, stamp)
  {
    hide RunUpdates, Overlay;
    assert "x"[0] != "y"[0] && "p"[0] != "q"[0] && "x"[0] != "p"[0] && "x"[0] != "q"[0] && "y"[0] != "p"[0]
           && "y"[0] != "q"[0];
    assert u.key[0] == Text("a") != Text("a::b") by { assert |"a"| != |"a::b"|; }
    var cells := PairTable(1, 5, "")[u.key].cells;
    OneUpdate(PairTable(1, 5, ""), ["p", "q"], u, stamp);
    TwoOverlaid(cells, X_TYPED, Y_TYPED);
    assert cells["x" := Number(2)]["y" := Number(6)] == PairCells("a", "b::c", 2, 6);
    assert PairTable(1, 5, "")[u.key := Row(PairCells("a", "b::c", 2, 6), stamp)] == PairTable(2, 6, stamp);
  }
}
