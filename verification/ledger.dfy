/** The planner's row state: five sections of rows, each row carrying its
    recurring item (`meta`) and the cells projected from it (`values`), the
    updates the interface applies to it, and the full recompute that runs
    whenever the cadence or the year changes. */
module Ledger {
  import opened Wrappers
  import opened CalendarDates
  import opened Columns
  import opened Projection

  /** A row of a section: `{ id, label, values, meta }`. */
  datatype Row = Row(id: string, caption: string, values: seq<Cell>, meta: Meta)

  /** The `rows` state: rows by section key. */
  type Sheet = map<string, seq<Row>>

  /** The keys of `SECTIONS`, in order: income, credit card, expenses,
      debit account, cash. */
  const Sections: seq<string> := ["ingresos", "tarjeta", "gastos", "cuenta", "cash"]

  /** What a row's cells are computed from: its recurring item, through
      `projectRowToColumns` for fixed columns, cadence and year. The
      recompute below is stated for any such function. */
  type Projector = Meta -> Result<seq<Cell>>

  /** `meta => projectRowToColumns(meta, columns, cadence)` for the year. */
  function ProjectorFor(columns: seq<Column>, c: Cadence, year: int): Projector {
    meta => Project(columns, c, meta, year)
  }

  /** `prev[key] || []`. */
  function SectionRows(rows: Sheet, key: string): seq<Row> {
    if key in rows then rows[key] else []
  }

  // ---------------------------------------------------------------------
  // Full recompute
  // ---------------------------------------------------------------------

  /** `list.map(row => ({ ...row, values: projectRowToColumns(...) }))`;
      the first row whose projection throws ends it. */
  function Reproject(list: seq<Row>, proj: Projector): Result<seq<Row>> {
    if list == [] then Ok([])
    else
      var n := |list| - 1;
      match Reproject(list[..n], proj)
      case Err(e) => Err(e)
      case Ok(done) =>
        match proj(list[n].meta)
        case Err(e) => Err(e)
        case Ok(v) => Ok(done + [list[n].(values := v)])
  }

  /** The `for (const s of SECTIONS)` loop over the given section keys. */
  function RecomputeSections(prev: Sheet, keys: seq<string>, proj: Projector): Result<Sheet> {
    if keys == [] then Ok(map[])
    else
      var n := |keys| - 1;
      match RecomputeSections(prev, keys[..n], proj)
      case Err(e) => Err(e)
      case Ok(out) =>
        match Reproject(SectionRows(prev, keys[n]), proj)
        case Err(e) => Err(e)
        case Ok(list) => Ok(out[keys[n] := list])
  }

  /** `recomputeAll(prev, columns, cadence)` for the current year. */
  function Recomputed(prev: Sheet, proj: Projector): Result<Sheet> {
    RecomputeSections(prev, Sections, proj)
  }

  /** `recomputeAll`: section by section, row by row, re-project every row
      from its `meta`. */
  method RecomputeAll(prev: Sheet, columns: seq<Column>, cadenceKey: string, year: int) returns (res: Result<Sheet>)
    ensures res == Recomputed(prev, ProjectorFor(columns, CadenceOf(cadenceKey), year))
  {
    res := RecomputeKeys(prev, Sections, columns, cadenceKey, year);
  }

  /** The `for (const s of SECTIONS)` loop, over the given section keys. */
  method RecomputeKeys(prev: Sheet, keys: seq<string>, columns: seq<Column>, cadenceKey: string, year: int) returns (res: Result<Sheet>)
    ensures res == RecomputeSections(prev, keys, ProjectorFor(columns, CadenceOf(cadenceKey), year))
  {
    ghost var proj := ProjectorFor(columns, CadenceOf(cadenceKey), year);
    var out: Sheet := map[];
    var k := 0;
    while k < |keys|
      invariant 0 <= k <= |keys|
      invariant RecomputeSections(prev, keys[..k], proj) == Ok(out)
    {
      assert keys[..k + 1][..k] == keys[..k];
      var list := ReprojectList(SectionRows(prev, keys[k]), columns, cadenceKey, year);
      if list.Err? {
        SectionErrorSticks(prev, keys, k + 1, proj);
        return Err(list.error);
      }
      out := out[keys[k] := list.value];
      k := k + 1;
    }
    assert keys[..k] == keys;
    return Ok(out);
  }

  /** The `.map` over one section's rows. */
  method ReprojectList(list: seq<Row>, columns: seq<Column>, cadenceKey: string, year: int) returns (res: Result<seq<Row>>)
    ensures res == Reproject(list, ProjectorFor(columns, CadenceOf(cadenceKey), year))
  {
    ghost var proj := ProjectorFor(columns, CadenceOf(cadenceKey), year);
    var out: seq<Row> := [];
    var i := 0;
    while i < |list|
      invariant 0 <= i <= |list|
      invariant Reproject(list[..i], proj) == Ok(out)
    {
      assert list[..i + 1][..i] == list[..i];
      var p := ProjectRowToColumns(columns, cadenceKey, list[i].meta, year);
      if p.Err? {
        RowErrorSticks(list, i + 1, proj);
        return Err(p.error);
      }
      out := out + [list[i].(values := p.value)];
      i := i + 1;
    }
    assert list[..i] == list;
    return Ok(out);
  }

  /** Once a row has thrown, the later rows do not matter. */
  lemma {:induction false} RowErrorSticks(list: seq<Row>, k: nat, proj: Projector)
    requires k <= |list| && Reproject(list[..k], proj).Err?
    ensures Reproject(list, proj) == Reproject(list[..k], proj)
    decreases |list|
  {
    if k < |list| {
      var n := |list| - 1;
      var prefix := list[..n];
      assert prefix[..k] == list[..k];
      RowErrorSticks(prefix, k, proj);
      var e := Reproject(prefix, proj).error;
      assert Reproject(list, proj) == Err(e);
    } else {
      assert list[..k] == list;
    }
  }

  /** Once a section has thrown, the later sections do not matter. */
  lemma {:induction false} SectionErrorSticks(prev: Sheet, keys: seq<string>, k: nat, proj: Projector)
    requires k <= |keys| && RecomputeSections(prev, keys[..k], proj).Err?
    ensures RecomputeSections(prev, keys, proj) == RecomputeSections(prev, keys[..k], proj)
    decreases |keys|
  {
    if k < |keys| {
      var n := |keys| - 1;
      assert keys[..n][..k] == keys[..k];
      SectionErrorSticks(prev, keys[..n], k, proj);
    } else {
      assert keys[..k] == keys;
    }
  }

  /** Re-projecting succeeds exactly when every row's projection does. */
  lemma ReprojectSucceeds(list: seq<Row>, proj: Projector)
    ensures Reproject(list, proj).Ok? <==> forall i :: 0 <= i < |list| ==> proj(list[i].meta).Ok?
  {
    if forall i :: 0 <= i < |list| ==> proj(list[i].meta).Ok? {
      ReprojectAllOk(list, proj);
    } else {
      var j :| 0 <= j < |list| && proj(list[j].meta).Err?;
      ReprojectOneErr(list, proj, j);
    }
  }

  /** Every row projecting, the re-projection succeeds. */
  lemma {:induction false} ReprojectAllOk(list: seq<Row>, proj: Projector)
    requires forall i :: 0 <= i < |list| ==> proj(list[i].meta).Ok?
    ensures Reproject(list, proj).Ok?
  {
    if list != [] {
      var n := |list| - 1;
      var prefix := list[..n];
      assert forall i :: 0 <= i < n ==> prefix[i] == list[i];
      ReprojectAllOk(prefix, proj);
      assert proj(list[n].meta).Ok?;
    }
  }

  /** One row failing to project, the re-projection fails. */
  lemma {:induction false} ReprojectOneErr(list: seq<Row>, proj: Projector, j: nat)
    requires j < |list| && proj(list[j].meta).Err?
    ensures Reproject(list, proj).Err?
  {
    var n := |list| - 1;
    if j < n {
      var prefix := list[..n];
      assert prefix[j] == list[j];
      ReprojectOneErr(prefix, proj, j);
      assert Reproject(prefix, proj).Err?;
    } else {
      assert list[n].meta == list[j].meta;
      assert proj(list[n].meta).Err?;
    }
  }

  /** Re-projecting keeps the list's length and order and every field but
      `values`, which becomes the row's projection. */
  lemma ReprojectRows(list: seq<Row>, proj: Projector)
    requires Reproject(list, proj).Ok?
    ensures |Reproject(list, proj).value| == |list|
    ensures forall i :: 0 <= i < |list| ==>
      Reproject(list, proj).value[i].(values := list[i].values) == list[i]
    ensures forall i :: 0 <= i < |list| ==>
      proj(list[i].meta) == Ok(Reproject(list, proj).value[i].values)
  {
    ReprojectKeepsRows(list, proj);
    ReprojectCells(list, proj);
  }

  /** Re-projecting keeps the list's length and every field but `values`. */
  lemma {:induction false} ReprojectKeepsRows(list: seq<Row>, proj: Projector)
    requires Reproject(list, proj).Ok?
    ensures |Reproject(list, proj).value| == |list|
    ensures forall i :: 0 <= i < |list| ==>
      Reproject(list, proj).value[i].(values := list[i].values) == list[i]
  {
    if list != [] {
      var n := |list| - 1;
      var prefix := list[..n];
      ReprojectKeepsRows(prefix, proj);
      var done := Reproject(prefix, proj).value;
      var out := done + [list[n].(values := proj(list[n].meta).value)];
      assert Reproject(list, proj) == Ok(out);
      forall i | 0 <= i < n ensures out[i].(values := list[i].values) == list[i] {
        assert out[i] == done[i] && prefix[i] == list[i];
        assert done[i].(values := prefix[i].values) == prefix[i];
      }
    }
  }

  /** Re-projecting sets each row's `values` to its projection. */
  lemma {:induction false} ReprojectCells(list: seq<Row>, proj: Projector)
    requires Reproject(list, proj).Ok?
    ensures |Reproject(list, proj).value| == |list|
    ensures forall i :: 0 <= i < |list| ==>
      proj(list[i].meta) == Ok(Reproject(list, proj).value[i].values)
  {
    if list != [] {
      var n := |list| - 1;
      var prefix := list[..n];
      ReprojectCells(prefix, proj);
      var done := Reproject(prefix, proj).value;
      var out := done + [list[n].(values := proj(list[n].meta).value)];
      assert Reproject(list, proj) == Ok(out);
      forall i | 0 <= i < n ensures proj(list[i].meta) == Ok(out[i].values) {
        assert out[i] == done[i] && prefix[i] == list[i];
      }
    }
  }

  /** A list is its own re-projection exactly when every row's cells are
      its projection. */
  lemma ReprojectFixpoint(list: seq<Row>, proj: Projector)
    ensures Reproject(list, proj) == Ok(list) <==>
      forall i :: 0 <= i < |list| ==> proj(list[i].meta) == Ok(list[i].values)
  {
    ReprojectSucceeds(list, proj);
    if Reproject(list, proj).Ok? {
      ReprojectRows(list, proj);
    }
    if forall i :: 0 <= i < |list| ==> proj(list[i].meta) == Ok(list[i].values) {
      assert Reproject(list, proj).value == list;
    }
  }

  /** The recompute's result holds exactly the five section keys, and under
      each the re-projection of that section's rows (`[]` when the input
      lacked the key). */
  lemma {:induction false} RecomputeSectionsShape(prev: Sheet, keys: seq<string>, proj: Projector)
    requires RecomputeSections(prev, keys, proj).Ok?
    ensures forall key :: key in RecomputeSections(prev, keys, proj).value <==> key in keys
    ensures forall key :: key in keys ==>
      Reproject(SectionRows(prev, key), proj) == Ok(RecomputeSections(prev, keys, proj).value[key])
  {
    if keys != [] {
      var n := |keys| - 1;
      assert keys == keys[..n] + [keys[n]];
      RecomputeSectionsShape(prev, keys[..n], proj);
    }
  }

  /** The recompute only looks at the sections it recomputes, and there
      only at what re-projection keeps. */
  lemma {:induction false} RecomputeSectionsDependsOn(p: Sheet, q: Sheet, keys: seq<string>, proj: Projector)
    requires forall key :: key in keys ==>
      Reproject(SectionRows(p, key), proj) == Reproject(SectionRows(q, key), proj)
    ensures RecomputeSections(p, keys, proj) == RecomputeSections(q, keys, proj)
  {
    if keys != [] {
      var n := |keys| - 1;
      RecomputeSectionsDependsOn(p, q, keys[..n], proj);
    }
  }

  /** The rows are in step with their recurring items: exactly the five
      sections, every cell the projection of its row's `meta`. */
  ghost predicate InSync(rows: Sheet, proj: Projector) {
    (forall key :: key in rows <==> key in Sections) &&
    forall key :: key in Sections ==> Reproject(rows[key], proj) == Ok(rows[key])
  }

  /** Being in step is being a fixpoint of the recompute. */
  lemma InSyncIsFixpoint(rows: Sheet, proj: Projector)
    ensures InSync(rows, proj) <==> Recomputed(rows, proj) == Ok(rows)
  {
    if Recomputed(rows, proj) == Ok(rows) {
      FixpointIsInSync(rows, proj);
    }
    if InSync(rows, proj) {
      InSyncIsKept(rows, proj);
    }
  }

  /** A fixpoint of the recompute is in step. */
  lemma FixpointIsInSync(rows: Sheet, proj: Projector)
    requires Recomputed(rows, proj) == Ok(rows)
    ensures InSync(rows, proj)
  {
    RecomputeSectionsShape(rows, Sections, proj);
  }

  /** Recomputing rows in step gives them back. */
  lemma InSyncIsKept(rows: Sheet, proj: Projector)
    requires InSync(rows, proj)
    ensures Recomputed(rows, proj) == Ok(rows)
  {
    var r := Recomputed(rows, proj);
    assert r.Ok? by {
      if r.Err? {
        RecomputeSectionsFails(rows, Sections, proj);
      }
    }
    RecomputeSectionsShape(rows, Sections, proj);
    assert r.value == rows;
  }

  /** The recompute throws only when some section's re-projection does. */
  lemma {:induction false} RecomputeSectionsFails(prev: Sheet, keys: seq<string>, proj: Projector)
    requires RecomputeSections(prev, keys, proj).Err?
    ensures exists key :: key in keys && Reproject(SectionRows(prev, key), proj).Err?
  {
    var n := |keys| - 1;
    if RecomputeSections(prev, keys[..n], proj).Err? {
      RecomputeSectionsFails(prev, keys[..n], proj);
      var key :| key in keys[..n] && Reproject(SectionRows(prev, key), proj).Err?;
      assert key in keys;
    } else {
      assert keys[n] in keys;
    }
  }

  /** A successful recompute is in step, so recomputing again changes
      nothing. */
  lemma RecomputeIdempotent(prev: Sheet, proj: Projector)
    requires Recomputed(prev, proj).Ok?
    ensures InSync(Recomputed(prev, proj).value, proj)
    ensures Recomputed(Recomputed(prev, proj).value, proj) == Recomputed(prev, proj)
  {
    var out := Recomputed(prev, proj).value;
    RecomputeSectionsShape(prev, Sections, proj);
    forall key | key in Sections ensures Reproject(out[key], proj) == Ok(out[key]) {
      ReprojectIdempotent(SectionRows(prev, key), proj);
    }
    InSyncIsFixpoint(out, proj);
  }

  /** A re-projected list is its own re-projection. */
  lemma ReprojectIdempotent(list: seq<Row>, proj: Projector)
    requires Reproject(list, proj).Ok?
    ensures Reproject(Reproject(list, proj).value, proj) == Reproject(list, proj)
  {
    var out := Reproject(list, proj).value;
    ReprojectRows(list, proj);
    ReprojectFixpoint(out, proj);
  }

  // ---------------------------------------------------------------------
  // Row updates
  // ---------------------------------------------------------------------

  /** What `{ ...(row.meta || {}), ...nextMeta }` takes from `nextMeta`:
      `None` for a field the patch does not carry. */
  datatype MetaPatch = MetaPatch(
    name: Option<string>, amount: Option<Option<real>>, startDate: Option<Option<ValidDate>>, recurrence: Option<string>)

  /** Object spread: every field the patch carries replaces the row's. */
  function Merge(meta: Meta, patch: MetaPatch): (m: Meta)
    ensures m.name == if patch.name.Some? then patch.name.value else meta.name
    ensures m.amount == if patch.amount.Some? then patch.amount.value else meta.amount
    ensures m.startDate == if patch.startDate.Some? then patch.startDate.value else meta.startDate
    ensures m.recurrence == if patch.recurrence.Some? then patch.recurrence.value else meta.recurrence
  {
    Meta(patch.name.GetOr(meta.name), patch.amount.GetOr(meta.amount),
         patch.startDate.GetOr(meta.startDate), patch.recurrence.GetOr(meta.recurrence))
  }

  /** `addRow(sectionKey, payload)` with the fresh id `id`: the payload is
      projected first (a throw leaves the state alone) and the new row, its
      label the payload's name and its cells the projection, is appended to
      the section, created if missing. */
  function AddRow(rows: Sheet, sectionKey: string, payload: Meta, id: string, columns: seq<Column>, c: Cadence, year: int): (res: Result<Sheet>)
    ensures res.Err? <==> Project(columns, c, payload, year).Err?
    ensures res.Ok? ==> res.value.Keys == rows.Keys + {sectionKey}
    ensures res.Ok? ==> forall key :: key in rows && key != sectionKey ==> res.value[key] == rows[key]
    ensures res.Ok? ==>
      res.value[sectionKey] == SectionRows(rows, sectionKey) + [Row(id, payload.name, Project(columns, c, payload, year).value, payload)]
  {
    match Project(columns, c, payload, year)
    case Err(e) => Err(e)
    case Ok(v) => Ok(rows[sectionKey := SectionRows(rows, sectionKey) + [Row(id, payload.name, v, payload)]])
  }

  /** `values.map((v, i) => i === col ? value : v)`. */
  function SetCell(values: seq<Cell>, col: int, v: Cell): seq<Cell> {
    if 0 <= col < |values| then values[col := v] else values
  }

  /** `updateCell(sectionKey, rowId, col, value)`: in every row with the id,
      cell `col` becomes `value` (`null` for an empty entry or one that is
      not a number). Mapping over a missing section throws. Nothing else
      changes: not the other cells, not the rows' ids, labels or items, not
      the number of cells, not the other sections. */
  function UpdateCell(rows: Sheet, sectionKey: string, rowId: string, col: int, v: Cell): (res: Result<Sheet>)
    ensures res.Err? <==> sectionKey !in rows
    ensures res.Ok? ==>
      res.value.Keys == rows.Keys &&
      (forall key :: key in rows && key != sectionKey ==> res.value[key] == rows[key]) &&
      |res.value[sectionKey]| == |rows[sectionKey]|
    ensures res.Ok? ==> forall i :: 0 <= i < |rows[sectionKey]| ==>
      res.value[sectionKey][i].(values := rows[sectionKey][i].values) == rows[sectionKey][i] &&
      |res.value[sectionKey][i].values| == |rows[sectionKey][i].values|
    ensures res.Ok? ==> forall i, k :: 0 <= i < |rows[sectionKey]| && 0 <= k < |rows[sectionKey][i].values| ==>
      res.value[sectionKey][i].values[k] ==
        if rows[sectionKey][i].id == rowId && k == col then v else rows[sectionKey][i].values[k]
  {
    if sectionKey !in rows then Err(NoSection(sectionKey))
    else
      var list := rows[sectionKey];
      Ok(rows[sectionKey := seq(|list|, i requires 0 <= i < |list| =>
        if list[i].id == rowId then list[i].(values := SetCell(list[i].values, col, v)) else list[i])])
  }

  /** `updateLabel(sectionKey, rowId, label)`: throws exactly on a missing
      section; otherwise every row with the id takes the new label, and
      nothing else changes. */
  function UpdateLabel(rows: Sheet, sectionKey: string, rowId: string, caption: string): (res: Result<Sheet>)
    ensures res.Err? <==> sectionKey !in rows
    ensures res.Ok? ==>
      res.value.Keys == rows.Keys &&
      (forall key :: key in rows && key != sectionKey ==> res.value[key] == rows[key]) &&
      |res.value[sectionKey]| == |rows[sectionKey]| &&
      forall i :: 0 <= i < |rows[sectionKey]| ==>
        res.value[sectionKey][i].caption == (if rows[sectionKey][i].id == rowId then caption else rows[sectionKey][i].caption) &&
        res.value[sectionKey][i].(caption := rows[sectionKey][i].caption) == rows[sectionKey][i]
  {
    if sectionKey !in rows then Err(NoSection(sectionKey))
    else
      var list := rows[sectionKey];
      Ok(rows[sectionKey := seq(|list|, i requires 0 <= i < |list| =>
        if list[i].id == rowId then list[i].(caption := caption) else list[i])])
  }

  /** `list.findIndex(r => r.id === rowId)`. */
  function FindIndex(list: seq<Row>, rowId: string): (r: Option<nat>)
    ensures r.Some? ==> r.value < |list| && list[r.value].id == rowId
    ensures r.Some? ==> forall j :: 0 <= j < r.value ==> list[j].id != rowId
    ensures r.None? ==> forall j :: 0 <= j < |list| ==> list[j].id != rowId
  {
    if list == [] then None
    else if list[0].id == rowId then Some(0)
    else
      match FindIndex(list[1..], rowId)
      case None => None
      case Some(i) => Some(i + 1)
  }

  /** `updateMeta(sectionKey, rowId, nextMeta)`: the first row with the id
      gets the merged meta and its re-projection; no such row leaves the
      state as it was. It throws only when there is such a row, and never
      changes the sections, their lengths, or any row's id or label. */
  function UpdateMeta(rows: Sheet, sectionKey: string, rowId: string, patch: MetaPatch, columns: seq<Column>, c: Cadence, year: int): (res: Result<Sheet>)
    ensures res.Err? ==> FindIndex(SectionRows(rows, sectionKey), rowId).Some?
    ensures res.Ok? ==>
      res.value.Keys == rows.Keys &&
      (forall key :: key in rows && key != sectionKey ==> res.value[key] == rows[key]) &&
      |SectionRows(res.value, sectionKey)| == |SectionRows(rows, sectionKey)|
    ensures res.Ok? ==> forall i :: 0 <= i < |SectionRows(rows, sectionKey)| ==>
      SectionRows(res.value, sectionKey)[i].id == SectionRows(rows, sectionKey)[i].id &&
      SectionRows(res.value, sectionKey)[i].caption == SectionRows(rows, sectionKey)[i].caption
  {
    var list := SectionRows(rows, sectionKey);
    match FindIndex(list, rowId)
    case None => Ok(rows)
    case Some(idx) =>
      var meta := Merge(list[idx].meta, patch);
      match Project(columns, c, meta, year)
      case Err(e) => Err(e)
      case Ok(v) => Ok(rows[sectionKey := list[idx := list[idx].(meta := meta, values := v)]])
  }

  /** `list.filter(r => r.id !== rowId)`. */
  function WithoutId(list: seq<Row>, rowId: string): (r: seq<Row>)
    ensures |r| <= |list|
    ensures forall k :: 0 <= k < |r| ==> r[k].id != rowId && r[k] in list
    ensures forall k :: 0 <= k < |list| && list[k].id != rowId ==> list[k] in r
  {
    if list == [] then []
    else
      var n := |list| - 1;
      var rest := WithoutId(list[..n], rowId);
      assert forall k :: 0 <= k < n ==> list[..n][k] == list[k];
      if list[n].id == rowId then rest else rest + [list[n]]
  }

  /** `removeRow(sectionKey, rowId)`. Filtering a missing section throws;
      otherwise the section keeps, in order, exactly its rows without the
      id, and the other sections stay. */
  function RemoveRow(rows: Sheet, sectionKey: string, rowId: string): (res: Result<Sheet>)
    ensures res.Err? <==> sectionKey !in rows
    ensures res.Ok? ==>
      res.value.Keys == rows.Keys &&
      (forall key :: key in rows && key != sectionKey ==> res.value[key] == rows[key]) &&
      res.value[sectionKey] == WithoutId(rows[sectionKey], rowId)
  {
    if sectionKey !in rows then Err(NoSection(sectionKey))
    else Ok(rows[sectionKey := WithoutId(rows[sectionKey], rowId)])
  }

  /** Removing a row just appended under a fresh id gives back the state. */
  lemma RemoveUndoesAppend(rows: Sheet, sectionKey: string, row: Row)
    requires sectionKey in rows
    requires forall k :: 0 <= k < |rows[sectionKey]| ==> rows[sectionKey][k].id != row.id
    ensures RemoveRow(rows[sectionKey := rows[sectionKey] + [row]], sectionKey, row.id) == Ok(rows)
  {
    var list := rows[sectionKey];
    assert (list + [row])[..|list|] == list;
    NoMatchKeepsAll(list, row.id);
    assert rows[sectionKey := list + [row]][sectionKey := list] == rows;
  }

  /** So removing the row `addRow` just added under a fresh id gives back
      the state. */
  lemma RemoveUndoesAdd(rows: Sheet, sectionKey: string, payload: Meta, id: string, columns: seq<Column>, c: Cadence, year: int)
    requires sectionKey in rows
    requires forall k :: 0 <= k < |rows[sectionKey]| ==> rows[sectionKey][k].id != id
    requires AddRow(rows, sectionKey, payload, id, columns, c, year).Ok?
    ensures RemoveRow(AddRow(rows, sectionKey, payload, id, columns, c, year).value, sectionKey, id) == Ok(rows)
  {
    RemoveUndoesAppend(rows, sectionKey, Row(id, payload.name, Project(columns, c, payload, year).value, payload));
  }

  /** Filtering out an id no row has keeps the list. */
  lemma {:induction false} NoMatchKeepsAll(list: seq<Row>, rowId: string)
    requires forall k :: 0 <= k < |list| ==> list[k].id != rowId
    ensures WithoutId(list, rowId) == list
  {
    if list != [] {
      var n := |list| - 1;
      NoMatchKeepsAll(list[..n], rowId);
      assert list[..n] + [list[n]] == list;
    }
  }

  /** Adding a row to one of the sections keeps the rows in step. */
  lemma AddRowKeepsSync(rows: Sheet, sectionKey: string, payload: Meta, id: string, columns: seq<Column>, c: Cadence, year: int)
    requires InSync(rows, ProjectorFor(columns, c, year)) && sectionKey in Sections
    requires AddRow(rows, sectionKey, payload, id, columns, c, year).Ok?
    ensures InSync(AddRow(rows, sectionKey, payload, id, columns, c, year).value, ProjectorFor(columns, c, year))
  {
    var list := rows[sectionKey];
    var row := Row(id, payload.name, Project(columns, c, payload, year).value, payload);
    ReprojectFixpoint(list, ProjectorFor(columns, c, year));
    ReprojectFixpoint(list + [row], ProjectorFor(columns, c, year));
  }

  /** Changing a row's recurring item keeps the rows in step. */
  lemma UpdateMetaKeepsSync(rows: Sheet, sectionKey: string, rowId: string, patch: MetaPatch, columns: seq<Column>, c: Cadence, year: int)
    requires InSync(rows, ProjectorFor(columns, c, year))
    requires UpdateMeta(rows, sectionKey, rowId, patch, columns, c, year).Ok?
    ensures InSync(UpdateMeta(rows, sectionKey, rowId, patch, columns, c, year).value, ProjectorFor(columns, c, year))
  {
    var list := SectionRows(rows, sectionKey);
    var found := FindIndex(list, rowId);
    if found.Some? {
      var idx := found.value;
      var meta := Merge(list[idx].meta, patch);
      var next := list[idx := list[idx].(meta := meta, values := Project(columns, c, meta, year).value)];
      assert sectionKey in Sections;
      ReprojectFixpoint(list, ProjectorFor(columns, c, year));
      SetSectionKeepsSync(rows, sectionKey, next, ProjectorFor(columns, c, year));
    }
  }

  /** Rows in step stay in step when one section is replaced by a list
      whose every row's cells are its projection. */
  lemma SetSectionKeepsSync(rows: Sheet, key: string, list: seq<Row>, proj: Projector)
    requires InSync(rows, proj) && key in Sections
    requires forall i :: 0 <= i < |list| ==> proj(list[i].meta) == Ok(list[i].values)
    ensures InSync(rows[key := list], proj)
  {
    ReprojectFixpoint(list, proj);
  }

  /** Removing rows keeps the rows in step. */
  lemma RemoveRowKeepsSync(rows: Sheet, sectionKey: string, rowId: string, proj: Projector)
    requires InSync(rows, proj)
    requires RemoveRow(rows, sectionKey, rowId).Ok?
    ensures InSync(RemoveRow(rows, sectionKey, rowId).value, proj)
  {
    var list := rows[sectionKey];
    var rest := WithoutId(list, rowId);
    ReprojectFixpoint(list, proj);
    forall k | 0 <= k < |rest| ensures proj(rest[k].meta) == Ok(rest[k].values) {
      var j :| 0 <= j < |list| && list[j] == rest[k];
    }
    ReprojectFixpoint(rest, proj);
  }

  /** Renaming rows keeps the rows in step. */
  lemma UpdateLabelKeepsSync(rows: Sheet, sectionKey: string, rowId: string, caption: string, proj: Projector)
    requires InSync(rows, proj)
    requires UpdateLabel(rows, sectionKey, rowId, caption).Ok?
    ensures InSync(UpdateLabel(rows, sectionKey, rowId, caption).value, proj)
  {
    var list := rows[sectionKey];
    ReprojectFixpoint(list, proj);
    ReprojectFixpoint(UpdateLabel(rows, sectionKey, rowId, caption).value[sectionKey], proj);
  }

  /** A hand-edited cell does not survive the next recompute: recomputing
      after `updateCell` gives what recomputing before it gives. */
  lemma RecomputeDiscardsCellEdits(rows: Sheet, sectionKey: string, rowId: string, col: int, v: Cell, proj: Projector)
    requires UpdateCell(rows, sectionKey, rowId, col, v).Ok?
    ensures Recomputed(UpdateCell(rows, sectionKey, rowId, col, v).value, proj) == Recomputed(rows, proj)
  {
    var edited := UpdateCell(rows, sectionKey, rowId, col, v).value;
    forall key | key in Sections
      ensures Reproject(SectionRows(edited, key), proj) == Reproject(SectionRows(rows, key), proj)
    {
      if key == sectionKey {
        ReprojectIgnoresValues(SectionRows(edited, key), SectionRows(rows, key), proj);
      }
    }
    RecomputeSectionsDependsOn(edited, rows, Sections, proj);
  }

  /** Re-projection ignores the cells it overwrites. */
  lemma {:induction false} ReprojectIgnoresValues(a: seq<Row>, b: seq<Row>, proj: Projector)
    requires |a| == |b| && forall i :: 0 <= i < |a| ==> a[i].(values := []) == b[i].(values := [])
    ensures Reproject(a, proj) == Reproject(b, proj)
  {
    if a != [] {
      var n := |a| - 1;
      assert a[n].meta == a[n].(values := []).meta == b[n].(values := []).meta == b[n].meta;
      var p := proj(a[n].meta);
      if p.Ok? {
        assert a[n].(values := p.value) == b[n].(values := p.value);
      }
      ReprojectIgnoresValues(a[..n], b[..n], proj);
    }
  }

  // ---------------------------------------------------------------------
  // Aggregation
  // ---------------------------------------------------------------------

  /** `parseFloat(String(r.values[col] ?? 0)) || 0`: a number counts as
      itself, `null` or a missing cell as 0. */
  function CellAt(values: seq<Cell>, col: int): real {
    if 0 <= col < |values| then Value(values[col]) else 0.0
  }

  /** Column `col` of a list of rows, one number per row. */
  function ColumnCells(list: seq<Row>, col: int): seq<real> {
    seq(|list|, i requires 0 <= i < |list| => CellAt(list[i].values, col))
  }

  /** The `reduce` of `sumSection` over a list of rows: the sum of the
      column's cells. */
  function ColumnSum(list: seq<Row>, col: int): (r: real)
    ensures r == Sum(ColumnCells(list, col))
  {
    if list == [] then 0.0
    else
      var n := |list| - 1;
      assert ColumnCells(list, col)[..n] == ColumnCells(list[..n], col);
      ColumnSum(list[..n], col) + CellAt(list[n].values, col)
  }

  /** `sumSection(sectionKey, col)`: a missing section sums to 0. */
  function SumSection(rows: Sheet, key: string, col: int): (r: real)
    ensures key !in rows ==> r == 0.0
    ensures key in rows ==> r == ColumnSum(rows[key], col)
  {
    ColumnSum(SectionRows(rows, key), col)
  }

  /** One cell of `balanceRow`: income − card − expenses + debit + cash,
      that is every section's sum with its sign. */
  function Balance(rows: Sheet, col: int): (r: real)
    ensures r == SignedTotal(rows, Sections, col)
  {
    var income, card, expenses, debit, cash :=
      SumSection(rows, "ingresos", col), SumSection(rows, "tarjeta", col), SumSection(rows, "gastos", col),
      SumSection(rows, "cuenta", col), SumSection(rows, "cash", col);
    assert SignedTotal(rows, Sections, col) == income - card - expenses + debit + cash by {
      SectionsSignedTotal(rows, col);
    }
    SumSection(rows, "ingresos", col) - SumSection(rows, "tarjeta", col) - SumSection(rows, "gastos", col)
      + SumSection(rows, "cuenta", col) + SumSection(rows, "cash", col)
  }

  /** The sections' sums, each with its sign, added up. */
  function SignedTotal(rows: Sheet, keys: seq<string>, col: int): real {
    if keys == [] then 0.0
    else SignedTotal(rows, keys[..|keys| - 1], col) + Sign(keys[|keys| - 1]) * SumSection(rows, keys[|keys| - 1], col)
  }

  /** The signed total over the five sections, written out. */
  lemma SectionsSignedTotal(rows: Sheet, col: int)
    ensures SignedTotal(rows, Sections, col) ==
      SumSection(rows, "ingresos", col) - SumSection(rows, "tarjeta", col) - SumSection(rows, "gastos", col)
      + SumSection(rows, "cuenta", col) + SumSection(rows, "cash", col)
  {
    var s4, s3, s2, s1: seq<string> := Sections[..4], Sections[..3], Sections[..2], Sections[..1];
    assert Sections[..|Sections| - 1] == s4 && s4[..3] == s3 && s3[..2] == s2 && s2[..1] == s1 && s1[..0] == [];
    assert s1[0] == "ingresos" && s2[1] == "tarjeta" && s3[2] == "gastos" && s4[3] == "cuenta" && Sections[4] == "cash";
    assert Sign("ingresos") == 1.0 && Sign("tarjeta") == -1.0 && Sign("gastos") == -1.0;
    assert Sign("cuenta") == 1.0 && Sign("cash") == 1.0;
    assert SignedTotal(rows, s1, col) == SumSection(rows, "ingresos", col);
    assert SignedTotal(rows, s2, col) == SignedTotal(rows, s1, col) - SumSection(rows, "tarjeta", col);
    assert SignedTotal(rows, s3, col) == SignedTotal(rows, s2, col) - SumSection(rows, "gastos", col);
    assert SignedTotal(rows, s4, col) == SignedTotal(rows, s3, col) + SumSection(rows, "cuenta", col);
  }

  /** `balanceRow`: one balance per column. */
  function BalanceRow(rows: Sheet, columns: seq<Column>): (r: seq<real>)
    ensures |r| == |columns|
    ensures forall i :: 0 <= i < |r| ==> r[i] == Balance(rows, i)
  {
    seq(|columns|, i => Balance(rows, i))
  }

  /** How a section enters the balance: +1, −1, or not at all. */
  function Sign(key: string): real {
    if key == "ingresos" || key == "cuenta" || key == "cash" then 1.0
    else if key == "tarjeta" || key == "gastos" then -1.0
    else 0.0
  }

  /** Column sums split over concatenation. */
  lemma {:induction false} ColumnSumAppend(a: seq<Row>, b: seq<Row>, col: int)
    ensures ColumnSum(a + b, col) == ColumnSum(a, col) + ColumnSum(b, col)
    decreases |b|
  {
    if b != [] {
      var n := |b| - 1;
      assert (a + b)[..|a + b| - 1] == a + b[..n];
      assert (a + b)[|a + b| - 1] == b[n];
      ColumnSumAppend(a, b[..n], col);
    } else {
      assert a + b == a;
    }
  }

  /** Appending a row to a section moves that section's sum by the row's
      cell and leaves the other sections' sums alone. */
  lemma AppendMovesSum(rows: Sheet, key: string, row: Row, other: string, col: int)
    ensures SumSection(rows[key := SectionRows(rows, key) + [row]], other, col) ==
      SumSection(rows, other, col) + (if other == key then CellAt(row.values, col) else 0.0)
  {
    var list := SectionRows(rows, key);
    assert (list + [row])[..|list|] == list;
  }

  /** Appending a row moves every column's balance by the row's cell, in
      the direction of its section. */
  lemma AppendMovesBalance(rows: Sheet, key: string, row: Row, col: int)
    ensures Balance(rows[key := SectionRows(rows, key) + [row]], col) == Balance(rows, col) + Sign(key) * CellAt(row.values, col)
  {
    var after := rows[key := SectionRows(rows, key) + [row]];
    var d := CellAt(row.values, col);
    AppendMovesSum(rows, key, row, "ingresos", col);
    AppendMovesSum(rows, key, row, "tarjeta", col);
    AppendMovesSum(rows, key, row, "gastos", col);
    AppendMovesSum(rows, key, row, "cuenta", col);
    AppendMovesSum(rows, key, row, "cash", col);
    var moved := Balance(after, col) - Balance(rows, col);
    if key == "ingresos" || key == "cuenta" || key == "cash" {
      assert moved == d;
    } else if key == "tarjeta" || key == "gastos" {
      assert moved == -d;
    } else {
      assert moved == 0.0;
    }
  }

  /** So `addRow` moves the balance by the new row's projected cell. */
  lemma AddRowMovesBalance(rows: Sheet, sectionKey: string, payload: Meta, id: string, columns: seq<Column>, c: Cadence, year: int, col: int)
    requires AddRow(rows, sectionKey, payload, id, columns, c, year).Ok?
    ensures Balance(AddRow(rows, sectionKey, payload, id, columns, c, year).value, col) ==
      Balance(rows, col) + Sign(sectionKey) * CellAt(Project(columns, c, payload, year).value, col)
  {
    AppendMovesBalance(rows, sectionKey, Row(id, payload.name, Project(columns, c, payload, year).value, payload), col);
  }

  /** Lists whose rows agree on a column have the same sum there. */
  lemma {:induction false} ColumnSumSameCells(a: seq<Row>, b: seq<Row>, col: int)
    requires |a| == |b| && forall i :: 0 <= i < |a| ==> CellAt(a[i].values, col) == CellAt(b[i].values, col)
    ensures ColumnSum(a, col) == ColumnSum(b, col)
  {
    if a != [] {
      var n := |a| - 1;
      ColumnSumSameCells(a[..n], b[..n], col);
    }
  }



  /** `updateMeta` with no row holding the id gives the state back. */
  lemma UpdateMetaNoMatch(rows: Sheet, sectionKey: string, rowId: string, patch: MetaPatch, columns: seq<Column>, c: Cadence, year: int)
    requires forall j :: 0 <= j < |SectionRows(rows, sectionKey)| ==> SectionRows(rows, sectionKey)[j].id != rowId
    ensures UpdateMeta(rows, sectionKey, rowId, patch, columns, c, year) == Ok(rows)
  {
  }

  /** `updateMeta` on the first row `idx` holding the id: it throws exactly
      when the merged item's projection does; otherwise only that row
      changes, keeping its id and label, taking the merged item and that
      item's projection as its cells. */
  lemma UpdateMetaFirstMatch(rows: Sheet, sectionKey: string, rowId: string, patch: MetaPatch, columns: seq<Column>, c: Cadence, year: int, idx: nat)
    requires idx < |SectionRows(rows, sectionKey)| && SectionRows(rows, sectionKey)[idx].id == rowId
    requires forall j :: 0 <= j < idx ==> SectionRows(rows, sectionKey)[j].id != rowId
    ensures UpdateMeta(rows, sectionKey, rowId, patch, columns, c, year).Err? <==>
      Project(columns, c, Merge(SectionRows(rows, sectionKey)[idx].meta, patch), year).Err?
    ensures UpdateMeta(rows, sectionKey, rowId, patch, columns, c, year).Ok? ==>
      var out := UpdateMeta(rows, sectionKey, rowId, patch, columns, c, year).value;
      var list := SectionRows(rows, sectionKey);
      out.Keys == rows.Keys &&
      (forall key :: key in rows && key != sectionKey ==> out[key] == rows[key]) &&
      |out[sectionKey]| == |list| &&
      (forall j :: 0 <= j < |list| && j != idx ==> out[sectionKey][j] == list[j]) &&
      out[sectionKey][idx].id == rowId && out[sectionKey][idx].caption == list[idx].caption &&
      out[sectionKey][idx].meta == Merge(list[idx].meta, patch) &&
      Project(columns, c, out[sectionKey][idx].meta, year) == Ok(out[sectionKey][idx].values)
  {
    var list := SectionRows(rows, sectionKey);
    var found := FindIndex(list, rowId);
    assert found == Some(idx);
  }

  /** So editing a cell leaves the balance of every other column as it
      was. */
  lemma UpdateCellKeepsOtherColumns(rows: Sheet, sectionKey: string, rowId: string, col: int, v: Cell, other: int)
    requires UpdateCell(rows, sectionKey, rowId, col, v).Ok? && other != col
    ensures Balance(UpdateCell(rows, sectionKey, rowId, col, v).value, other) == Balance(rows, other)
  {
    var out := UpdateCell(rows, sectionKey, rowId, col, v).value;
    ColumnSumSameCells(out[sectionKey], rows[sectionKey], other);
    assert forall key :: SumSection(out, key, other) == SumSection(rows, key, other);
  }

  /** `cumulativeRow`: `running += v` over the balances. */
  method CumulativeRow(balance: seq<real>) returns (out: seq<real>)
    ensures |out| == |balance|
    ensures forall i :: 0 <= i < |out| ==> out[i] == Sum(balance[..i + 1])
    ensures |out| > 0 ==> out[0] == balance[0]
    ensures forall i :: 0 < i < |out| ==> out[i] == out[i - 1] + balance[i]
  {
    var running := 0.0;
    out := [];
    var i := 0;
    while i < |balance|
      invariant 0 <= i <= |balance| && |out| == i
      invariant running == Sum(balance[..i])
      invariant forall k :: 0 <= k < i ==> out[k] == Sum(balance[..k + 1])
    {
      assert balance[..i + 1][..i] == balance[..i];
      running := running + balance[i];
      out := out + [running];
      i := i + 1;
    }
    forall i | 0 < i < |out| ensures out[i] == out[i - 1] + balance[i] {
      assert balance[..i + 1][..i] == balance[..i];
    }
  }

  /** The sum of a sequence of balances. */
  function Sum(xs: seq<real>): real {
    if xs == [] then 0.0 else Sum(xs[..|xs| - 1]) + xs[|xs| - 1]
  }
}
