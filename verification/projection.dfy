/** The row projector (`projectRowToColumns`): every occurrence of a row's
    recurring item adds the row's amount into the column whose start is the
    occurrence's bucket start. */
module Projection {
  import opened Wrappers
  import opened CalendarDates
  import opened Columns
  import opened Recurrences

  /** The part of a row's `meta` object the planner reads. `amount` is what
      `Number(meta.amount || 0)` gives, `None` standing for `NaN`;
      `startDate` is `None` when the field is missing or empty, and also when
      it does not parse (an Invalid Date, which never compares true and so
      yields nothing); `recurrence` is the key as stored, "" when absent. */
  datatype Meta = Meta(name: string, amount: Option<real>, startDate: Option<ValidDate>, recurrence: string)

  /** A projected cell: `null` or a number. */
  type Cell = Option<real>

  /** `recurrence || 'none'`. */
  function RecurrenceKey(meta: Meta): (key: string)
    ensures key != ""
    ensures meta.recurrence != "" ==> key == meta.recurrence
  {
    if meta.recurrence == "" then "none" else meta.recurrence
  }

  /** The guard `if (!amount || !startDate) return base` lets the row through. */
  predicate Projects(meta: Meta) {
    meta.amount.Some? && meta.amount.value != 0.0 && meta.startDate.Some?
  }

  /** `Array(n).fill(null)`. */
  function Nulls(n: nat): (r: seq<Cell>)
    ensures |r| == n && forall i :: 0 <= i < n ==> r[i].None?
  {
    seq(n, _ => None)
  }

  /** `base[idx] ?? 0`: the number a cell holds, 0 for `null`. */
  function Value(v: Cell): real {
    v.GetOr(0.0)
  }

  /** The column dates, `columns.map(c => c.full)`. */
  function Fulls(cols: seq<Column>): (r: seq<ValidDate>)
    ensures |r| == |cols| && forall i :: 0 <= i < |cols| ==> r[i] == cols[i].full
  {
    seq(|cols|, i requires 0 <= i < |cols| => cols[i].full)
  }

  /** The bucket start of each occurrence, `bucketStartFor(occ, cadenceKey)`. */
  function BucketKeys(occs: seq<ValidDate>, c: Cadence): (r: seq<ValidDate>)
    ensures |r| == |occs| && forall i :: 0 <= i < |occs| ==> r[i] == BucketStartFor(occs[i], c)
  {
    seq(|occs|, i requires 0 <= i < |occs| => BucketStartFor(occs[i], c))
  }

  /** `new Map(keys.map((k, i) => [k, i]))`: each key maps to its index, a
      later occurrence of a key overwriting an earlier one. */
  function IndexMap<K(==,!new)>(keys: seq<K>): (m: map<K, nat>)
    ensures forall k :: k in m <==> k in keys
    ensures forall k :: k in m ==> m[k] < |keys| && keys[m[k]] == k
    ensures forall k, j :: k in m && m[k] < j < |keys| ==> keys[j] != k
  {
    if keys == [] then map[]
    else
      var n := |keys| - 1;
      var m := IndexMap(keys[..n]);
      assert keys == keys[..n] + [keys[n]];
      m[keys[n] := n]
  }

  /** The `for (const occ of ...)` loop, given the occurrences' bucket
      starts: a key found in the map adds `amount` to its slot (`null`
      counting as 0); a key not found is dropped. */
  function Accumulate<K(==,!new)>(base: seq<Cell>, index: map<K, nat>, keys: seq<K>, amount: real): (r: seq<Cell>)
    requires forall k :: k in index ==> index[k] < |base|
    ensures |r| == |base|
    decreases |keys|
  {
    if keys == [] then base
    else
      Accumulate(Bump(base, index, keys[0], amount), index, keys[1..], amount)
  }

  /** How many of the keys reach slot i through the map. */
  function Hits<K(==)>(index: map<K, nat>, keys: seq<K>, i: nat): nat {
    if keys == [] then 0
    else (if keys[0] in index && index[keys[0]] == i then 1 else 0) + Hits(index, keys[1..], i)
  }

  /** How many of the keys are found in the map at all. */
  function Landed<K(==)>(index: map<K, nat>, keys: seq<K>): nat {
    if keys == [] then 0
    else (if keys[0] in index then 1 else 0) + Landed(index, keys[1..])
  }

  /** The bucket index of each occurrence under the cadence. */
  function BucketIndices(occs: seq<ValidDate>, c: Cadence): (r: seq<nat>)
    ensures |r| == |occs| && forall i :: 0 <= i < |occs| ==> r[i] == BucketIndex(occs[i], c)
  {
    seq(|occs|, i requires 0 <= i < |occs| => BucketIndex(occs[i], c))
  }

  /** The amount added n times over. */
  function Times(n: nat, amount: real): real {
    if n == 0 then 0.0 else Times(n - 1, amount) + amount
  }

  /** Adding the amount n times is multiplying it by n. */
  lemma {:induction false} TimesIsProduct(n: nat, amount: real)
    ensures Times(n, amount) == n as real * amount
  {
    if n > 0 {
      TimesIsProduct(n - 1, amount);
    }
  }

  /** The sum of a row's cells, `null` counting as 0. */
  function Total(cells: seq<Cell>): real {
    if cells == [] then 0.0 else Total(cells[..|cells| - 1]) + Value(cells[|cells| - 1])
  }

  /** `projectRowToColumns({ columns, cadenceKey, row })` for the current
      year: the projected cells, one per column and all null when the amount
      is 0 or not a number or there is no start date; or the exception the
      iterator raises. */
  function Project(columns: seq<Column>, c: Cadence, meta: Meta, year: int): (res: Result<seq<Cell>>)
    ensures res.Ok? ==> |res.value| == |columns|
    ensures !Projects(meta) ==> res == Ok(Nulls(|columns|))
  {
    if !Projects(meta) then Ok(Nulls(|columns|))
    else
      match Occurrences(year, meta.startDate, RecurrenceOf(RecurrenceKey(meta)))
      case Err(e) => Err(e)
      case Ok(occs) => Ok(Accumulate(Nulls(|columns|), IndexMap(Fulls(columns)), BucketKeys(occs, c), meta.amount.value))
  }

  /** `projectRowToColumns`: an all-null array the length of the columns,
      filled in place by the occurrences of the row. */
  method ProjectRowToColumns(columns: seq<Column>, cadenceKey: string, meta: Meta, year: int) returns (res: Result<seq<Cell>>)
    ensures res == Project(columns, CadenceOf(cadenceKey), meta, year)
  {
    var base := new Cell[|columns|](_ => None);
    assert base[..] == Nulls(|columns|);
    if meta.amount.None? || meta.amount.value == 0.0 || meta.startDate.None? {
      return Ok(base[..]);
    }
    var index := MapIndex(columns);
    var occs := IterateOccurrences(year, meta.startDate, RecurrenceKey(meta));
    if occs.Err? {
      return Err(occs.error);
    }
    AddOccurrences(base, index, occs.value, CadenceOf(cadenceKey), meta.amount.value);
    return Ok(base[..]);
  }

  /** `new Map(columns.map((c, i) => [c.full.toDateString(), i]))`, built
      one column at a time. */
  method MapIndex(columns: seq<Column>) returns (index: map<ValidDate, nat>)
    ensures index == IndexMap(Fulls(columns))
  {
    ghost var keys := Fulls(columns);
    index := map[];
    var i := 0;
    while i < |columns|
      invariant 0 <= i <= |columns|
      invariant index == IndexMap(keys[..i])
    {
      IndexMapStep(keys, i);
      index := index[columns[i].full := i];
      i := i + 1;
    }
    assert keys[..|columns|] == keys;
  }

  /** One more key sets its own index in the map. */
  lemma IndexMapStep<K(!new)>(keys: seq<K>, i: nat)
    requires i < |keys|
    ensures IndexMap(keys[..i + 1]) == IndexMap(keys[..i])[keys[i] := i]
  {
    assert keys[..i + 1][..i] == keys[..i];
  }

  /** The loop `base[idx] = (base[idx] ?? 0) + amount` over the occurrences
      whose bucket start is in the map. */
  method AddOccurrences(base: array<Cell>, index: map<ValidDate, nat>, occs: seq<ValidDate>, c: Cadence, amount: real)
    requires forall k :: k in index ==> index[k] < base.Length
    modifies base
    ensures base[..] == Accumulate(old(base[..]), index, BucketKeys(occs, c), amount)
  {
    ghost var keys := BucketKeys(occs, c);
    var k := 0;
    while k < |occs|
      invariant 0 <= k <= |occs|
      invariant Accumulate(base[..], index, keys[k..], amount) == Accumulate(old(base[..]), index, keys, amount)
    {
      var key := BucketStartFor(occs[k], c);
      AccumulateStep(base[..], index, keys, k, key, amount);
      AddKey(base, index, key, amount);
      k := k + 1;
    }
  }

  /** What one occurrence does to the cells: its bucket's slot, when the
      map has it, gains the amount. */
  function Bump<K(==)>(base: seq<Cell>, index: map<K, nat>, key: K, amount: real): (r: seq<Cell>)
    requires forall x :: x in index ==> index[x] < |base|
    ensures |r| == |base|
  {
    if key in index then base[index[key] := Some(Value(base[index[key]]) + amount)] else base
  }

  /** `const idx = mapIndex.get(...); if (idx != null) base[idx] = (base[idx] ?? 0) + amount`. */
  method AddKey<K(==)>(base: array<Cell>, index: map<K, nat>, key: K, amount: real)
    requires forall x :: x in index ==> index[x] < base.Length
    modifies base
    ensures base[..] == Bump(old(base[..]), index, key, amount)
  {
    if key in index {
      var idx := index[key];
      base[idx] := Some(Value(base[idx]) + amount);
    }
  }

  /** One step of the accumulation: the key at position `k` is added first. */
  lemma AccumulateStep<K(!new)>(base: seq<Cell>, index: map<K, nat>, keys: seq<K>, k: nat, key: K, amount: real)
    requires forall x :: x in index ==> index[x] < |base|
    requires k < |keys| && keys[k] == key
    ensures Accumulate(base, index, keys[k..], amount) == Accumulate(Bump(base, index, key, amount), index, keys[k + 1..], amount)
  {
    assert keys[k..][0] == keys[k] && keys[k..][1..] == keys[k + 1..];
  }

  /** Slot i ends up as it was when no key reaches it, and otherwise holds
      what it held plus the amount once per key that reaches it. */
  lemma {:induction false} AccumulateSlot<K(!new)>(base: seq<Cell>, index: map<K, nat>, keys: seq<K>, amount: real, i: nat)
    requires forall k :: k in index ==> index[k] < |base|
    requires i < |base|
    ensures Accumulate(base, index, keys, amount)[i] ==
      if Hits(index, keys, i) == 0 then base[i]
      else Some(Value(base[i]) + Times(Hits(index, keys, i), amount))
    decreases |keys|
  {
    if keys != [] {
      var next := if keys[0] in index then base[index[keys[0]] := Some(Value(base[index[keys[0]]]) + amount)] else base;
      AccumulateSlot(next, index, keys[1..], amount, i);
    }
  }

  /** Replacing one cell changes the total by the difference of the values. */
  lemma {:induction false} TotalUpdate(cells: seq<Cell>, j: nat, v: Cell)
    requires j < |cells|
    ensures Total(cells[j := v]) == Total(cells) - Value(cells[j]) + Value(v)
    decreases |cells|
  {
    var n := |cells| - 1;
    assert cells[j := v][..n] == if j < n then cells[..n][j := v] else cells[..n];
    if j < n {
      TotalUpdate(cells[..n], j, v);
    }
  }

  /** The accumulation adds the amount to the total once per key found in
      the map. */
  lemma {:induction false} AccumulateTotal<K(!new)>(base: seq<Cell>, index: map<K, nat>, keys: seq<K>, amount: real)
    requires forall k :: k in index ==> index[k] < |base|
    ensures Total(Accumulate(base, index, keys, amount)) == Total(base) + Times(Landed(index, keys), amount)
    decreases |keys|
  {
    if keys != [] {
      var next := if keys[0] in index then base[index[keys[0]] := Some(Value(base[index[keys[0]]]) + amount)] else base;
      if keys[0] in index {
        TotalUpdate(base, index[keys[0]], Some(Value(base[index[keys[0]]]) + amount));
      }
      AccumulateTotal(next, index, keys[1..], amount);
    }
  }

  lemma {:induction false} TotalNulls(n: nat)
    ensures Total(Nulls(n)) == 0.0
  {
    if n > 0 {
      assert Nulls(n)[..n - 1] == Nulls(n - 1);
      TotalNulls(n - 1);
    }
  }


  /** Projecting fails exactly when the row passes the guard and the
      iterator throws. */
  lemma ProjectFails(columns: seq<Column>, c: Cadence, meta: Meta, year: int)
    ensures Project(columns, c, meta, year).Err? <==>
      Projects(meta) && Occurrences(year, meta.startDate, RecurrenceOf(RecurrenceKey(meta))).Err?
  {
  }

  /** Cell i is null exactly when no occurrence's bucket start maps to i,
      and otherwise holds the amount times the number that do. */
  lemma ProjectSlot(columns: seq<Column>, c: Cadence, meta: Meta, year: int, occs: seq<ValidDate>, i: nat)
    requires Projects(meta) && i < |columns|
    requires Occurrences(year, meta.startDate, RecurrenceOf(RecurrenceKey(meta))) == Ok(occs)
    ensures Project(columns, c, meta, year).Ok?
    ensures var n := Hits(IndexMap(Fulls(columns)), BucketKeys(occs, c), i);
      Project(columns, c, meta, year).value[i] == if n == 0 then None else Some(Times(n, meta.amount.value))
  {
    AccumulateSlot(Nulls(|columns|), IndexMap(Fulls(columns)), BucketKeys(occs, c), meta.amount.value, i);
  }

  /** On the generated columns, the bucket start of a date of the year is
      found in the map under the date's own bucket index. */
  lemma KeyOfDateInYear(year: int, c: Cadence, d: ValidDate)
    requires d.year == year
    ensures BucketStartFor(d, c) in IndexMap(Fulls(YearColumns(year, c)))
    ensures IndexMap(Fulls(YearColumns(year, c)))[BucketStartFor(d, c)] == BucketIndex(d, c)
  {
    EveryDayHasColumn(year, c, d);
    assert Fulls(YearColumns(year, c))[BucketIndex(d, c)] == BucketStartFor(d, c);
  }

  /** When every key is in the map, at the slot listed for it, slot i is
      hit once per listing of i and every key lands. */
  lemma {:induction false} HitsThroughMap<K(!new)>(index: map<K, nat>, keys: seq<K>, slots: seq<nat>, i: nat)
    requires |keys| == |slots|
    requires forall k :: 0 <= k < |keys| ==> keys[k] in index && index[keys[k]] == slots[k]
    ensures Hits(index, keys, i) == multiset(slots)[i]
    ensures Landed(index, keys) == |keys|
  {
    if keys != [] {
      assert slots == [slots[0]] + slots[1..];
      HitsThroughMap(index, keys[1..], slots[1..], i);
    }
  }

  /** Hence no occurrence of the year is dropped: each reaches the slot of
      its bucket index. */
  lemma GeneratedColumnsHit(year: int, c: Cadence, occs: seq<ValidDate>, i: nat)
    requires forall k :: 0 <= k < |occs| ==> occs[k].year == year
    ensures Hits(IndexMap(Fulls(YearColumns(year, c))), BucketKeys(occs, c), i) == multiset(BucketIndices(occs, c))[i]
    ensures Landed(IndexMap(Fulls(YearColumns(year, c))), BucketKeys(occs, c)) == |occs|
  {
    forall k | 0 <= k < |occs|
      ensures BucketStartFor(occs[k], c) in IndexMap(Fulls(YearColumns(year, c)))
      ensures IndexMap(Fulls(YearColumns(year, c)))[BucketStartFor(occs[k], c)] == BucketIndex(occs[k], c)
    {
      KeyOfDateInYear(year, c, occs[k]);
    }
    HitsThroughMap(IndexMap(Fulls(YearColumns(year, c))), BucketKeys(occs, c), BucketIndices(occs, c), i);
  }

  /** Projected onto the columns `genColumns` produces for the year, cell i
      holds the amount once for every occurrence whose bucket index is i,
      and is null when there is none. */
  lemma ProjectOntoGenerated(year: int, c: Cadence, meta: Meta, occs: seq<ValidDate>, i: nat)
    requires Projects(meta) && i < ColumnCount(year, c)
    requires Occurrences(year, meta.startDate, RecurrenceOf(RecurrenceKey(meta))) == Ok(occs)
    ensures Project(YearColumns(year, c), c, meta, year).Ok?
    ensures var n := multiset(BucketIndices(occs, c))[i];
      Project(YearColumns(year, c), c, meta, year).value[i] == if n == 0 then None else Some(Times(n, meta.amount.value))
  {
    ProjectSlot(YearColumns(year, c), c, meta, year, occs, i);
    GeneratedColumnsHit(year, c, occs, i);
  }

  /** Projected onto the generated columns, the row's cells add up to the
      amount times the number of occurrences in the year. */
  lemma ProjectConserves(year: int, c: Cadence, meta: Meta, occs: seq<ValidDate>)
    requires Projects(meta)
    requires Occurrences(year, meta.startDate, RecurrenceOf(RecurrenceKey(meta))) == Ok(occs)
    ensures Project(YearColumns(year, c), c, meta, year).Ok?
    ensures Total(Project(YearColumns(year, c), c, meta, year).value) == Times(|occs|, meta.amount.value)
  {
    var cols := YearColumns(year, c);
    ProjectIsAccumulate(cols, c, meta, year, occs);
    AccumulateConserves(year, c, occs, meta.amount.value);
  }

  /** Accumulating in-year occurrences onto the generated columns' null
      cells lands each of them once. */
  lemma AccumulateConserves(year: int, c: Cadence, occs: seq<ValidDate>, amount: real)
    requires forall k :: 0 <= k < |occs| ==> occs[k].year == year
    ensures Total(Accumulate(Nulls(|YearColumns(year, c)|), IndexMap(Fulls(YearColumns(year, c))), BucketKeys(occs, c), amount)) ==
      Times(|occs|, amount)
  {
    var cols := YearColumns(year, c);
    var index, keys := IndexMap(Fulls(cols)), BucketKeys(occs, c);
    GeneratedColumnsHit(year, c, occs, 0);
    assert Landed(index, keys) == |keys|;
    AccumulateAllLand(|cols|, index, keys, amount);
  }

  /** Accumulating onto null cells keys that all land adds the amount
      once per key. */
  lemma AccumulateAllLand<K(!new)>(n: nat, index: map<K, nat>, keys: seq<K>, amount: real)
    requires forall k :: k in index ==> index[k] < n
    requires Landed(index, keys) == |keys|
    ensures Total(Accumulate(Nulls(n), index, keys, amount)) == Times(|keys|, amount)
  {
    AccumulateTotal(Nulls(n), index, keys, amount);
    TotalNulls(n);
  }

  /** A row that passes the guard is its occurrences accumulated onto null
      cells. */
  lemma ProjectIsAccumulate(columns: seq<Column>, c: Cadence, meta: Meta, year: int, occs: seq<ValidDate>)
    requires Projects(meta)
    requires Occurrences(year, meta.startDate, RecurrenceOf(RecurrenceKey(meta))) == Ok(occs)
    ensures Project(columns, c, meta, year) ==
      Ok(Accumulate(Nulls(|columns|), IndexMap(Fulls(columns)), BucketKeys(occs, c), meta.amount.value))
  {
  }
}
