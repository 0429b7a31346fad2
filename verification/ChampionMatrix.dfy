/** The champion of a sweep, and the matrix of the session's champions on shared months. */
module ChampionMatrix {
  import opened Common
  import Orders

  datatype ChampionRow =
      ChampionRow(sweep: nat, strategy: string, configHash: string, keys: seq<int>, monthly: seq<Float>)

  datatype Defect = LengthMismatch | EmptyGrid | NotAscending | NonFiniteReturn

  datatype Note = Dropped(sweep: nat, why: Defect) | Aligned(shared: nat, of: nat)

  datatype TrialRow = TrialRow(index: nat, sweep: nat, strategy: string, monthly: seq<Float>)

  datatype MatrixResult =
    | Matrix(keys: seq<int>, rows: seq<TrialRow>, initialBalance: real, dropped: nat, notes: seq<Note>)
    | NoRows
    | AllUnusable(notes: seq<Note>)
    | NoSharedMonth
    | Vanished(sweep: nat, month: int)

  // ------------------------------------------------------------------------------------------
  // Usable rows
  // ------------------------------------------------------------------------------------------

  ghost predicate Usable(r: ChampionRow) {
    |r.keys| == |r.monthly| && r.keys != [] && Orders.Ascending(r.keys) && forall v :: v in r.monthly ==> v.Finite?
  }

  lemma {:induction false} NeighboursAscend(keys: seq<int>, i: nat, j: nat)
    requires forall k :: 0 < k < |keys| ==> keys[k - 1] < keys[k]
    requires i < j < |keys|
    ensures keys[i] < keys[j]
    decreases j - i
  {
    if i + 1 < j { NeighboursAscend(keys, i, j - 1); }
  }

  /** What is wrong with a row, if nothing looked for earlier is. */
  ghost predicate HasDefect(r: ChampionRow, d: Defect) {
    match d
    case LengthMismatch => |r.keys| != |r.monthly|
    case EmptyGrid => |r.keys| == |r.monthly| == 0
    case NotAscending => |r.keys| == |r.monthly| && !Orders.Ascending(r.keys)
    case NonFiniteReturn =>
      |r.keys| == |r.monthly| && Orders.Ascending(r.keys) && (exists v :: v in r.monthly && !v.Finite?)
  }

  /** The first thing wrong with a row, in the order it is looked for. */
  method DefectOf(r: ChampionRow) returns (d: Option<Defect>)
    ensures d == None <==> Usable(r)
    ensures d == Some(LengthMismatch) <==> |r.keys| != |r.monthly|
    ensures d == Some(EmptyGrid) <==> |r.keys| == |r.monthly| == 0
    ensures d == Some(NotAscending) <==> |r.keys| == |r.monthly| && r.keys != [] && !Orders.Ascending(r.keys)
    ensures d == Some(NonFiniteReturn) <==>
      && |r.keys| == |r.monthly| && r.keys != [] && Orders.Ascending(r.keys)
      && exists v :: v in r.monthly && !v.Finite?
    ensures d != None ==> HasDefect(r, d.value)
  {
    if |r.keys| != |r.monthly| { return Some(LengthMismatch); }
    if r.keys == [] { return Some(EmptyGrid); }
    for w := 1 to |r.keys|
      invariant forall k :: 0 < k < w ==> r.keys[k - 1] < r.keys[k]
    {
      if r.keys[w] <= r.keys[w - 1] { return Some(NotAscending); }
    }
    forall i, j | 0 <= i < j < |r.keys| ensures r.keys[i] < r.keys[j] { NeighboursAscend(r.keys, i, j); }
    for i := 0 to |r.monthly|
      invariant forall k :: 0 <= k < i ==> r.monthly[k].Finite?
    {
      assert r.monthly[i] in r.monthly;
      if !r.monthly[i].Finite? { return Some(NonFiniteReturn); }
    }
    return None;
  }

  ghost function UsableRows(rows: seq<ChampionRow>): (r: seq<ChampionRow>)
    ensures |r| <= |rows| && forall x :: x in r ==> Usable(x)
  {
    if rows == [] then []
    else
      var before := UsableRows(rows[..|rows| - 1]);
      if Usable(rows[|rows| - 1]) then before + [rows[|rows| - 1]] else before
  }

  /** The rows that are dropped, in order. */
  ghost function DroppedRows(rows: seq<ChampionRow>): (r: seq<ChampionRow>)
    ensures |r| + |UsableRows(rows)| == |rows|
  {
    if rows == [] then []
    else
      var before := DroppedRows(rows[..|rows| - 1]);
      if Usable(rows[|rows| - 1]) then before else before + [rows[|rows| - 1]]
  }

  /** Every dropped row is named, in order, with what is wrong with it. */
  ghost predicate NamesDropped(dropped: seq<ChampionRow>, notes: seq<Note>) {
    |notes| == |dropped| && forall i :: 0 <= i < |notes| ==>
      notes[i].Dropped? && notes[i].sweep == dropped[i].sweep && HasDefect(dropped[i], notes[i].why)
  }

  // ------------------------------------------------------------------------------------------
  // The shared months
  // ------------------------------------------------------------------------------------------

  method BinarySearch(keys: seq<int>, key: int) returns (at: Option<nat>)
    requires Orders.Ascending(keys)
    ensures at == None <==> key !in keys
    ensures at != None ==> at.value < |keys| && keys[at.value] == key
  {
    var lo, hi := 0, |keys|;
    while lo < hi
      invariant lo <= hi <= |keys|
      invariant forall i :: 0 <= i < lo ==> keys[i] < key
      invariant forall i :: hi <= i < |keys| ==> key < keys[i]
    {
      var mid := lo + (hi - lo) / 2;
      if keys[mid] == key { return Some(mid); }
      if keys[mid] < key { lo := mid + 1; } else { hi := mid; }
    }
    return None;
  }

  /** Keep the months of a grid that another row's grid has. */
  method Retain(keys: seq<int>, other: seq<int>) returns (kept: seq<int>)
    requires Orders.Ascending(keys) && Orders.Ascending(other)
    ensures Orders.Ascending(kept) && |kept| <= |keys| && forall k :: k in kept <==> k in keys && k in other
  {
    kept := [];
    for i := 0 to |keys|
      invariant Orders.Ascending(kept) && |kept| <= i && forall k :: k in kept <==> k in keys[..i] && k in other
    {
      assert keys[..i + 1] == keys[..i] + [keys[i]];
      forall j | 0 <= j < |kept| ensures kept[j] < keys[i] { assert kept[j] in kept; }
      var at := BinarySearch(other, keys[i]);
      if at != None { kept := kept + [keys[i]]; }
    }
    assert keys[..|keys|] == keys;
  }

  ghost predicate SharedBy(usable: seq<ChampionRow>, n: nat, key: int) {
    forall i :: 0 <= i < n && i < |usable| ==> key in usable[i].keys
  }

  /** The returns of a row on a grid: each is the row's own return of that month. */
  ghost predicate OwnReturns(r: ChampionRow, keys: seq<int>, monthly: seq<Float>) {
    |monthly| == |keys| && forall j :: 0 <= j < |keys| ==> OwnReturn(r, keys[j], monthly[j])
  }

  ghost predicate OwnReturn(r: ChampionRow, key: int, value: Float) {
    exists i :: 0 <= i < |r.keys| && i < |r.monthly| && r.keys[i] == key && r.monthly[i] == value
  }

  /** What the matrix of a list of rows is. */
  ghost predicate IsMatrixOf(rows: seq<ChampionRow>, m: MatrixResult) {
    var usable := UsableRows(rows);
    && m.Matrix? && m.dropped + |m.rows| == |rows| && |m.rows| == |usable| && usable != []
    && Orders.Ascending(m.keys) && (forall k :: k in m.keys <==> SharedBy(usable, |usable|, k))
    && (forall i :: 0 <= i < |usable| ==>
          && m.rows[i].index == i && m.rows[i].sweep == usable[i].sweep && m.rows[i].strategy == usable[i].strategy
          && OwnReturns(usable[i], m.keys, m.rows[i].monthly))
    && (exists notes :: NamesDropped(DroppedRows(rows), notes) && m.notes == notes +
          if |m.keys| < |usable[0].keys| then [Aligned(|m.keys|, |usable[0].keys|)] else [])
  }

  method RowOn(r: ChampionRow, index: nat, keys: seq<int>) returns (row: Option<TrialRow>, missing: int)
    requires Usable(r)
    ensures row == None <==> exists k :: k in keys && k !in r.keys
    ensures row != None ==>
      && row.value.index == index && row.value.sweep == r.sweep && row.value.strategy == r.strategy
      && OwnReturns(r, keys, row.value.monthly)
  {
    var monthly: seq<Float> := [];
    missing := 0;
    for j := 0 to |keys|
      invariant |monthly| == j && (forall k :: 0 <= k < j ==> keys[k] in r.keys && OwnReturn(r, keys[k], monthly[k]))
    {
      var at := BinarySearch(r.keys, keys[j]);
      if at == None { return None, keys[j]; }
      assert OwnReturn(r, keys[j], r.monthly[at.value]);
      monthly := monthly + [r.monthly[at.value]];
    }
    row := Some(TrialRow(index, r.sweep, r.strategy, monthly));
  }

  /** Sort the rows into usable ones and named defects. */
  method Partition(rows: seq<ChampionRow>) returns (usable: seq<ChampionRow>, dropped: nat, notes: seq<Note>)
    ensures usable == UsableRows(rows) && dropped == |DroppedRows(rows)| && NamesDropped(DroppedRows(rows), notes)
  {
    hide Usable, HasDefect;
    usable, dropped, notes := [], 0, [];
    for i := 0 to |rows|
      invariant usable == UsableRows(rows[..i]) && dropped == |DroppedRows(rows[..i])|
      invariant NamesDropped(DroppedRows(rows[..i]), notes)
    {
      assert rows[..i + 1][..i] == rows[..i];
      var bad := DefectOf(rows[i]);
      if bad != None {
        dropped := dropped + 1;
        notes := notes + [Dropped(rows[i].sweep, bad.value)];
      } else {
        usable := usable + [rows[i]];
      }
    }
    assert rows[..|rows|] == rows;
  }

  method SharedMonths(usable: seq<ChampionRow>) returns (shared: seq<int>)
    requires usable != [] && forall r :: r in usable ==> Usable(r)
    ensures Orders.Ascending(shared) && |shared| <= |usable[0].keys|
    ensures forall k :: k in shared <==> SharedBy(usable, |usable|, k)
  {
    assert usable[0] in usable;
    shared := usable[0].keys;
    for i := 1 to |usable|
      invariant Orders.Ascending(shared) && |shared| <= |usable[0].keys|
      invariant forall k :: k in shared <==> SharedBy(usable, i, k)
    {
      assert usable[i] in usable;
      shared := Retain(shared, usable[i].keys);
      forall k ensures SharedBy(usable, i + 1, k) <==> SharedBy(usable, i, k) && k in usable[i].keys {
      }
    }
  }

  /** A balance to express returns against: the given one if it is a number other than nought. */
  function Balance(initialBalance: Float): real {
    if initialBalance.Finite? && initialBalance.value != 0.0 then initialBalance.value else 1.0
  }

  /** The matrix of a session's champions, or why there is none. No month can vanish from the grid of a
      row that shares it. */
  method BuildSessionChampionMatrix(rows: seq<ChampionRow>, initialBalance: Float) returns (m: MatrixResult)
    ensures m.NoRows? <==> rows == []
    ensures m.AllUnusable? <==> rows != [] && UsableRows(rows) == []
    ensures m.AllUnusable? ==> NamesDropped(DroppedRows(rows), m.notes)
    ensures m.NoSharedMonth? <==>
      UsableRows(rows) != [] && forall k :: !SharedBy(UsableRows(rows), |UsableRows(rows)|, k)
    ensures !m.Vanished?
    ensures m.Matrix? ==>
      && IsMatrixOf(rows, m) && m.keys != []
      && (initialBalance.Finite? && initialBalance.value != 0.0 ==> m.initialBalance == initialBalance.value)
      && (!initialBalance.Finite? || initialBalance.value == 0.0 ==> m.initialBalance == 1.0)
  {
    hide NamesDropped, Usable, Orders.Ascending, SharedBy, OwnReturns;
    if rows == [] { return NoRows; }
    var usable, dropped, notes := Partition(rows);
    if usable == [] { return AllUnusable(notes); }
    var shared := SharedMonths(usable);
    if shared == [] { return NoSharedMonth; }
    assert shared[0] in shared;
    ghost var named := notes;
    if |shared| < |usable[0].keys| {
      notes := notes + [Aligned(|shared|, |usable[0].keys|)];
    }
    var out: seq<TrialRow> := [];
    for i := 0 to |usable|
      invariant |out| == i && (forall j :: 0 <= j < i ==>
        && out[j].index == j && out[j].sweep == usable[j].sweep && out[j].strategy == usable[j].strategy
        && OwnReturns(usable[j], shared, out[j].monthly))
    {
      assert usable[i] in usable;
      forall k | k in shared ensures k in usable[i].keys { SharedByEach(usable, i, k); }
      var r := usable[i];
      var row, missing := RowOn(r, i, shared);
      if row == None { return Vanished(r.sweep, missing); }
      out := out + [row.value];
    }
    m := Matrix(shared, out, Balance(initialBalance), dropped, notes);
  }

  lemma SharedByEach(usable: seq<ChampionRow>, i: nat, k: int)
    requires i < |usable| && SharedBy(usable, |usable|, k)
    ensures k in usable[i].keys
  {
  }

  /** The rows decide the matrix: the same grid, and on it the same returns. */
  lemma MatrixIsUnique(rows: seq<ChampionRow>, m: MatrixResult, n: MatrixResult)
    requires IsMatrixOf(rows, m) && IsMatrixOf(rows, n)
    ensures m.keys == n.keys && m.rows == n.rows && m.dropped == n.dropped
  {
    hide Usable, SharedBy;
    Orders.AscendingIsUnique(m.keys, n.keys);
    var usable := UsableRows(rows);
    forall i | 0 <= i < |usable| ensures m.rows[i] == n.rows[i] {
      assert usable[i] in usable;
      OwnReturnsAreUnique(usable[i], m.keys, m.rows[i].monthly, n.rows[i].monthly);
    }
  }

  lemma OwnReturnsAreUnique(r: ChampionRow, keys: seq<int>, a: seq<Float>, b: seq<Float>)
    requires Usable(r) && OwnReturns(r, keys, a) && OwnReturns(r, keys, b)
    ensures a == b
  {
    forall j | 0 <= j < |keys| ensures a[j] == b[j] {
      assert OwnReturn(r, keys[j], a[j]) && OwnReturn(r, keys[j], b[j]);
    }
  }

  // ------------------------------------------------------------------------------------------
  // The champion of a sweep
  // ------------------------------------------------------------------------------------------

  datatype Refusal = RenamedRow(slot: nat) | NoSeries(slot: nat) | NoSuchRow(slot: nat)

  /** The screened champion: the slot, and its row or why the sweep contributes none. */
  datatype Champion = Champion(slot: nat, row: Option<ChampionRow>, refusal: Option<Refusal>)

  /** The first of the slots with the highest pessimistic expectancy among those that passed. Its row is
      its own, under its own configuration, or there is none. `passed` holds the expectancy of a slot
      that passed the screen. */
  method ScreenSweep(passed: seq<Option<real>>, hashes: seq<string>,
        rows: seq<Option<ChampionRow>>) returns (c: Option<Champion>)
    requires |hashes| == |passed|
    ensures c == None <==> forall i :: 0 <= i < |passed| ==> passed[i] == None
    ensures c != None ==>
      var s := c.value.slot;
      && s < |passed| && passed[s] != None
      && (forall i :: 0 <= i < |passed| && passed[i] != None ==> passed[i].value <= passed[s].value)
      && (forall i :: 0 <= i < s && passed[i] != None ==> passed[i].value < passed[s].value)
      && (c.value.row != None <==> s < |rows| && rows[s] != None && rows[s].value.configHash == hashes[s])
      && (c.value.row != None ==> c.value.row == rows[s])
      && (c.value.row == None <==> c.value.refusal != None)
      && (c.value.refusal == Some(NoSuchRow(s)) <==> s >= |rows|)
      && (c.value.refusal == Some(NoSeries(s)) <==> s < |rows| && rows[s] == None)
      && (c.value.refusal == Some(RenamedRow(s)) <==>
            s < |rows| && rows[s] != None && rows[s].value.configHash != hashes[s])
  {
    var best: Option<(nat, real)> := None;
    for i := 0 to |passed|
      invariant best == None <==> forall k :: 0 <= k < i ==> passed[k] == None
      invariant best != None ==>
        && best.value.0 < i && passed[best.value.0] == Some(best.value.1)
        && (forall k :: 0 <= k < i && passed[k] != None ==> passed[k].value <= best.value.1)
        && (forall k :: 0 <= k < best.value.0 && passed[k] != None ==> passed[k].value < best.value.1)
    {
      if passed[i] != None && (best == None || passed[i].value > best.value.1) {
        best := Some((i, passed[i].value));
      }
    }
    if best == None { return None; }
    var s := best.value.0;
    if s >= |rows| { return Some(Champion(s, None, Some(NoSuchRow(s)))); }
    if rows[s] == None { return Some(Champion(s, None, Some(NoSeries(s)))); }
    if rows[s].value.configHash != hashes[s] { return Some(Champion(s, None, Some(RenamedRow(s)))); }
    return Some(Champion(s, rows[s], None));
  }
}
