/** The syndicate × territory appetite matrix of src/lib/mock-data/markets.ts:
    two fixed axes, a nested table of appetite levels, and the builder that
    walks both axes and appends one cell per pair. */
module Markets {
  import opened Types

  datatype SyndicateAppetiteCell = SyndicateAppetiteCell(syndicate: string, territory: Territory, appetite: AppetiteLevel)

  /** A row gives a level per territory; a syndicate without a row has no key. */
  type AppetiteRow = map<Territory, AppetiteLevel>
  type AppetiteTable = map<string, AppetiteRow>

  const TERRITORIES: seq<Territory> := [UK, EU, US, APAC, MEA, LATAM]

  const BEAZLEY := "Beazley (2623)"
  const HISCOX := "Hiscox (33)"
  const BRIT := "Brit (2987)"
  const CHAUCER := "Chaucer (1084)"
  const TOKIO_MARINE_KILN := "Tokio Marine Kiln (510)"
  const CANOPIUS := "Canopius (4444)"

  const SYNDICATES: seq<string> := [BEAZLEY, HISCOX, BRIT, CHAUCER, TOKIO_MARINE_KILN, CANOPIUS]

  const APPETITE_BY_KEY: AppetiteTable := map[
    BEAZLEY := map[UK := Hot, EU := Hot, US := Warm, APAC := Cold, MEA := AppetiteLevel.Declined, LATAM := AppetiteLevel.Declined],
    HISCOX := map[UK := Hot, EU := Warm, US := Hot, APAC := Warm, MEA := Cold, LATAM := AppetiteLevel.Declined],
    BRIT := map[UK := Hot, EU := Hot, US := Cold, APAC := AppetiteLevel.Declined, MEA := AppetiteLevel.Declined, LATAM := AppetiteLevel.Declined],
    CHAUCER := map[UK := Warm, EU := Warm, US := Warm, APAC := Cold, MEA := AppetiteLevel.Declined, LATAM := AppetiteLevel.Declined],
    TOKIO_MARINE_KILN := map[UK := Warm, EU := Cold, US := Cold, APAC := Hot, MEA := AppetiteLevel.Declined, LATAM := AppetiteLevel.Declined],
    CANOPIUS := map[UK := Hot, EU := Warm, US := Cold, APAC := AppetiteLevel.Declined, MEA := AppetiteLevel.Declined, LATAM := AppetiteLevel.Declined]
  ]

  predicate Distinct<T(==)>(s: seq<T>) {
    forall i, j :: 0 <= i < j < |s| ==> s[i] != s[j]
  }

  /** `row[territory] ?? "declined"`: a missing entry reads as declined. */
  function AppetiteOrDeclined(row: AppetiteRow, t: Territory): AppetiteLevel {
    if t in row then row[t] else AppetiteLevel.Declined
  }

  /** The cells one syndicate's row contributes, one per territory, in axis order. */
  function RowCells(s: string, row: AppetiteRow, ts: seq<Territory>): (cells: seq<SyndicateAppetiteCell>)
    ensures |cells| == |ts|
    ensures forall j :: 0 <= j < |ts| ==>
      cells[j] == SyndicateAppetiteCell(s, ts[j], AppetiteOrDeclined(row, ts[j]))
  {
    if ts == [] then []
    else RowCells(s, row, ts[..|ts| - 1]) + [SyndicateAppetiteCell(s, ts[|ts| - 1], AppetiteOrDeclined(row, ts[|ts| - 1]))]
  }

  /** What one syndicate contributes: its row's cells, or nothing when it has no row. */
  function SyndicateCells(s: string, ts: seq<Territory>, table: AppetiteTable): seq<SyndicateAppetiteCell> {
    if s in table then RowCells(s, table[s], ts) else []
  }

  /** The matrix for a prefix of the syndicate axis: the cells of every
      syndicate, in axis order. This is the value the builder's loop accumulates. */
  function Matrix(ss: seq<string>, ts: seq<Territory>, table: AppetiteTable): (cells: seq<SyndicateAppetiteCell>)
    ensures |cells| <= |ss| * |ts|
  {
    if ss == [] then []
    else
      MulStep(|ss|, |ts|);
      Matrix(ss[..|ss| - 1], ts, table) + SyndicateCells(ss[|ss| - 1], ts, table)
  }

  /** The builder of markets.ts:115-133, over arbitrary axes and table: an
      outer loop over syndicates that skips those without a row, and an inner
      loop that appends one cell per territory. */
  method BuildCells(ss: seq<string>, ts: seq<Territory>, table: AppetiteTable) returns (cells: seq<SyndicateAppetiteCell>)
    ensures cells == Matrix(ss, ts, table)
  {
    cells := [];
    var i := 0;
    while i < |ss|
      invariant 0 <= i <= |ss|
      invariant cells == Matrix(ss[..i], ts, table)
    {
      var syndicate := ss[i];
      assert ss[..i + 1][..i] == ss[..i];
      assert Matrix(ss[..i + 1], ts, table) == Matrix(ss[..i], ts, table) + SyndicateCells(syndicate, ts, table);
      if syndicate !in table {
        i := i + 1;
        continue;
      }
      var row := table[syndicate];
      var j := 0;
      while j < |ts|
        invariant 0 <= j <= |ts|
        invariant cells == Matrix(ss[..i], ts, table) + RowCells(syndicate, row, ts[..j])
      {
        var territory := ts[j];
        assert ts[..j + 1][..j] == ts[..j];
        cells := cells + [SyndicateAppetiteCell(syndicate, territory, if territory in row then row[territory] else AppetiteLevel.Declined)];
        j := j + 1;
      }
      assert ts[..j] == ts;
      i := i + 1;
    }
    assert ss[..i] == ss;
  }

  /** `buildAppetiteMatrix()` on the module's constant axes and table: 36
      cells, syndicate-major, each carrying the stored level. */
  method BuildAppetiteMatrix() returns (cells: seq<SyndicateAppetiteCell>)
    ensures |cells| == |SYNDICATES| * |TERRITORIES| == 36
    ensures forall i, j :: 0 <= i < |SYNDICATES| && 0 <= j < |TERRITORIES| ==>
      cells[i * |TERRITORIES| + j] == SyndicateAppetiteCell(SYNDICATES[i], TERRITORIES[j], APPETITE_BY_KEY[SYNDICATES[i]][TERRITORIES[j]])
  {
    cells := BuildCells(SYNDICATES, TERRITORIES, APPETITE_BY_KEY);
    TableCoversAxes();
    MatrixLength(SYNDICATES, TERRITORIES, APPETITE_BY_KEY);
    forall i, j | 0 <= i < |SYNDICATES| && 0 <= j < |TERRITORIES|
      ensures cells[i * |TERRITORIES| + j] == SyndicateAppetiteCell(SYNDICATES[i], TERRITORIES[j], APPETITE_BY_KEY[SYNDICATES[i]][TERRITORIES[j]])
    {
      MatrixAt(SYNDICATES, TERRITORIES, APPETITE_BY_KEY, i, j);
    }
  }

  // ---------------------------------------------------------------------
  // Properties of the general builder

  predicate AllHaveRows(ss: seq<string>, table: AppetiteTable) {
    forall i :: 0 <= i < |ss| ==> ss[i] in table
  }

  lemma MulStep(n: nat, m: nat)
    requires n > 0
    ensures (n - 1) * m + m == n * m
  {}

  lemma {:induction false} MulMono(i: nat, n: nat, m: nat, j: nat)
    requires i < n && j < m
    ensures i * m + j < n * m
  {
    MulStep(n, m);
    if i + 1 < n {
      MulMono(i, n - 1, m, j);
    }
  }

  /** When every syndicate has a row the matrix has |ss| × |ts| cells. */
  lemma {:induction false} MatrixLength(ss: seq<string>, ts: seq<Territory>, table: AppetiteTable)
    requires AllHaveRows(ss, table)
    ensures |Matrix(ss, ts, table)| == |ss| * |ts|
  {
    if ss != [] {
      var n := |ss|;
      assert AllHaveRows(ss[..n - 1], table);
      MatrixLength(ss[..n - 1], ts, table);
      MulStep(n, |ts|);
    }
  }

  /** Syndicate-major order: the cell for (ss[i], ts[j]) sits at index i·|ts| + j. */
  lemma {:induction false} MatrixAt(ss: seq<string>, ts: seq<Territory>, table: AppetiteTable, i: nat, j: nat)
    requires AllHaveRows(ss, table)
    requires i < |ss| && j < |ts|
    ensures i * |ts| + j < |Matrix(ss, ts, table)|
    ensures Matrix(ss, ts, table)[i * |ts| + j] == SyndicateAppetiteCell(ss[i], ts[j], AppetiteOrDeclined(table[ss[i]], ts[j]))
  {
    var n, m := |ss|, |ts|;
    var prefix := ss[..n - 1];
    assert AllHaveRows(prefix, table);
    MatrixLength(prefix, ts, table);
    MatrixLength(ss, ts, table);
    MulMono(i, n, m, j);
    if i < n - 1 {
      MulMono(i, n - 1, m, j);
      MatrixAt(prefix, ts, table, i, j);
    } else {
      assert i * m + j == |Matrix(prefix, ts, table)| + j;
    }
  }

  /** Soundness: every cell belongs to a listed syndicate that has a row and a
      listed territory, and carries that row's level (or the default). In
      particular a syndicate without a row contributes no cell at all. */
  lemma {:induction false} MatrixCellsSound(ss: seq<string>, ts: seq<Territory>, table: AppetiteTable)
    ensures forall c :: c in Matrix(ss, ts, table) ==>
      c.syndicate in ss && c.syndicate in table && c.territory in ts &&
      c.appetite == AppetiteOrDeclined(table[c.syndicate], c.territory)
  {
    if ss != [] {
      var n := |ss|;
      MatrixCellsSound(ss[..n - 1], ts, table);
      forall c | c in Matrix(ss, ts, table)
        ensures c.syndicate in ss && c.syndicate in table && c.territory in ts &&
                c.appetite == AppetiteOrDeclined(table[c.syndicate], c.territory)
      {
        if c in Matrix(ss[..n - 1], ts, table) {
          assert c.syndicate in ss[..n - 1];
        } else {
          var k :| 0 <= k < |SyndicateCells(ss[n - 1], ts, table)| && SyndicateCells(ss[n - 1], ts, table)[k] == c;
        }
      }
    }
  }

  /** Coverage: every pair of a listed syndicate that has a row and a listed
      territory has its cell in the matrix, even when other syndicates are skipped. */
  lemma {:induction false} MatrixCellsComplete(ss: seq<string>, ts: seq<Territory>, table: AppetiteTable, s: string, t: Territory)
    requires s in ss && s in table && t in ts
    ensures SyndicateAppetiteCell(s, t, AppetiteOrDeclined(table[s], t)) in Matrix(ss, ts, table)
  {
    var n := |ss|;
    var cell := SyndicateAppetiteCell(s, t, AppetiteOrDeclined(table[s], t));
    if ss[n - 1] == s {
      var j :| 0 <= j < |ts| && ts[j] == t;
      assert SyndicateCells(s, ts, table)[j] == cell;
    } else {
      assert ss == ss[..n - 1] + [ss[n - 1]];
      assert s in ss[..n - 1];
      MatrixCellsComplete(ss[..n - 1], ts, table, s, t);
    }
  }

  /** Over axes without repeats, no (syndicate, territory) pair occurs twice. */
  lemma {:induction false} MatrixPairsUnique(ss: seq<string>, ts: seq<Territory>, table: AppetiteTable)
    requires Distinct(ss) && Distinct(ts)
    ensures forall k1, k2 :: 0 <= k1 < k2 < |Matrix(ss, ts, table)| ==>
      Matrix(ss, ts, table)[k1].syndicate != Matrix(ss, ts, table)[k2].syndicate ||
      Matrix(ss, ts, table)[k1].territory != Matrix(ss, ts, table)[k2].territory
  {
    if ss != [] {
      var n := |ss|;
      var prefix := ss[..n - 1];
      var front: seq<SyndicateAppetiteCell> := Matrix(prefix, ts, table);
      var back: seq<SyndicateAppetiteCell> := SyndicateCells(ss[n - 1], ts, table);
      assert Matrix(ss, ts, table) == front + back;
      MatrixPairsUnique(prefix, ts, table);
      MatrixCellsSound(prefix, ts, table);
      forall k1, k2 | 0 <= k1 < k2 < |front + back|
        ensures (front + back)[k1].syndicate != (front + back)[k2].syndicate ||
                (front + back)[k1].territory != (front + back)[k2].territory
      {
        if k2 < |front| {
        } else if k1 < |front| {
          assert front[k1] in front;
          assert (front + back)[k2] == back[k2 - |front|];
          assert front[k1].syndicate in prefix;
        } else {
          assert (front + back)[k1] == back[k1 - |front|];
          assert (front + back)[k2] == back[k2 - |front|];
        }
      }
    }
  }

  // ---------------------------------------------------------------------
  // Properties of the constant data

  lemma TableCoversAxes()
    ensures AllHaveRows(SYNDICATES, APPETITE_BY_KEY)
    ensures forall s, t: Territory :: s in APPETITE_BY_KEY ==> t in APPETITE_BY_KEY[s]
  {
    forall s, t: Territory | s in APPETITE_BY_KEY ensures t in APPETITE_BY_KEY[s] {
      assert s == BEAZLEY || s == HISCOX || s == BRIT || s == CHAUCER || s == TOKIO_MARINE_KILN || s == CANOPIUS;
      assert APPETITE_BY_KEY[s].Keys == {UK, EU, US, APAC, MEA, LATAM};
      match t
      case UK => case EU => case US => case APAC => case MEA => case LATAM =>
    }
  }

  /** Read off the table: LATAM is declined in every row, and only Hiscox's
      MEA entry is something other than declined. */
  lemma TableLatamAndMea()
    ensures forall s :: s in APPETITE_BY_KEY ==> LATAM in APPETITE_BY_KEY[s] && APPETITE_BY_KEY[s][LATAM] == AppetiteLevel.Declined
    ensures forall s :: s in APPETITE_BY_KEY ==> MEA in APPETITE_BY_KEY[s] && (APPETITE_BY_KEY[s][MEA] != AppetiteLevel.Declined <==> s == HISCOX)
    ensures HISCOX in APPETITE_BY_KEY && APPETITE_BY_KEY[HISCOX][MEA] == Cold
  {
    forall s | s in APPETITE_BY_KEY
      ensures LATAM in APPETITE_BY_KEY[s] && APPETITE_BY_KEY[s][LATAM] == AppetiteLevel.Declined
      ensures MEA in APPETITE_BY_KEY[s] && (APPETITE_BY_KEY[s][MEA] != AppetiteLevel.Declined <==> s == HISCOX)
    {
      assert s == BEAZLEY || s == HISCOX || s == BRIT || s == CHAUCER || s == TOKIO_MARINE_KILN || s == CANOPIUS;
    }
  }

  lemma AxesDistinct()
    ensures Distinct(SYNDICATES) && Distinct(TERRITORIES)
  {}

  /** The exported `syndicateAppetiteMatrix`: 36 cells; every pair of the two
      axes appears exactly once; no cell falls back to the default because
      every row is complete. */
  lemma {:induction false} ConstantMatrixShape()
    ensures |Matrix(SYNDICATES, TERRITORIES, APPETITE_BY_KEY)| == 36
    ensures forall s, t :: s in SYNDICATES && t in TERRITORIES ==>
      SyndicateAppetiteCell(s, t, APPETITE_BY_KEY[s][t]) in Matrix(SYNDICATES, TERRITORIES, APPETITE_BY_KEY)
    ensures forall k1, k2 :: 0 <= k1 < k2 < |Matrix(SYNDICATES, TERRITORIES, APPETITE_BY_KEY)| ==>
      Matrix(SYNDICATES, TERRITORIES, APPETITE_BY_KEY)[k1].syndicate != Matrix(SYNDICATES, TERRITORIES, APPETITE_BY_KEY)[k2].syndicate ||
      Matrix(SYNDICATES, TERRITORIES, APPETITE_BY_KEY)[k1].territory != Matrix(SYNDICATES, TERRITORIES, APPETITE_BY_KEY)[k2].territory
  {
    TableCoversAxes();
    AxesDistinct();
    MatrixLength(SYNDICATES, TERRITORIES, APPETITE_BY_KEY);
    MatrixPairsUnique(SYNDICATES, TERRITORIES, APPETITE_BY_KEY);
    forall s, t | s in SYNDICATES && t in TERRITORIES
      ensures SyndicateAppetiteCell(s, t, APPETITE_BY_KEY[s][t]) in Matrix(SYNDICATES, TERRITORIES, APPETITE_BY_KEY)
    {
      MatrixCellsComplete(SYNDICATES, TERRITORIES, APPETITE_BY_KEY, s, t);
    }
  }

  /** No syndicate writes LATAM; Hiscox is the only one with MEA appetite, and it is cold. */
  lemma {:induction false} ConstantMatrixLatamAndMea()
    ensures forall c :: c in Matrix(SYNDICATES, TERRITORIES, APPETITE_BY_KEY) && c.territory == LATAM ==>
      c.appetite == AppetiteLevel.Declined
    ensures forall c :: c in Matrix(SYNDICATES, TERRITORIES, APPETITE_BY_KEY) && c.territory == MEA ==>
      (c.appetite != AppetiteLevel.Declined <==> c.syndicate == HISCOX)
    ensures SyndicateAppetiteCell(HISCOX, MEA, Cold) in Matrix(SYNDICATES, TERRITORIES, APPETITE_BY_KEY)
  {
    MatrixCellsSound(SYNDICATES, TERRITORIES, APPETITE_BY_KEY);
    TableLatamAndMea();
    assert HISCOX in SYNDICATES;
    MatrixCellsComplete(SYNDICATES, TERRITORIES, APPETITE_BY_KEY, HISCOX, MEA);
  }
}
