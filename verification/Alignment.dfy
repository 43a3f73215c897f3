/**
 The global alignment of two step lists (`VariantDetector.semantic_align`): the
 table of best scores, the traceback through it, and why the traceback is an
 alignment no other alignment outscores.  Scores are reals; the similarity of
 two steps and the gap penalty are parameters.
 */
module Alignment {
  import opened Common

  /** One aligned position: an index of each side, or of one side only. */
  datatype Column = Column(a: Option<nat>, b: Option<nat>)

  type Similarity = (nat, nat) -> real

  /** `cols` leads from (i, j) to (m, n): every index of either side in between
      appears once, in order, and no column is empty on both sides. */
  ghost predicate Aligns(cols: seq<Column>, i: nat, j: nat, m: nat, n: nat)
    decreases |cols|
  {
    if cols == [] then i == m && j == n else
      match cols[0]
      case Column(Some(x), Some(y)) => x == i && y == j && Aligns(cols[1..], i + 1, j + 1, m, n)
      case Column(Some(x), None) => x == i && Aligns(cols[1..], i + 1, j, m, n)
      case Column(None, Some(y)) => y == j && Aligns(cols[1..], i, j + 1, m, n)
      case Column(None, None) => false
  }

  ghost function ColumnScore(c: Column, sim: Similarity, gap: real): real {
    if c.a.Some? && c.b.Some? then sim(c.a.value, c.b.value) else gap
  }

  ghost function Score(cols: seq<Column>, sim: Similarity, gap: real): real {
    if cols == [] then 0.0 else ColumnScore(cols[0], sim, gap) + Score(cols[1..], sim, gap)
  }

  function Max3(x: real, y: real, z: real): real {
    var xy := if x >= y then x else y;
    if xy >= z then xy else z
  }

  /** The score of `k` steps left alone. */
  function Gaps(k: nat, gap: real): real {
    if k == 0 then 0.0 else Gaps(k - 1, gap) + gap
  }

  lemma {:induction false} GapsIsProduct(k: nat, gap: real)
    ensures Gaps(k, gap) == k as real * gap
  {
    if k > 0 {
      GapsIsProduct(k - 1, gap);
      assert k as real == (k - 1) as real + 1.0;
      assert (k - 1) as real * gap + gap == ((k - 1) as real + 1.0) * gap;
    }
  }

  /** The cell (i, j) of the score table. */
  function Best(i: nat, j: nat, sim: Similarity, gap: real): real
    decreases i + j
  {
    if i == 0 then Gaps(j, gap)
    else if j == 0 then Gaps(i, gap)
    else Max3(Best(i - 1, j - 1, sim, gap) + sim(i - 1, j - 1),
              Best(i - 1, j, sim, gap) + gap,
              Best(i, j - 1, sim, gap) + gap)
  }

  lemma {:induction false} InnerCell(i: nat, j: nat, sim: Similarity, gap: real)
    requires i > 0 && j > 0
    ensures Best(i, j, sim, gap) >= Best(i - 1, j - 1, sim, gap) + sim(i - 1, j - 1)
    ensures Best(i, j, sim, gap) >= Best(i - 1, j, sim, gap) + gap
    ensures Best(i, j, sim, gap) >= Best(i, j - 1, sim, gap) + gap
  {
  }

  /** Each column moves to a cell that scores at least as much. */
  lemma {:induction false} BestStep(i: nat, j: nat, sim: Similarity, gap: real)
    ensures Best(i, j, sim, gap) + sim(i, j) <= Best(i + 1, j + 1, sim, gap)
    ensures Best(i, j, sim, gap) + gap <= Best(i + 1, j, sim, gap)
    ensures Best(i, j, sim, gap) + gap <= Best(i, j + 1, sim, gap)
  {
    InnerCell(i + 1, j + 1, sim, gap);
    if j > 0 { InnerCell(i + 1, j, sim, gap); }
    if i > 0 { InnerCell(i, j + 1, sim, gap); }
  }

  /** The cell the traceback moves to, and the column it takes. */
  ghost function TraceColumn(i: nat, j: nat, sim: Similarity, gap: real): Column
    requires i > 0 || j > 0
  {
    if i > 0 && j > 0 && Best(i, j, sim, gap) == Best(i - 1, j - 1, sim, gap) + sim(i - 1, j - 1) then
      Column(Some(i - 1), Some(j - 1))
    else if i > 0 && (j == 0 || Best(i - 1, j, sim, gap) + gap == Best(i, j, sim, gap)) then
      Column(Some(i - 1), None)
    else
      Column(None, Some(j - 1))
  }

  /** The traceback from the cell (i, j): a pairing where it explains the score,
      else a step of the first side alone, else one of the second. */
  ghost function Traced(i: nat, j: nat, sim: Similarity, gap: real): seq<Column>
    decreases i + j
  {
    if i == 0 && j == 0 then [] else
      var c := TraceColumn(i, j, sim, gap);
      Traced(if c.a.Some? then i - 1 else i, if c.b.Some? then j - 1 else j, sim, gap) + [c]
  }

  lemma {:induction false} TraceColumnScores(i: nat, j: nat, sim: Similarity, gap: real)
    requires i > 0 || j > 0
    ensures
      var c := TraceColumn(i, j, sim, gap);
      var i', j' := if c.a.Some? then i - 1 else i, if c.b.Some? then j - 1 else j;
      Best(i, j, sim, gap) == Best(i', j', sim, gap) + ColumnScore(c, sim, gap)
  {
  }

  lemma {:induction false} AlignsConcat(p: seq<Column>, q: seq<Column>,
                                        i: nat, j: nat, k: nat, l: nat, m: nat, n: nat,
                                        sim: Similarity, gap: real)
    requires Aligns(p, i, j, k, l) && Aligns(q, k, l, m, n)
    ensures Aligns(p + q, i, j, m, n)
    ensures Score(p + q, sim, gap) == Score(p, sim, gap) + Score(q, sim, gap)
    decreases |p|
  {
    if p == [] {
      assert p + q == q;
    } else {
      assert (p + q)[1..] == p[1..] + q;
      var i', j' := if p[0].a.Some? then i + 1 else i, if p[0].b.Some? then j + 1 else j;
      AlignsConcat(p[1..], q, i', j', k, l, m, n, sim, gap);
    }
  }

  /** What the rest of the repository relies on: the traceback is a monotone
      global alignment, and its score is the table's last cell. */
  lemma {:induction false} TracedAligns(i: nat, j: nat, sim: Similarity, gap: real)
    ensures Aligns(Traced(i, j, sim, gap), 0, 0, i, j)
    ensures Score(Traced(i, j, sim, gap), sim, gap) == Best(i, j, sim, gap)
    decreases i + j
  {
    if i > 0 || j > 0 {
      var c := TraceColumn(i, j, sim, gap);
      var i', j' := if c.a.Some? then i - 1 else i, if c.b.Some? then j - 1 else j;
      TracedAligns(i', j', sim, gap);
      TraceColumnScores(i, j, sim, gap);
      LastColumn(c, i', j', i, j, sim, gap);
      AlignsConcat(Traced(i', j', sim, gap), [c], 0, 0, i', j', i, j, sim, gap);
    }
  }

  lemma LastColumn(c: Column, i: nat, j: nat, m: nat, n: nat, sim: Similarity, gap: real)
    requires c.a.Some? || c.b.Some?
    requires c.a.Some? ==> c.a.value == i
    requires c.b.Some? ==> c.b.value == j
    requires m == (if c.a.Some? then i + 1 else i) && n == (if c.b.Some? then j + 1 else j)
    ensures Aligns([c], i, j, m, n) && Score([c], sim, gap) == ColumnScore(c, sim, gap)
  {
    assert [c][1..] == [];
  }

  /** Every alignment of the rest costs at most what the table still allows. */
  lemma {:induction false} NoneBetter(cols: seq<Column>, i: nat, j: nat, m: nat, n: nat, sim: Similarity, gap: real)
    requires Aligns(cols, i, j, m, n)
    ensures Best(i, j, sim, gap) + Score(cols, sim, gap) <= Best(m, n, sim, gap)
    decreases |cols|
  {
    if cols != [] {
      var i', j' := if cols[0].a.Some? then i + 1 else i, if cols[0].b.Some? then j + 1 else j;
      BestStep(i, j, sim, gap);
      NoneBetter(cols[1..], i', j', m, n, sim, gap);
    }
  }

  /** The traceback is optimal among all monotone global alignments. */
  lemma TracedIsOptimal(other: seq<Column>, m: nat, n: nat, sim: Similarity, gap: real)
    requires Aligns(other, 0, 0, m, n)
    ensures Score(other, sim, gap) <= Score(Traced(m, n, sim, gap), sim, gap)
  {
    NoneBetter(other, 0, 0, m, n, sim, gap);
    TracedAligns(m, n, sim, gap);
  }

  ghost predicate FilledTo(table: array2<real>, i: nat, upTo: nat, sim: Similarity, gap: real)
    requires i < table.Length0 && upTo <= table.Length1
    reads table
  {
    forall y: nat | y < upTo :: table[i, y] == Best(i, y, sim, gap)
  }

  ghost predicate RowFilled(table: array2<real>, i: nat, sim: Similarity, gap: real)
    requires i < table.Length0
    reads table
  {
    FilledTo(table, i, table.Length1, sim, gap)
  }

  /** Row `i` of the table from the row above it. */
  method FillRow(table: array2<real>, i: nat, sim: Similarity, gap: real)
    requires 0 < i < table.Length0 && 0 < table.Length1
    requires RowFilled(table, i - 1, sim, gap)
    modifies table
    ensures RowFilled(table, i, sim, gap)
    ensures forall x, y | 0 <= x < table.Length0 && x != i && 0 <= y < table.Length1 :: table[x, y] == old(table[x, y])
  {
    GapsIsProduct(i, gap);
    table[i, 0] := i as real * gap;
    for j := 1 to table.Length1
      invariant RowFilled(table, i - 1, sim, gap)
      invariant FilledTo(table, i, j, sim, gap)
      invariant forall x, y | 0 <= x < table.Length0 && x != i && 0 <= y < table.Length1 :: table[x, y] == old(table[x, y])
    {
      var cell := Max3(table[i - 1, j - 1] + sim(i - 1, j - 1), table[i - 1, j] + gap, table[i, j - 1] + gap);
      assert cell == Best(i, j, sim, gap);
      table[i, j] := cell;
    }
  }

  ghost predicate Filled(table: array2<real>, m: nat, n: nat, sim: Similarity, gap: real)
    reads table
  {
    table.Length0 == m + 1 && table.Length1 == n + 1
    && forall x: nat | x <= m :: RowFilled(table, x, sim, gap)
  }

  /** The table of best scores, filled row by row. */
  method ScoreTable(m: nat, n: nat, sim: Similarity, gap: real) returns (table: array2<real>)
    ensures fresh(table) && Filled(table, m, n, sim, gap)
  {
    table := new real[m + 1, n + 1]((_, _) => 0.0);
    for j := 0 to n + 1
      invariant FilledTo(table, 0, j, sim, gap)
    {
      GapsIsProduct(j, gap);
      table[0, j] := j as real * gap;
    }
    assert RowFilled(table, 0, sim, gap);
    for i := 1 to m + 1
      invariant forall x: nat | x < i :: RowFilled(table, x, sim, gap)
    {
      label before:
      FillRow(table, i, sim, gap);
      forall x: nat | x < i
        ensures RowFilled(table, x, sim, gap)
      {
        assert old@before(RowFilled(table, x, sim, gap));
      }
    }
  }

  /** One step of the traceback. */
  method TraceStep(table: array2<real>, m: nat, n: nat, i: nat, j: nat, sim: Similarity, gap: real)
    returns (c: Column)
    requires Filled(table, m, n, sim, gap)
    requires i <= m && j <= n && (i > 0 || j > 0)
    ensures c == TraceColumn(i, j, sim, gap)
  {
    assert RowFilled(table, i, sim, gap);
    assert i > 0 ==> RowFilled(table, i - 1, sim, gap);
    if i > 0 && j > 0 && table[i, j] == table[i - 1, j - 1] + sim(i - 1, j - 1) {
      c := Column(Some(i - 1), Some(j - 1));
    } else if i > 0 && (j == 0 || table[i - 1, j] + gap == table[i, j]) {
      c := Column(Some(i - 1), None);
    } else {
      c := Column(None, Some(j - 1));
    }
  }

  lemma {:induction false} TraceUnfolds(i: nat, j: nat, aligned: seq<Column>, sim: Similarity, gap: real)
    requires i > 0 || j > 0
    ensures
      var c := TraceColumn(i, j, sim, gap);
      var i', j' := if c.a.Some? then i - 1 else i, if c.b.Some? then j - 1 else j;
      Traced(i, j, sim, gap) + Reversed(aligned) == Traced(i', j', sim, gap) + Reversed(aligned + [c])
  {
    var c := TraceColumn(i, j, sim, gap);
    var i', j' := if c.a.Some? then i - 1 else i, if c.b.Some? then j - 1 else j;
    ReversedSnoc(aligned, c);
    assert Traced(i', j', sim, gap) + [c] + Reversed(aligned) == Traced(i', j', sim, gap) + ([c] + Reversed(aligned));
  }

  /** Fill the table, trace back from its last cell, reverse. */
  method SemanticAlign(m: nat, n: nat, sim: Similarity, gap: real) returns (cols: seq<Column>)
    ensures cols == Traced(m, n, sim, gap)
  {
    var table := ScoreTable(m, n, sim, gap);
    var aligned: seq<Column> := [];
    var i, j := m, n;
    while i > 0 || j > 0
      invariant 0 <= i <= m && 0 <= j <= n && Filled(table, m, n, sim, gap)
      invariant Traced(i, j, sim, gap) + Reversed(aligned) == Traced(m, n, sim, gap)
      decreases i + j
    {
      var c := TraceStep(table, m, n, i, j, sim, gap);
      TraceUnfolds(i, j, aligned, sim, gap);
      i, j := if c.a.Some? then i - 1 else i, if c.b.Some? then j - 1 else j;
      aligned := aligned + [c];
    }
    cols := Reversed(aligned);
  }
}
