/** Step 2, `valores_nulos`: the missing cells of one named column are replaced by a given value. */
module NullFill {
  import opened Tables

  /** `Series.fillna(v)`. */
  function FillCells(cells: seq<Cell>, v: Cell): seq<Cell> {
    seq(|cells|, j requires 0 <= j < |cells| => if cells[j].Null? then v else cells[j])
  }

  /** `dataframe[column] = dataframe[column].fillna(v)`: fails with a KeyError when no column has
      the label; otherwise fills the labelled column and keeps every other one. */
  function FillNulls(t: Table, column: string, v: Cell): Result<Table> {
    if column !in Names(t) then Err(UndefinedColumn(column))
    else Ok(seq(|t|, i requires 0 <= i < |t| =>
      if t[i].name == column then Column(column, FillCells(t[i].cells, v)) else t[i]))
  }

  /** The fill fails exactly when the column is absent. Otherwise it keeps the columns, their
      order and their labels, leaves every other column as it was, and in the target column turns
      each missing cell into `v` and keeps each present one. */
  lemma FillNullsSpec(t: Table, column: string, v: Cell)
    ensures FillNulls(t, column, v).Err? <==> forall i :: 0 <= i < |t| ==> t[i].name != column
    ensures FillNulls(t, column, v).Err? ==> FillNulls(t, column, v).error == UndefinedColumn(column)
    ensures FillNulls(t, column, v).Ok? ==>
      var r := FillNulls(t, column, v).value;
      && |r| == |t|
      && (forall i :: 0 <= i < |t| ==> r[i].name == t[i].name && |r[i].cells| == |t[i].cells|)
      && (forall i :: 0 <= i < |t| && t[i].name != column ==> r[i] == t[i])
      && (forall i, j :: 0 <= i < |t| && t[i].name == column && 0 <= j < |t[i].cells| ==>
            r[i].cells[j] == if t[i].cells[j].Null? then v else t[i].cells[j])
  {
    if column !in Names(t) {
      forall i | 0 <= i < |t| ensures t[i].name != column {
        assert Names(t)[i] == t[i].name;
      }
    } else {
      var i :| 0 <= i < |Names(t)| && Names(t)[i] == column;
      assert t[i].name == column;
    }
  }

  /** With a value that is not itself missing, no missing cell is left in the target column, and
      every row keeps its length. */
  lemma FillLeavesNoNull(t: Table, column: string, v: Cell, rows: nat)
    requires !v.Null?
    requires Rectangular(t, rows)
    requires FillNulls(t, column, v).Ok?
    ensures Rectangular(FillNulls(t, column, v).value, rows)
    ensures forall i, j :: 0 <= i < |t| && t[i].name == column && 0 <= j < rows ==>
      !FillNulls(t, column, v).value[i].cells[j].Null?
  {
    FillNullsSpec(t, column, v);
  }

  /** Filling is idempotent. */
  lemma FillIdempotent(t: Table, column: string, v: Cell)
    requires FillNulls(t, column, v).Ok?
    ensures FillNulls(FillNulls(t, column, v).value, column, v) == FillNulls(t, column, v)
  {
    var r := FillNulls(t, column, v).value;
    FillNullsSpec(t, column, v);
    FillNullsSpec(r, column, v);
    var r2 := FillNulls(r, column, v).value;
    forall i | 0 <= i < |t| ensures r2[i] == r[i] {
      if t[i].name == column {
        assert r2[i].cells == r[i].cells;
      }
    }
    assert r2 == r;
  }

  /** `valores_nulos(dataframe, column, subs_val)`: overwrites the target column of the frame in
      place; the frame is untouched when the column is missing and the KeyError is reported. */
  method FillNullsInPlace(df: DataFrame, column: string, v: Cell) returns (outcome: Result<()>)
    modifies df
    ensures FillNulls(old(df.table), column, v).Err? ==>
      outcome == Err(FillNulls(old(df.table), column, v).error) && df.table == old(df.table)
    ensures FillNulls(old(df.table), column, v).Ok? ==>
      outcome == Ok(()) && df.table == FillNulls(old(df.table), column, v).value
  {
    var filled := FillNulls(df.table, column, v);
    if filled.Err? {
      return Err(filled.error);
    }
    df.table := filled.value;
    outcome := Ok(());
  }
}
