/** Step 3, `identificar_colunas_multivalor`: a scan over the labels, in column order, that looks
    each label up in the frame and collects it when what the lookup returns holds a text cell with
    a comma. */
module Detect {
  import opened Tables

  /** `isinstance(x, str) and ',' in x`. */
  predicate IsMultiValueCell(c: Cell) {
    c.Str? && ',' in c.text
  }

  /** `.apply(...).any()` on a single column. */
  predicate IsMultiValueColumn(c: Column) {
    exists j :: 0 <= j < |c.cells| && IsMultiValueCell(c.cells[j])
  }

  /** `dataframe[coluna].apply(...).any()`. A label carried by one column selects that column. A
      label carried by several columns selects a frame, whose `apply` hands the test whole
      columns, none of them a string, so the test is false for that label. */
  predicate IsMultiValueLabel(t: Table, name: string) {
    Select(t, name).Ok? && IsMultiValueColumn(Select(t, name).value)
  }

  /** The test the scan applies to the column at each position. */
  function Qualifies(t: Table): Column -> bool {
    (c: Column) => IsMultiValueLabel(t, c.name)
  }

  /** The labels of the columns that pass the test p, in column order. */
  function Collect(cols: Table, p: Column -> bool): seq<string>
    decreases |cols|
  {
    if |cols| == 0 then []
    else Collect(cols[..|cols| - 1], p) + (if p(cols[|cols| - 1]) then [cols[|cols| - 1].name] else [])
  }

  /** The list the function returns: every label of the frame, in column order, that passes the
      test on the whole frame. */
  function MultiValueColumns(t: Table): seq<string> {
    Collect(t, Qualifies(t))
  }

  /** A label qualifies exactly when one column carries it and that column holds a multi-value
      cell. */
  lemma MultiValueLabelIff(t: Table, name: string)
    ensures IsMultiValueLabel(t, name) <==>
      exists i :: 0 <= i < |t| && t[i].name == name && IsMultiValueColumn(t[i]) &&
        (forall j :: 0 <= j < |t| && t[j].name == name ==> j == i)
  {
    if Select(t, name).Ok? {
      var i := SelectIndex(t, name);
    } else {
      forall i | 0 <= i < |t| && t[i].name == name && (forall j :: 0 <= j < |t| && t[j].name == name ==> j == i)
        ensures false
      {
        SelectUnique(t, name, i);
      }
    }
  }

  /** The collected labels are, position by position, those of the passing columns, in the order
      the columns appear. */
  lemma {:induction false} CollectInOrder(cols: Table, p: Column -> bool)
    ensures |Collect(cols, p)| == |Where(cols, p)|
    ensures forall k :: 0 <= k < |Collect(cols, p)| ==> Collect(cols, p)[k] == cols[Where(cols, p)[k]].name
    decreases |cols|
  {
    if |cols| > 0 {
      var init := cols[..|cols| - 1];
      CollectInOrder(init, p);
      var ix := Where(init, p);
      forall k | 0 <= k < |ix| ensures cols[ix[k]] == init[ix[k]] {
      }
    }
  }

  /** A label is collected exactly when some column carrying it passes the test. */
  lemma {:induction false} CollectMembers(cols: Table, p: Column -> bool)
    ensures forall name :: name in Collect(cols, p) <==>
      exists i :: 0 <= i < |cols| && cols[i].name == name && p(cols[i])
    decreases |cols|
  {
    if |cols| > 0 {
      var init := cols[..|cols| - 1];
      CollectMembers(init, p);
      forall name ensures name in Collect(cols, p) <==>
        exists i :: 0 <= i < |cols| && cols[i].name == name && p(cols[i])
      {
        if exists i :: 0 <= i < |cols| && cols[i].name == name && p(cols[i]) {
          var i :| 0 <= i < |cols| && cols[i].name == name && p(cols[i]);
          if i < |cols| - 1 {
            assert init[i] == cols[i];
          }
        }
        if name in Collect(init, p) {
          var i :| 0 <= i < |init| && init[i].name == name && p(init[i]);
          assert cols[i] == init[i];
        }
      }
    }
  }

  /** The result is, position by position, the labels of exactly the qualifying columns, taken in
      the order the columns appear (Where lists those positions in increasing order). */
  lemma MultiValueColumnsInOrder(t: Table)
    ensures |MultiValueColumns(t)| == |Where(t, Qualifies(t))|
    ensures forall k :: 0 <= k < |MultiValueColumns(t)| ==>
      MultiValueColumns(t)[k] == t[Where(t, Qualifies(t))[k]].name
  {
    CollectInOrder(t, Qualifies(t));
  }

  /** A label is collected if and only if exactly one column carries it and that column holds a
      multi-value cell. */
  lemma MultiValueColumnsMembers(t: Table)
    ensures forall name :: name in MultiValueColumns(t) <==>
      exists i :: 0 <= i < |t| && t[i].name == name && IsMultiValueColumn(t[i]) &&
        (forall j :: 0 <= j < |t| && t[j].name == name ==> j == i)
  {
    CollectMembers(t, Qualifies(t));
    forall name ensures name in MultiValueColumns(t) <==>
      exists i :: 0 <= i < |t| && t[i].name == name && IsMultiValueColumn(t[i]) &&
        (forall j :: 0 <= j < |t| && t[j].name == name ==> j == i)
    {
      MultiValueLabelIff(t, name);
      if name in MultiValueColumns(t) {
        var i :| 0 <= i < |t| && t[i].name == name && Qualifies(t)(t[i]);
      }
    }
  }

  /** A label that two columns carry is never collected, whatever the columns hold. */
  lemma SharedLabelSkipped(t: Table, i: nat, j: nat)
    requires i < j < |t| && t[i].name == t[j].name
    ensures t[i].name !in MultiValueColumns(t)
  {
    MultiValueColumnsMembers(t);
  }

  /** The result never lists a label twice. */
  lemma NoDuplicateColumns(t: Table)
    ensures forall a, b :: 0 <= a < b < |MultiValueColumns(t)| ==>
      MultiValueColumns(t)[a] != MultiValueColumns(t)[b]
  {
    var columns := MultiValueColumns(t);
    MultiValueColumnsInOrder(t);
    var ix := Where(t, Qualifies(t));
    forall a, b | 0 <= a < b < |columns| ensures columns[a] != columns[b] {
      assert Qualifies(t)(t[ix[a]]);
      var i := SelectIndex(t, t[ix[a]].name);
    }
  }

  /** A table without text cells (all numbers or missing values) has no multi-value column. */
  lemma NoTextNoMultiValue(t: Table)
    requires forall i, j :: 0 <= i < |t| && 0 <= j < |t[i].cells| ==> !t[i].cells[j].Str?
    ensures MultiValueColumns(t) == []
  {
    forall i | 0 <= i < |t| ensures !Qualifies(t)(t[i]) {
      if Select(t, t[i].name).Ok? {
        var k := SelectIndex(t, t[i].name);
      }
    }
    WhereNone(t, Qualifies(t));
    CollectInOrder(t, Qualifies(t));
  }

  /** `identificar_colunas_multivalor(dataframe)`: looks each label up in the frame and returns
      the list it built; it modifies nothing. */
  method DetectMultiValueColumns(df: DataFrame) returns (columns: seq<string>)
    ensures columns == MultiValueColumns(df.table)
    ensures forall name :: name in columns <==>
      exists i :: 0 <= i < |df.table| && df.table[i].name == name && IsMultiValueColumn(df.table[i]) &&
        (forall j :: 0 <= j < |df.table| && df.table[j].name == name ==> j == i)
  {
    var t := df.table;
    columns := [];
    var i := 0;
    while i < |t|
      invariant 0 <= i <= |t|
      invariant columns == Collect(t[..i], Qualifies(t))
    {
      var column := t[i].name;
      var selected := Select(t, column);
      assert t[..i + 1][..i] == t[..i];
      if selected.Ok? && IsMultiValueColumn(selected.value) {
        columns := columns + [column];
      }
      i := i + 1;
    }
    assert t[..i] == t;
    MultiValueColumnsMembers(t);
  }
}
