/** Step 4, `one_hot_encoding_multivalor`: each listed column is replaced by one 0/1 indicator
    column per distinct comma-separated token it holds, named `{column}_{token.lower()}`. */
module Expand {
  import opened Strings
  import opened Ordering
  import opened Tables
  import Detect

  /** The pieces `str.get_dummies(sep=',')` sees in one cell. A missing cell is first filled with
      the empty string; in a column mixing text and numbers the numbers are turned into their
      decimal text; the result is split on commas. */
  function CellPieces(c: Cell): seq<string> {
    match c
    case Null => [""]
    case Num(n) => [IntString(n)]
    case Str(s) => Split(s, ',')
  }

  /** The presence test of get_dummies: the token is non-empty and is one of the row's pieces. */
  predicate HasToken(c: Cell, tok: string) {
    tok != "" && tok in CellPieces(c)
  }

  /** The pieces of all the rows, row after row. */
  function ColumnPieces(cells: seq<Cell>): seq<string>
    decreases |cells|
  {
    if |cells| == 0 then [] else CellPieces(cells[0]) + ColumnPieces(cells[1..])
  }

  function NonEmpty(xs: seq<string>): (r: seq<string>)
    ensures forall x :: x in r <==> x in xs && x != ""
    decreases |xs|
  {
    if |xs| == 0 then [] else (if xs[0] == "" then [] else [xs[0]]) + NonEmpty(xs[1..])
  }

  /** The tokens get_dummies makes columns for: `sorted(tags - {""})`. */
  function DummyTokens(cells: seq<Cell>): seq<string> {
    SortedSet(NonEmpty(ColumnPieces(cells)))
  }

  /** The label `one_hot_encoding_multivalor` gives an indicator: `f"{coluna}_{col.lower()}"`. */
  function IndicatorName(column: string, tok: string): string {
    column + "_" + Lower(tok)
  }

  function Indicator(column: string, cells: seq<Cell>, tok: string): Column {
    Column(IndicatorName(column, tok),
      seq(|cells|, r requires 0 <= r < |cells| => if HasToken(cells[r], tok) then Num(1) else Num(0)))
  }

  /** `str.get_dummies(sep=',')` on one column, its columns renamed with the column's label as
      prefix. */
  function Dummies(c: Column): Table {
    var toks := DummyTokens(c.cells);
    seq(|toks|, k requires 0 <= k < |toks| => Indicator(c.name, c.cells, toks[k]))
  }

  /** Whether the `.str` accessor accepts the column: it holds some text, or it has no rows. */
  predicate IsStringColumn(c: Column) {
    |c.cells| == 0 || exists r :: 0 <= r < |c.cells| && c.cells[r].Str?
  }

  /** One pass of the loop of `one_hot_encoding_multivalor`: select the column, build its
      dummies, append them and drop the column. */
  function ExpandColumn(t: Table, column: string): Result<Table> {
    match Select(t, column)
    case Err(e) => Err(e)
    case Ok(c) =>
      if !IsStringColumn(c) then Err(NotStringColumn(column))
      else Ok(Without(t + Dummies(c), column))
  }

  /** The whole loop: the listed columns are expanded one after the other, each on the table the
      previous one left; the first failure ends the loop. */
  function ExpandAll(t: Table, columns: seq<string>): Result<Table>
    decreases |columns|
  {
    if |columns| == 0 then Ok(t)
    else
      match ExpandColumn(t, columns[0])
      case Err(e) => Err(e)
      case Ok(t') => ExpandAll(t', columns[1..])
  }

  lemma {:induction false} ColumnPiecesMembers(cells: seq<Cell>)
    ensures forall x :: x in ColumnPieces(cells) <==>
      exists r :: 0 <= r < |cells| && x in CellPieces(cells[r])
    decreases |cells|
  {
    if |cells| > 0 {
      ColumnPiecesMembers(cells[1..]);
      forall x ensures x in ColumnPieces(cells) <==>
        exists r :: 0 <= r < |cells| && x in CellPieces(cells[r])
      {
        if exists r :: 0 <= r < |cells| && x in CellPieces(cells[r]) {
          var r :| 0 <= r < |cells| && x in CellPieces(cells[r]);
          if r > 0 {
            assert cells[1..][r - 1] == cells[r];
          }
        }
        if x in ColumnPieces(cells[1..]) {
          var r :| 0 <= r < |cells[1..]| && x in CellPieces(cells[1..][r]);
          assert cells[r + 1] == cells[1..][r];
        }
      }
    }
  }

  /** The tokens are sorted, distinct, and are exactly the non-empty pieces found in some row. */
  lemma DummyTokensSpec(cells: seq<Cell>)
    ensures StrictlySorted(DummyTokens(cells))
    ensures forall tok :: tok in DummyTokens(cells) <==>
      exists r :: 0 <= r < |cells| && HasToken(cells[r], tok)
  {
    ColumnPiecesMembers(cells);
  }

  /** A token of a text cell is one of its comma-separated pieces, and holds no comma. */
  lemma TextTokens(s: string, tok: string)
    ensures HasToken(Str(s), tok) <==> tok != "" && tok in Split(s, ',')
    ensures HasToken(Str(s), tok) ==> ',' !in tok
  {
    JoinSplit(s, ',');
  }

  /** A missing cell has no token. */
  lemma NullHasNoToken(tok: string)
    ensures !HasToken(Null, tok)
  {
  }

  /** A number cell has exactly one token, its decimal text. */
  lemma NumberToken(n: int, tok: string)
    ensures HasToken(Num(n), tok) <==> tok == IntString(n)
  {
    IntStringHasNoComma(n);
  }

  /** The indicator columns: one per token, in token order, named after the column and the
      lowercased token, as long as the column, and holding 1 in a row exactly when that row has
      the token and 0 otherwise. */
  lemma DummiesSpec(c: Column)
    ensures |Dummies(c)| == |DummyTokens(c.cells)|
    ensures forall k :: 0 <= k < |Dummies(c)| ==>
      Dummies(c)[k].name == IndicatorName(c.name, DummyTokens(c.cells)[k]) &&
      |Dummies(c)[k].cells| == |c.cells|
    ensures forall k, r :: 0 <= k < |Dummies(c)| && 0 <= r < |c.cells| ==>
      (Dummies(c)[k].cells[r] == Num(1) <==> HasToken(c.cells[r], DummyTokens(c.cells)[k])) &&
      (Dummies(c)[k].cells[r] == Num(0) <==> !HasToken(c.cells[r], DummyTokens(c.cells)[k]))
  {
  }

  /** Every token found in some row has an indicator column, and a row with a missing cell holds 0
      in every indicator column. */
  lemma EveryTokenIndicated(c: Column, tok: string, r: nat)
    requires r < |c.cells| && HasToken(c.cells[r], tok)
    ensures exists k :: (0 <= k < |Dummies(c)| &&
      Dummies(c)[k].name == IndicatorName(c.name, tok) && Dummies(c)[k].cells[r] == Num(1))
  {
    DummyTokensSpec(c.cells);
    var toks := DummyTokens(c.cells);
    assert tok in toks;
    var k :| 0 <= k < |toks| && toks[k] == tok;
    assert Dummies(c)[k].cells[r] == Num(1);
  }

  lemma NullRowIsZero(c: Column, r: nat)
    requires r < |c.cells| && c.cells[r] == Null
    ensures forall k :: 0 <= k < |Dummies(c)| ==> Dummies(c)[k].cells[r] == Num(0)
  {
  }

  /** A row holds 0 in every indicator column exactly when its cell has no token: a missing cell,
      or a text cell whose comma-separated pieces are all empty. */
  lemma ZeroRowIff(c: Column, r: nat)
    requires r < |c.cells|
    ensures (forall k :: 0 <= k < |Dummies(c)| ==> Dummies(c)[k].cells[r] == Num(0)) <==>
      (forall tok :: !HasToken(c.cells[r], tok))
  {
    DummiesSpec(c);
    DummyTokensSpec(c.cells);
    if exists tok :: HasToken(c.cells[r], tok) {
      var tok :| HasToken(c.cells[r], tok);
      EveryTokenIndicated(c, tok, r);
    }
  }

  /** The cell "," has no token: both of its pieces are empty. */
  lemma CommaOnlyHasNoToken(tok: string)
    ensures !HasToken(Str(","), tok)
  {
    assert Split(",", ',') == ["", ""];
  }

  /** An indicator's name is longer than the column's label, so it never equals it. */
  lemma IndicatorNameDiffers(c: Column)
    ensures forall k :: 0 <= k < |Dummies(c)| ==> Dummies(c)[k].name != c.name
  {
    forall k | 0 <= k < |Dummies(c)| ensures Dummies(c)[k].name != c.name {
      assert |Dummies(c)[k].name| > |c.name|;
    }
  }

  /** Expansion of one column fails exactly as pandas does: a missing label, a label shared by
      several columns, or a labelled column without text. */
  lemma ExpandColumnErrors(t: Table, column: string)
    ensures ExpandColumn(t, column) == Err(UndefinedColumn(column)) <==>
      forall j :: 0 <= j < |t| ==> t[j].name != column
    ensures ExpandColumn(t, column).Err? ==>
      ExpandColumn(t, column).error in {UndefinedColumn(column), NotASeries(column), NotStringColumn(column)}
    ensures forall i, j :: 0 <= i < j < |t| && t[i].name == column && t[j].name == column ==>
      ExpandColumn(t, column) == Err(NotASeries(column))
    ensures forall i :: (0 <= i < |t| && t[i].name == column && !IsStringColumn(t[i]) &&
      (forall j :: 0 <= j < |t| && t[j].name == column ==> j == i)) ==>
      ExpandColumn(t, column) == Err(NotStringColumn(column))
  {
    SelectMissing(t, column);
    forall i, j | 0 <= i < j < |t| && t[i].name == column && t[j].name == column
      ensures ExpandColumn(t, column) == Err(NotASeries(column))
    {
      SelectShared(t, column, i, j);
    }
    forall i | 0 <= i < |t| && t[i].name == column &&
      (forall j :: 0 <= j < |t| && t[j].name == column ==> j == i)
      ensures Select(t, column) == Ok(t[i])
    {
      SelectUnique(t, column, i);
    }
  }

  /** A successful expansion comes from the one column carrying the label, which holds text; the
      result is the table without that column, the other columns keeping their order, followed by
      its indicator columns; no column of the result carries the label. */
  lemma ExpandColumnOk(t: Table, column: string) returns (i: nat)
    requires ExpandColumn(t, column).Ok?
    ensures i < |t| && t[i].name == column && IsStringColumn(t[i])
    ensures forall j :: 0 <= j < |t| && t[j].name == column ==> j == i
    ensures ExpandColumn(t, column).value == t[..i] + t[i + 1..] + Dummies(t[i])
    ensures forall j :: 0 <= j < |ExpandColumn(t, column).value| ==>
      ExpandColumn(t, column).value[j].name != column
  {
    i := SelectIndex(t, column);
    var d := Dummies(t[i]);
    assert ExpandColumn(t, column) == Ok(Without(t + d, column));
    WithoutAppend(t, d, column);
    WithoutSingle(t, column, i);
    IndicatorNameDiffers(t[i]);
    WithoutAbsent(d, column);
    LabelGone(t, column, i, d, t[..i] + t[i + 1..] + d);
  }

  lemma LabelGone(t: Table, column: string, i: nat, d: Table, r: Table)
    requires i < |t| && forall j :: 0 <= j < |t| && t[j].name == column ==> j == i
    requires forall k :: 0 <= k < |d| ==> d[k].name != column
    requires r == t[..i] + t[i + 1..] + d
    ensures forall j :: 0 <= j < |r| ==> r[j].name != column
  {
    forall j | 0 <= j < |r| ensures r[j].name != column {
      if j < i {
        assert r[j] == t[j];
      } else if j < |t| - 1 {
        assert r[j] == t[j + 1];
      } else {
        assert r[j] == d[j - (|t| - 1)];
      }
    }
  }

  /** Expansion keeps the row count: every column of the result is as long as the input's. */
  lemma ExpandColumnRectangular(t: Table, column: string, rows: nat)
    requires Rectangular(t, rows)
    requires ExpandColumn(t, column).Ok?
    ensures Rectangular(ExpandColumn(t, column).value, rows)
  {
    var i := ExpandColumnOk(t, column);
    var r := ExpandColumn(t, column).value;
    var d := Dummies(t[i]);
    DummiesSpec(t[i]);
    Parts(t, i, d, r);
    forall j | 0 <= j < |r| ensures |r[j].cells| == rows {
      if r[j] in t {
        var m :| 0 <= m < |t| && t[m] == r[j];
      } else {
        var k :| 0 <= k < |d| && d[k] == r[j];
      }
    }
  }

  /** Each column of the table without column i followed by d comes from one or the other. */
  lemma Parts(t: Table, i: nat, d: Table, r: Table)
    requires i < |t| && r == t[..i] + t[i + 1..] + d
    ensures forall j :: 0 <= j < |r| ==> r[j] in t || r[j] in d
  {
    forall j | 0 <= j < |r| ensures r[j] in t || r[j] in d {
      if j < i {
        assert r[j] == t[j];
      } else if j < |t| - 1 {
        assert r[j] == t[j + 1];
      } else {
        assert r[j] == d[j - (|t| - 1)];
      }
    }
  }

  lemma {:induction false} ExpandAllRectangular(t: Table, columns: seq<string>, rows: nat)
    requires Rectangular(t, rows)
    requires ExpandAll(t, columns).Ok?
    ensures Rectangular(ExpandAll(t, columns).value, rows)
    decreases |columns|
  {
    if |columns| > 0 {
      ExpandColumnRectangular(t, columns[0], rows);
      ExpandAllRectangular(ExpandColumn(t, columns[0]).value, columns[1..], rows);
    }
  }

  /** Every listed label names some multi-value column. */
  predicate AllMultiValued(t: Table, columns: seq<string>) {
    forall a :: 0 <= a < |columns| ==>
      exists i :: 0 <= i < |t| && t[i].name == columns[a] && Detect.IsMultiValueColumn(t[i])
  }

  /** A label listed twice is carried by two columns. */
  predicate RepeatsShared(t: Table, columns: seq<string>) {
    forall a, b :: 0 <= a < b < |columns| && columns[a] == columns[b] ==>
      exists i, j :: 0 <= i < j < |t| && t[i].name == columns[a] && t[j].name == columns[b]
  }

  /** Removing the expanded column i keeps every other column, shifted left past i. */
  lemma Shifted(t: Table, i: nat, d: Table, r: Table)
    requires i < |t| && r == t[..i] + t[i + 1..] + d
    ensures forall j :: 0 <= j < i ==> r[j] == t[j]
    ensures forall j :: i < j < |t| ==> r[j - 1] == t[j]
  {
  }

  /** After the first listed column is expanded, the remaining labels still meet the conditions of
      DetectedOnlyCollide in the new table. */
  lemma RestStillDetected(t: Table, columns: seq<string>, i: nat, d: Table, r: Table)
    requires |columns| > 0 && AllMultiValued(t, columns) && RepeatsShared(t, columns)
    requires i < |t| && t[i].name == columns[0]
    requires forall j :: 0 <= j < |t| && t[j].name == columns[0] ==> j == i
    requires r == t[..i] + t[i + 1..] + d
    ensures AllMultiValued(r, columns[1..]) && RepeatsShared(r, columns[1..])
  {
    forall a | 0 < a < |columns| ensures columns[a] != columns[0] {
    }
    Shifted(t, i, d, r);
    RestAllMultiValued(t, columns, i, d, r);
    RestRepeatsShared(t, columns, i, d, r);
  }

  lemma RestAllMultiValued(t: Table, columns: seq<string>, i: nat, d: Table, r: Table)
    requires |columns| > 0 && AllMultiValued(t, columns)
    requires i < |t| && forall a :: 0 < a < |columns| ==> columns[a] != t[i].name
    requires |r| >= |t| - 1
    requires forall j :: 0 <= j < i ==> r[j] == t[j]
    requires forall j :: i < j < |t| ==> r[j - 1] == t[j]
    ensures AllMultiValued(r, columns[1..])
  {
    var rest := columns[1..];
    forall a | 0 <= a < |rest|
      ensures exists j :: 0 <= j < |r| && r[j].name == rest[a] && Detect.IsMultiValueColumn(r[j])
    {
      var name := rest[a];
      assert name == columns[a + 1];
      var j :| 0 <= j < |t| && t[j].name == name && Detect.IsMultiValueColumn(t[j]);
      if j < i {
        assert r[j] == t[j];
      } else {
        assert r[j - 1] == t[j];
      }
    }
    assert forall a :: 0 <= a < |rest| ==>
      exists j :: 0 <= j < |r| && r[j].name == rest[a] && Detect.IsMultiValueColumn(r[j]);
  }

  lemma RestRepeatsShared(t: Table, columns: seq<string>, i: nat, d: Table, r: Table)
    requires |columns| > 0 && RepeatsShared(t, columns)
    requires i < |t| && forall a :: 0 < a < |columns| ==> columns[a] != t[i].name
    requires |r| >= |t| - 1
    requires forall j :: 0 <= j < i ==> r[j] == t[j]
    requires forall j :: i < j < |t| ==> r[j - 1] == t[j]
    ensures RepeatsShared(r, columns[1..])
  {
    var rest := columns[1..];
    forall a, b | 0 <= a < b < |rest| && rest[a] == rest[b]
      ensures exists p, q :: 0 <= p < q < |r| && r[p].name == rest[a] && r[q].name == rest[b]
    {
      assert rest[a] == columns[a + 1] && rest[b] == columns[b + 1];
      var p, q :| 0 <= p < q < |t| && t[p].name == columns[a + 1] && t[q].name == columns[b + 1];
      var p' := if p < i then p else p - 1;
      var q' := if q < i then q else q - 1;
      assert r[p'] == t[p] && r[q'] == t[q];
    }
  }

  /** Expanding labels that each name a multi-value column, where a label is listed twice only if
      two columns carry it, can fail only by selecting a frame instead of a column: because of a
      shared label, or because an indicator column created on the way carries the label of a
      column still to be expanded. */
  lemma {:induction false} DetectedOnlyCollide(t: Table, columns: seq<string>)
    requires AllMultiValued(t, columns)
    requires RepeatsShared(t, columns)
    ensures ExpandAll(t, columns).Err? ==> ExpandAll(t, columns).error.NotASeries?
    decreases |columns|
  {
    if |columns| > 0 {
      var column := columns[0];
      var i0 :| 0 <= i0 < |t| && t[i0].name == column && Detect.IsMultiValueColumn(t[i0]);
      ExpandColumnErrors(t, column);
      if ExpandColumn(t, column).Ok? {
        var i := ExpandColumnOk(t, column);
        var t' := ExpandColumn(t, column).value;
        var rest := columns[1..];
        RestStillDetected(t, columns, i, Dummies(t[i]), t');
        DetectedOnlyCollide(t', rest);
      } else {
        var r :| 0 <= r < |t[i0].cells| && Detect.IsMultiValueCell(t[i0].cells[r]);
        assert IsStringColumn(t[i0]);
      }
    }
  }

  /** A failure of the loop names one of the listed labels. */
  lemma {:induction false} ExpandAllErrorListed(t: Table, columns: seq<string>)
    ensures ExpandAll(t, columns).Err? ==> ExpandAll(t, columns).error.name in columns
    decreases |columns|
  {
    if |columns| > 0 {
      ExpandColumnErrors(t, columns[0]);
      if ExpandColumn(t, columns[0]).Ok? {
        ExpandAllErrorListed(ExpandColumn(t, columns[0]).value, columns[1..]);
      }
    }
  }

  /** The label has the form of an indicator name of one of the labels. */
  ghost predicate Indicated(labels: seq<string>, name: string) {
    exists c, tok :: c in labels && name == IndicatorName(c, tok)
  }

  /** A label carried by an indicator column is an indicator name of the expanded column. */
  lemma DummiesCarriers(c: Column, name: string)
    ensures Carriers(Dummies(c), name) > 0 ==> exists tok :: name == IndicatorName(c.name, tok)
  {
    if Carriers(Dummies(c), name) > 0 {
      var ix := Positions(Dummies(c), name);
      assert Labels(Dummies(c)[ix[0]], name);
      DummiesSpec(c);
    }
  }

  /** Expanding a column changes how many columns carry another label only by adding indicator
      columns, whose names are indicator names of the expanded column. */
  lemma ExpandColumnCarriers(t: Table, column: string, name: string)
    requires ExpandColumn(t, column).Ok? && name != column
    ensures Carriers(ExpandColumn(t, column).value, name) == Carriers(t, name) ||
      exists tok :: name == IndicatorName(column, tok)
  {
    var i := ExpandColumnOk(t, column);
    var d := Dummies(t[i]);
    CarriersAppend(t[..i] + t[i + 1..], d, name);
    CarriersRemove(t, i, name);
    DummiesCarriers(t[i], name);
  }

  /** How the labels of t relate to those of t0 after the labels `done` were expanded: each label
      not expanded is carried as often as in t0, or is an indicator name of an expanded label. */
  ghost predicate CarriersKept(t0: Table, t: Table, done: seq<string>) {
    forall n :: n !in done ==> Carriers(t, n) == Carriers(t0, n) || Indicated(done, n)
  }

  /** Expansion fails on a frame only when several columns carry the label. */
  lemma ExpandColumnShared(t: Table, column: string)
    requires ExpandColumn(t, column).Err? && ExpandColumn(t, column).error.NotASeries?
    ensures Carriers(t, column) >= 2
  {
    assert Select(t, column) == Err(NotASeries(column));
  }

  /** One more expansion keeps that relation. */
  lemma CollisionStep(t0: Table, t: Table, done: seq<string>, c: string)
    requires CarriersKept(t0, t, done)
    requires ExpandColumn(t, c).Ok?
    ensures CarriersKept(t0, ExpandColumn(t, c).value, done + [c])
  {
    var t' := ExpandColumn(t, c).value;
    var done' := done + [c];
    forall n | n !in done' ensures Carriers(t', n) == Carriers(t0, n) || Indicated(done', n) {
      assert n !in done && n != c;
      ExpandColumnCarriers(t, c, n);
      if Carriers(t', n) != Carriers(t, n) {
        var tok :| n == IndicatorName(c, tok);
        assert c in done';
      } else if Indicated(done, n) {
        var c', tok :| c' in done && n == IndicatorName(c', tok);
        assert c' in done';
      }
    }
  }

  /** The labels still to expand are distinct and none of them was expanded already. */
  ghost predicate Unexpanded(done: seq<string>, columns: seq<string>) {
    (forall a :: 0 <= a < |columns| ==> columns[a] !in done) &&
    (forall a, b :: 0 <= a < b < |columns| ==> columns[a] != columns[b])
  }

  /** Moving the first of distinct, not yet expanded labels to the expanded ones. */
  lemma RestUnexpanded(done: seq<string>, columns: seq<string>)
    requires |columns| > 0 && Unexpanded(done, columns)
    ensures columns[0] !in done && Unexpanded(done + [columns[0]], columns[1..])
  {
    var rest := columns[1..];
    forall a | 0 <= a < |rest| ensures rest[a] !in done + [columns[0]] {
      assert rest[a] == columns[a + 1];
    }
    forall a, b | 0 <= a < b < |rest| ensures rest[a] != rest[b] {
      assert rest[a] == columns[a + 1] && rest[b] == columns[b + 1];
    }
  }

  /** The step that fails on a frame fails for a label carried several times in t0 or for an
      indicator name. */
  lemma CollisionHere(t0: Table, t: Table, done: seq<string>, columns: seq<string>)
    requires CarriersKept(t0, t, done)
    requires |columns| > 0 && columns[0] !in done
    requires ExpandColumn(t, columns[0]).Err? && ExpandColumn(t, columns[0]).error.NotASeries?
    ensures Carriers(t0, columns[0]) >= 2 || Indicated(done + columns, columns[0])
  {
    var c := columns[0];
    ExpandColumnShared(t, c);
    if Indicated(done, c) {
      var c', tok :| c' in done && c == IndicatorName(c', tok);
      assert c' in done + columns;
    }
  }

  /** The loop, started from t0 and having expanded the labels `done` to reach t, fails on a frame
      only for a label that several columns of t0 carry or that is an indicator name of a label
      expanded before or during the rest of the loop. */
  ghost predicate FailsOnShared(t0: Table, t: Table, done: seq<string>, columns: seq<string>) {
    var r := ExpandAll(t, columns);
    r.Err? && r.error.NotASeries? ==> Carriers(t0, r.error.name) >= 2 || Indicated(done + columns, r.error.name)
  }

  /** A successful first step hands the bound on to the rest of the loop. */
  lemma CollisionOk(t0: Table, t: Table, done: seq<string>, columns: seq<string>)
    requires |columns| > 0 && ExpandColumn(t, columns[0]).Ok?
    requires FailsOnShared(t0, ExpandColumn(t, columns[0]).value, done + [columns[0]], columns[1..])
    ensures FailsOnShared(t0, t, done, columns)
  {
    ExpandAllOk(t, columns);
    assert done + [columns[0]] + columns[1..] == done + columns;
  }

  lemma ExpandAllOk(t: Table, columns: seq<string>)
    requires |columns| > 0 && ExpandColumn(t, columns[0]).Ok?
    ensures ExpandAll(t, columns) == ExpandAll(ExpandColumn(t, columns[0]).value, columns[1..])
  {
  }

  /** A failing first step is the failure of the loop. */
  lemma CollisionErr(t0: Table, t: Table, done: seq<string>, columns: seq<string>)
    requires CarriersKept(t0, t, done) && Unexpanded(done, columns)
    requires |columns| > 0 && ExpandColumn(t, columns[0]).Err?
    ensures FailsOnShared(t0, t, done, columns)
  {
    assert ExpandAll(t, columns) == ExpandColumn(t, columns[0]);
    if ExpandColumn(t, columns[0]).error.NotASeries? {
      RestUnexpanded(done, columns);
      CollisionHere(t0, t, done, columns);
    }
  }

  lemma {:induction false} ExpandAllCollision(t0: Table, t: Table, done: seq<string>, columns: seq<string>)
    requires CarriersKept(t0, t, done) && Unexpanded(done, columns)
    ensures FailsOnShared(t0, t, done, columns)
    decreases |columns|
  {
    if |columns| == 0 {
      assert ExpandAll(t, columns) == Ok(t);
    } else if ExpandColumn(t, columns[0]).Ok? {
      var c := columns[0];
      CollisionStep(t0, t, done, c);
      RestUnexpanded(done, columns);
      ExpandAllCollision(t0, ExpandColumn(t, c).value, done + [c], columns[1..]);
      CollisionOk(t0, t, done, columns);
    } else {
      CollisionErr(t0, t, done, columns);
    }
  }

  /** Expanding exactly the columns the detection step reports can fail only by selecting a
      frame instead of a column (pandas' AttributeError on `.str`): never because a label is
      missing and never because a column holds no text. The label that fails is a detected one,
      which exactly one column of the input carries, and it has the form `{c}_{token}` of an
      indicator name of a detected label c: the second column carrying it is an indicator the loop
      itself created. */
  lemma DetectedExpansionOnlyCollides(t: Table)
    ensures ExpandAll(t, Detect.MultiValueColumns(t)).Err? ==>
      var e := ExpandAll(t, Detect.MultiValueColumns(t)).error;
      e.NotASeries? && e.name in Detect.MultiValueColumns(t) &&
      (exists i :: 0 <= i < |t| && t[i].name == e.name && forall j :: 0 <= j < |t| && t[j].name == e.name ==> j == i) &&
      Indicated(Detect.MultiValueColumns(t), e.name)
  {
    var columns := Detect.MultiValueColumns(t);
    Detect.MultiValueColumnsMembers(t);
    Detect.NoDuplicateColumns(t);
    forall a | 0 <= a < |columns|
      ensures exists i :: 0 <= i < |t| && t[i].name == columns[a] && Detect.IsMultiValueColumn(t[i])
    {
      assert columns[a] in columns;
    }
    assert forall a :: 0 <= a < |columns| ==>
      exists i :: 0 <= i < |t| && t[i].name == columns[a] && Detect.IsMultiValueColumn(t[i]);
    assert AllMultiValued(t, columns);
    assert RepeatsShared(t, columns);
    DetectedOnlyCollide(t, columns);
    ExpandAllErrorListed(t, columns);
    forall a | 0 <= a < |columns| ensures Carriers(t, columns[a]) == 1 {
      assert columns[a] in columns;
      var i :| 0 <= i < |t| && t[i].name == columns[a] && Detect.IsMultiValueColumn(t[i]) &&
        (forall j :: 0 <= j < |t| && t[j].name == columns[a] ==> j == i);
      CarriersOne(t, columns[a], i);
    }
    UniqueLabelsCollide(t, columns);
  }

  /** Expanding distinct labels, each carried by exactly one column, fails on a frame only for an
      indicator name of one of them. */
  lemma UniqueLabelsCollide(t: Table, columns: seq<string>)
    requires forall a, b :: 0 <= a < b < |columns| ==> columns[a] != columns[b]
    requires forall a :: 0 <= a < |columns| ==> Carriers(t, columns[a]) == 1
    ensures ExpandAll(t, columns).Err? && ExpandAll(t, columns).error.NotASeries? ==>
      ExpandAll(t, columns).error.name in columns && Indicated(columns, ExpandAll(t, columns).error.name)
  {
    ExpandAllErrorListed(t, columns);
    assert CarriersKept(t, t, []) && Unexpanded([], columns);
    ExpandAllCollision(t, t, [], columns);
    assert [] + columns == columns;
    var r := ExpandAll(t, columns);
    if r.Err? && r.error.NotASeries? {
      var a :| 0 <= a < |columns| && columns[a] == r.error.name;
    }
  }

  /** The columns of an expansion are columns of the input or indicator columns. */
  predicate IsIndicator(c: Column) {
    forall r :: 0 <= r < |c.cells| ==> c.cells[r] == Num(0) || c.cells[r] == Num(1)
  }

  lemma IndicatorsOnly(c: Column)
    ensures forall k :: 0 <= k < |Dummies(c)| ==> IsIndicator(Dummies(c)[k])
  {
    DummiesSpec(c);
  }

  lemma ExpandColumnOrigin(t: Table, column: string)
    requires ExpandColumn(t, column).Ok?
    ensures forall j :: 0 <= j < |ExpandColumn(t, column).value| ==>
      ExpandColumn(t, column).value[j] in t || IsIndicator(ExpandColumn(t, column).value[j])
  {
    var i := ExpandColumnOk(t, column);
    var r := ExpandColumn(t, column).value;
    var d := Dummies(t[i]);
    Parts(t, i, d, r);
    IndicatorsOnly(t[i]);
  }

  lemma {:induction false} ExpandAllOrigin(t: Table, columns: seq<string>)
    requires ExpandAll(t, columns).Ok?
    ensures forall j :: 0 <= j < |ExpandAll(t, columns).value| ==>
      ExpandAll(t, columns).value[j] in t || IsIndicator(ExpandAll(t, columns).value[j])
    decreases |columns|
  {
    if |columns| > 0 {
      var r := ExpandColumn(t, columns[0]).value;
      ExpandColumnOrigin(t, columns[0]);
      ExpandAllOrigin(r, columns[1..]);
      var result := ExpandAll(t, columns).value;
      assert result == ExpandAll(r, columns[1..]).value;
      forall j | 0 <= j < |result| ensures result[j] in t || IsIndicator(result[j]) {
        if result[j] in r {
          var m :| 0 <= m < |r| && r[m] == result[j];
        }
      }
    }
  }

  /** A column named "a" holding "b,c" next to a column named "a_b" holding "x,y": both are
      detected, but expanding "a" creates a second column "a_b", so selecting "a_b" yields a
      frame and the step fails instead of overwriting or merging the columns. */
  lemma CollisionExample()
    ensures ExpandAll([Column("a", [Str("b,c")]), Column("a_b", [Str("x,y")])], ["a", "a_b"]) ==
      Err(NotASeries("a_b"))
  {
    var t := [Column("a", [Str("b,c")]), Column("a_b", [Str("x,y")])];
    var k := CollisionFirstStep(t);
    var t' := ExpandColumn(t, "a").value;
    SelectShared(t', "a_b", 0, k);
    assert ExpandAll(t', ["a_b"]) == Err(NotASeries("a_b"));
  }

  lemma CollisionFirstStep(t: Table) returns (k: nat)
    requires t == [Column("a", [Str("b,c")]), Column("a_b", [Str("x,y")])]
    ensures ExpandColumn(t, "a").Ok?
    ensures 0 < k < |ExpandColumn(t, "a").value|
    ensures ExpandColumn(t, "a").value[0].name == "a_b" && ExpandColumn(t, "a").value[k].name == "a_b"
  {
    SelectUnique(t, "a", 0);
    assert t[0].cells[0].Str?;
    var i := ExpandColumnOk(t, "a");
    CollisionToken(t[0].cells[0]);
    var k' := CollisionIndicator(t[0]);
    assert ExpandColumn(t, "a").value == [t[1]] + Dummies(t[0]);
    k := 1 + k';
  }

  /** A column "a" in which "b" is a token has an indicator named "a_b". */
  lemma CollisionIndicator(c: Column) returns (k: nat)
    requires c.name == "a" && |c.cells| > 0 && HasToken(c.cells[0], "b")
    ensures k < |Dummies(c)| && Dummies(c)[k].name == "a_b"
  {
    EveryTokenIndicated(c, "b", 0);
    k :| 0 <= k < |Dummies(c)| && Dummies(c)[k].name == IndicatorName(c.name, "b") && Dummies(c)[k].cells[0] == Num(1);
    IndicatorAB();
  }

  lemma IndicatorAB()
    ensures IndicatorName("a", "b") == "a_b"
  {
    assert Lower("b") == "b";
  }

  lemma CollisionToken(cell: Cell)
    requires cell == Str("b,c")
    ensures HasToken(cell, "b")
  {
    assert "b,c" == "b" + [','] + "c";
    SplitConcat("b", "c", ',');
  }

  lemma ExampleSplits()
    ensures Split("a,b", ',') == ["a", "b"]
    ensures Split("b,c", ',') == ["b", "c"]
    ensures Split("", ',') == [""]
  {
    SplitSingle("b", ',');
    assert "a,b"[1..] == ",b" && ",b"[1..] == "b";
    assert Split(",b", ',') == ["", "b"];
    assert ['a'] + "" == "a";
    assert ["", "b"][1..] == ["b"];
    SplitSingle("c", ',');
    assert "b,c"[1..] == ",c" && ",c"[1..] == "c";
    assert Split(",c", ',') == ["", "c"];
    assert ['b'] + "" == "b";
    assert ["", "c"][1..] == ["c"];
  }

  lemma ExampleTokens(cells: seq<Cell>)
    requires cells == [Str("a,b"), Str("b,c"), Str("")]
    ensures DummyTokens(cells) == ["a", "b", "c"]
  {
    ExampleSplits();
    var toks := ["a", "b", "c"];
    assert Less("a", "b") && Less("b", "c") && Less("a", "c");
    assert StrictlySorted(toks);
    DummyTokensSpec(cells);
    forall x ensures x in DummyTokens(cells) <==> x in toks {
      if x in toks {
        assert HasToken(cells[0], "a") && HasToken(cells[0], "b") && HasToken(cells[1], "c");
      }
    }
    SortedUnique(DummyTokens(cells), toks);
  }

  lemma ExampleIndicators(cells: seq<Cell>)
    requires cells == [Str("a,b"), Str("b,c"), Str("")]
    ensures Indicator("tags", cells, "a") == Column("tags_a", [Num(1), Num(0), Num(0)])
    ensures Indicator("tags", cells, "b") == Column("tags_b", [Num(1), Num(1), Num(0)])
    ensures Indicator("tags", cells, "c") == Column("tags_c", [Num(0), Num(1), Num(0)])
  {
    ExampleSplits();
    assert Lower("a") == "a" && Lower("b") == "b" && Lower("c") == "c";
    assert HasToken(cells[0], "a") && !HasToken(cells[1], "a") && !HasToken(cells[2], "a");
    IndicatorOfThree("tags", cells, "a", 1, 0, 0);
    assert HasToken(cells[0], "b") && HasToken(cells[1], "b") && !HasToken(cells[2], "b");
    IndicatorOfThree("tags", cells, "b", 1, 1, 0);
    assert !HasToken(cells[0], "c") && HasToken(cells[1], "c") && !HasToken(cells[2], "c");
    IndicatorOfThree("tags", cells, "c", 0, 1, 0);
  }

  /** The indicator of a three-row column, from the presence of the token in each row. */
  lemma IndicatorOfThree(column: string, cells: seq<Cell>, tok: string, b0: int, b1: int, b2: int)
    requires |cells| == 3
    requires b0 == (if HasToken(cells[0], tok) then 1 else 0)
    requires b1 == (if HasToken(cells[1], tok) then 1 else 0)
    requires b2 == (if HasToken(cells[2], tok) then 1 else 0)
    ensures Indicator(column, cells, tok) == Column(IndicatorName(column, tok), [Num(b0), Num(b1), Num(b2)])
  {
  }

  lemma ExampleDummies(c: Column)
    requires c == Column("tags", [Str("a,b"), Str("b,c"), Str("")])
    ensures Dummies(c) == [Column("tags_a", [Num(1), Num(0), Num(0)]),
                           Column("tags_b", [Num(1), Num(1), Num(0)]),
                           Column("tags_c", [Num(0), Num(1), Num(0)])]
  {
    ExampleTokens(c.cells);
    ExampleIndicators(c.cells);
  }

  /** Expanding a column holding "a,b", "b,c" and "" gives the columns `tags_a`, `tags_b` and
      `tags_c` in that order, the empty row holding 0 everywhere, and drops the column. */
  lemma ExpandExample()
    ensures ExpandAll([Column("tags", [Str("a,b"), Str("b,c"), Str("")])], ["tags"]) ==
      Ok([Column("tags_a", [Num(1), Num(0), Num(0)]),
          Column("tags_b", [Num(1), Num(1), Num(0)]),
          Column("tags_c", [Num(0), Num(1), Num(0)])])
  {
    var t := [Column("tags", [Str("a,b"), Str("b,c"), Str("")])];
    SelectUnique(t, "tags", 0);
    assert t[0].cells[0].Str?;
    assert IsStringColumn(t[0]);
    ExampleDummies(t[0]);
    var i := ExpandColumnOk(t, "tags");
    assert ExpandColumn(t, "tags").value == Dummies(t[0]);
  }

  /** The loop's first pass, as the method performs it: a failed selection or a column without
      text ends the loop with that error; otherwise the label is present in the concatenation
      and the loop goes on from the table without it. */
  lemma ExpandAllFirst(t: Table, columns: seq<string>)
    requires |columns| > 0
    ensures Select(t, columns[0]).Err? ==> ExpandAll(t, columns) == Err(Select(t, columns[0]).error)
    ensures Select(t, columns[0]).Ok? && !IsStringColumn(Select(t, columns[0]).value) ==>
      ExpandAll(t, columns) == Err(NotStringColumn(columns[0]))
    ensures Select(t, columns[0]).Ok? && IsStringColumn(Select(t, columns[0]).value) ==>
      var u := t + Dummies(Select(t, columns[0]).value);
      (exists k :: 0 <= k < |u| && u[k].name == columns[0]) &&
      ExpandAll(t, columns) == ExpandAll(Without(u, columns[0]), columns[1..])
  {
    if Select(t, columns[0]).Ok? {
      var k := SelectIndex(t, columns[0]);
      var u := t + Dummies(Select(t, columns[0]).value);
      assert u[k].name == columns[0];
    }
  }

  /** `one_hot_encoding_multivalor(dataframe, colunas_multivalor)`. The first expanded column
      rebinds the local frame to the fresh frame `pd.concat` builds, and each `drop(inplace=True)`
      changes only that fresh frame: the caller's frame is never modified, and it is returned
      itself when the list is empty. */
  method OneHotEncode(df: DataFrame, columns: seq<string>) returns (result: Result<DataFrame>)
    ensures ExpandAll(df.table, columns).Err? ==> result == Err(ExpandAll(df.table, columns).error)
    ensures ExpandAll(df.table, columns).Ok? ==>
      result.Ok? && result.value.table == ExpandAll(df.table, columns).value
    ensures result.Ok? && columns == [] ==> result.value == df
    ensures result.Ok? && columns != [] ==> fresh(result.value)
  {
    var dataframe := df;
    var i := 0;
    while i < |columns|
      invariant 0 <= i <= |columns|
      invariant ExpandAll(dataframe.table, columns[i..]) == ExpandAll(df.table, columns)
      invariant i == 0 ==> dataframe == df
      invariant i > 0 ==> fresh(dataframe)
    {
      var column := columns[i];
      ExpandAllFirst(dataframe.table, columns[i..]);
      var selected := Select(dataframe.table, column);
      if selected.Err? {
        return Err(selected.error);
      }
      var c := selected.value;
      if !IsStringColumn(c) {
        return Err(NotStringColumn(column));
      }
      var dummies := Dummies(c);
      dataframe := new DataFrame(dataframe.table + dummies);
      dataframe.Drop(column);
      assert columns[i..][1..] == columns[i + 1..];
      i := i + 1;
    }
    return Ok(dataframe);
  }
}
