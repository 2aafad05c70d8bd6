/** A whole run on a small table: a misspelt, capitalised resource column with a missing cell, and a
    tags column holding a comma-separated list. */
module Scenario {
  import opened Strings
  import opened Ordering
  import opened Tables
  import opened Normalize
  import opened NullFill
  import opened Detect
  import opened Expand
  import opened Handler

  function Input(): Table {
    [Column("Resourse Type", [Str("ec2"), Null]), Column("Tags", [Str("prod,web"), Str("dev")])]
  }

  function Filled(): Table {
    [Column("resource_type", [Str("ec2"), Str("NoResource")]), Column("tags", [Str("prod,web"), Str("dev")])]
  }

  /** Step 1: the labels become "resource_type" and "tags". */
  lemma ScenarioNormalized(t: Table)
    requires t == Input()
    ensures NormalizeColumns(t) == [Column("resource_type", t[0].cells), Column("tags", t[1].cells)]
  {
    CorrectsSpacedCapitalised();
    NormalizeColumnsSpec(t);
  }

  /** Step 2: the missing resource becomes "NoResource". */
  lemma ScenarioFilled(t: Table)
    requires t == [Column("resource_type", [Str("ec2"), Null]), Column("tags", [Str("prod,web"), Str("dev")])]
    ensures FillNulls(t, ResourceColumn, NoResource) == Ok(Filled())
  {
    FillNullsSpec(t, ResourceColumn, NoResource);
    assert t[0].name == ResourceColumn;
    var filled := FillNulls(t, ResourceColumn, NoResource).value;
    assert filled[0].cells[0] == Str("ec2") && filled[0].cells[1] == Str("NoResource");
    assert filled[0] == Column("resource_type", [Str("ec2"), Str("NoResource")]);
    assert filled[1] == t[1];
    assert filled == [filled[0], filled[1]];
  }

  /** Of two differently labelled columns, only the second of which holds a comma, the second
      is the one detected. */
  lemma DetectedSecondOnly(t: Table)
    requires |t| == 2 && t[0].name != t[1].name
    requires !IsMultiValueColumn(t[0]) && IsMultiValueColumn(t[1])
    ensures MultiValueColumns(t) == [t[1].name]
  {
    SelectUnique(t, t[0].name, 0);
    SelectUnique(t, t[1].name, 1);
    assert !Qualifies(t)(t[0]) && Qualifies(t)(t[1]);
    assert t[..1][..0] == [] && t[..1][0] == t[0];
    assert Collect(t[..1], Qualifies(t)) == [];
    assert t[..2] == t;
  }

  /** Step 3: only the tags column holds a comma. */
  lemma ScenarioDetected()
    ensures MultiValueColumns(Filled()) == ["tags"]
  {
    var t := Filled();
    assert !IsMultiValueCell(t[0].cells[0]) && !IsMultiValueCell(t[0].cells[1]);
    assert IsMultiValueCell(t[1].cells[0]);
    DetectedSecondOnly(t);
  }

  lemma ScenarioSplits()
    ensures Split("prod,web", ',') == ["prod", "web"]
    ensures Split("dev", ',') == ["dev"]
  {
    SplitSingle("web", ',');
    SplitSingle("dev", ',');
    assert "prod,web" == "prod" + [','] + "web";
    SplitConcat("prod", "web", ',');
  }

  /** The pieces get_dummies sees in the two rows of the tags column. */
  predicate TagPieces(cells: seq<Cell>) {
    |cells| == 2 && CellPieces(cells[0]) == ["prod", "web"] && CellPieces(cells[1]) == ["dev"]
  }

  /** get_dummies lists the tokens sorted, not in the order they first appear. */
  lemma ScenarioTokens(cells: seq<Cell>)
    requires TagPieces(cells)
    ensures DummyTokens(cells) == ["dev", "prod", "web"]
  {
    var toks := ["dev", "prod", "web"];
    assert Less("dev", "prod") && Less("prod", "web") && Less("dev", "web");
    assert StrictlySorted(toks);
    DummyTokensSpec(cells);
    forall x ensures x in DummyTokens(cells) <==> x in toks {
      if x in toks {
        assert HasToken(cells[0], "prod") && HasToken(cells[0], "web") && HasToken(cells[1], "dev");
      }
    }
    SortedUnique(DummyTokens(cells), toks);
  }

  lemma ScenarioDummies(c: Column)
    requires c.name == "tags" && TagPieces(c.cells)
    ensures Dummies(c) == [Column("tags_dev", [Num(0), Num(1)]), Column("tags_prod", [Num(1), Num(0)]),
                           Column("tags_web", [Num(1), Num(0)])]
  {
    ScenarioTokens(c.cells);
    assert Lower("dev") == "dev" && Lower("prod") == "prod" && Lower("web") == "web";
    var d := Dummies(c);
    assert |d| == 3;
    assert d[0].name == "tags_dev" && d[1].name == "tags_prod" && d[2].name == "tags_web";
    assert d[0].cells == [Num(0), Num(1)];
    assert d[1].cells == [Num(1), Num(0)];
    assert d[2].cells == [Num(1), Num(0)];
  }

  lemma ScenarioTagPieces(c: Column)
    requires c == Column("tags", [Str("prod,web"), Str("dev")])
    ensures c.name == "tags" && TagPieces(c.cells) && c.cells[0].Str?
  {
    ScenarioSplits();
  }

  /** Expanding the second of two columns leaves the first, followed by the indicators. */
  lemma ExpandSecond(t: Table, column: string)
    requires |t| == 2 && t[1].name == column && t[0].name != column
    requires |t[1].cells| > 0 && t[1].cells[0].Str?
    ensures ExpandAll(t, [column]) == Ok([t[0]] + Dummies(t[1]))
  {
    SelectUnique(t, column, 1);
    var i := ExpandColumnOk(t, column);
    assert t[..1] + t[2..] == [t[0]];
    assert [column][1..] == [];
  }

  /** Steps 3 and 4 once steps 1 and 2 have left two columns, the second of them the only
      multi-value one: the first column stays, followed by the indicators of the second. */
  lemma ProcessSecondExpanded(t: Table, f: Table)
    requires Prepared(t) == Ok(f)
    requires |f| == 2 && f[1].name == "tags" && f[0].name != "tags"
    requires |f[1].cells| > 0 && f[1].cells[0].Str?
    requires MultiValueColumns(f) == ["tags"]
    ensures Process(t) == Ok([f[0]] + Dummies(f[1]))
  {
    ExpandSecond(f, "tags");
  }

  /** The run's outcome once the frame is known to be the filled column followed by the
      indicators of the tags column. */
  lemma ScenarioOutcome(t: Table, f: Table)
    requires |f| == 2 && f[0] == Column("resource_type", [Str("ec2"), Str("NoResource")])
    requires f[1].name == "tags" && TagPieces(f[1].cells)
    requires Process(t) == Ok([f[0]] + Dummies(f[1]))
    ensures Process(t) ==
      Ok([Column("resource_type", [Str("ec2"), Str("NoResource")]),
          Column("tags_dev", [Num(0), Num(1)]),
          Column("tags_prod", [Num(1), Num(0)]),
          Column("tags_web", [Num(1), Num(0)])])
  {
    ScenarioDummies(f[1]);
    var d := Dummies(f[1]);
    var r := [f[0]] + d;
    assert r[1] == d[0] && r[2] == d[1] && r[3] == d[2];
    assert r == [f[0], d[0], d[1], d[2]];
  }

  /** The whole run on the table: the resource column first, then one indicator per tag in sorted
      order. */
  lemma ScenarioProcess()
    ensures Process(Input()) ==
      Ok([Column("resource_type", [Str("ec2"), Str("NoResource")]),
          Column("tags_dev", [Num(0), Num(1)]),
          Column("tags_prod", [Num(1), Num(0)]),
          Column("tags_web", [Num(1), Num(0)])])
  {
    ScenarioNormalized(Input());
    ScenarioFilled(NormalizeColumns(Input()));
    ScenarioDetected();
    ScenarioTagPieces(Filled()[1]);
    ProcessSecondExpanded(Input(), Filled());
    ScenarioOutcome(Input(), Filled());
  }

  /** A second run: "Tags" and "tags" both normalise to "tags". */
  function SharedInput(): Table {
    [Column("resource_type", [Str("ec2")]), Column("Tags", [Str("a,b")]), Column("tags", [Str("c")])]
  }

  function SharedOutput(): Table {
    [Column("resource_type", [Str("ec2")]), Column("tags", [Str("a,b")]), Column("tags", [Str("c")])]
  }

  /** Step 1 gives two columns labelled "tags". */
  lemma SharedNormalized(t: Table)
    requires t == SharedInput()
    ensures NormalizeColumns(t) == SharedOutput()
  {
    CorrectsSpacedCapitalised();
    NormalizeLabelIdempotent("Tags");
    NormalizeLabelIdempotent("Resource Type");
    NormalizeColumnsSpec(t);
    var n := NormalizeColumns(t);
    assert n[0] == SharedOutput()[0] && n[1] == SharedOutput()[1] && n[2] == SharedOutput()[2];
  }

  /** Step 2 changes nothing in a table without missing cells. */
  lemma FillNothingMissing(t: Table)
    requires exists i :: 0 <= i < |t| && t[i].name == ResourceColumn
    requires forall i, r :: 0 <= i < |t| && 0 <= r < |t[i].cells| ==> !t[i].cells[r].Null?
    ensures FillNulls(t, ResourceColumn, NoResource) == Ok(t)
  {
    FillNullsSpec(t, ResourceColumn, NoResource);
    var f := FillNulls(t, ResourceColumn, NoResource).value;
    forall i | 0 <= i < |t| ensures f[i] == t[i] {
      if t[i].name == ResourceColumn {
        forall r | 0 <= r < |t[i].cells| ensures f[i].cells[r] == t[i].cells[r] {
        }
        assert f[i].cells == t[i].cells;
      }
    }
    assert f == t;
  }

  /** Step 3 on a first column without a comma followed by two columns sharing a label: nothing
      is detected, since the shared label selects a frame. */
  lemma DetectedNoneShared(t: Table)
    requires |t| == 3 && t[0].name != t[1].name && t[1].name == t[2].name
    requires !IsMultiValueColumn(t[0])
    ensures MultiValueColumns(t) == []
  {
    SelectUnique(t, t[0].name, 0);
    SelectShared(t, t[1].name, 1, 2);
    forall i | 0 <= i < |t| ensures !Qualifies(t)(t[i]) {
    }
    WhereNone(t, Qualifies(t));
    CollectInOrder(t, Qualifies(t));
  }

  /** The whole run completes: the shared label is not expanded, and both "tags" columns are
      written as they were. */
  lemma ScenarioSharedLabel()
    ensures Process(SharedInput()) == Ok(SharedOutput())
  {
    var f := SharedOutput();
    SharedNormalized(SharedInput());
    assert f[0].name == ResourceColumn;
    assert forall i, r :: 0 <= i < |f| && 0 <= r < |f[i].cells| ==> !f[i].cells[r].Null?;
    FillNothingMissing(f);
    assert !IsMultiValueCell(f[0].cells[0]);
    DetectedNoneShared(f);
  }
}
