/** The data frame the pipeline transforms: an ordered sequence of named columns, each an ordered
    sequence of cells, plus the column lookups the steps share. */
module Tables {

  /** One cell as the CSV reader produces it: text, a number, or missing (NaN). */
  datatype Cell = Str(text: string) | Num(n: int) | Null

  datatype Column = Column(name: string, cells: seq<Cell>)

  type Table = seq<Column>

  /** The failures the steps raise. UndefinedColumn is pandas' KeyError for a label that labels no
      column; NotASeries is the AttributeError raised when a label picks out several columns (a
      frame, which has no `.str`); NotStringColumn is the AttributeError of the `.str` accessor on a
      column that holds no text. */
  datatype Error = UndefinedColumn(name: string) | NotASeries(name: string) | NotStringColumn(name: string)

  datatype Result<T> = Ok(value: T) | Err(error: Error)

  /** Every column has `rows` cells. */
  predicate Rectangular(t: Table, rows: nat) {
    forall i :: 0 <= i < |t| ==> |t[i].cells| == rows
  }

  function Names(t: Table): seq<string> {
    seq(|t|, i requires 0 <= i < |t| => t[i].name)
  }

  /** The positions, in column order, of the columns that satisfy p. */
  function Where(t: Table, p: Column -> bool): (ix: seq<nat>)
    ensures forall k :: 0 <= k < |ix| ==> ix[k] < |t| && p(t[ix[k]])
    ensures forall i :: 0 <= i < |t| && p(t[i]) ==> i in ix
    ensures forall k, l :: 0 <= k < l < |ix| ==> ix[k] < ix[l]
    decreases |t|
  {
    if |t| == 0 then []
    else
      var ix := Where(t[..|t| - 1], p);
      ix + (if p(t[|t| - 1]) then [|t| - 1] else [])
  }

  predicate Labels(c: Column, name: string) {
    c.name == name
  }

  /** The positions of the columns labelled `name`. */
  function Positions(t: Table, name: string): seq<nat> {
    Where(t, c => Labels(c, name))
  }

  /** `df[name]`: fails when no column, or more than one column, carries the label. */
  function Select(t: Table, name: string): Result<Column> {
    var ix := Positions(t, name);
    if |ix| == 0 then Err(UndefinedColumn(name))
    else if |ix| > 1 then Err(NotASeries(name))
    else Ok(t[ix[0]])
  }

  lemma {:induction false} WhereNone(t: Table, p: Column -> bool)
    requires forall i :: 0 <= i < |t| ==> !p(t[i])
    ensures Where(t, p) == []
    decreases |t|
  {
    if |t| > 0 {
      WhereNone(t[..|t| - 1], p);
    }
  }

  lemma {:induction false} WhereSingle(t: Table, p: Column -> bool, i: nat)
    requires i < |t| && p(t[i])
    requires forall j :: 0 <= j < |t| && p(t[j]) ==> j == i
    ensures Where(t, p) == [i]
    decreases |t|
  {
    var init := t[..|t| - 1];
    if i == |t| - 1 {
      WhereNone(init, p);
    } else {
      WhereSingle(init, p, i);
    }
  }

  lemma {:induction false} WhereTwo(t: Table, p: Column -> bool, i: nat, j: nat)
    requires i < j < |t| && p(t[i]) && p(t[j])
    ensures |Where(t, p)| >= 2
    decreases |t|
  {
    var init := t[..|t| - 1];
    if j == |t| - 1 {
      assert p(init[i]);
      assert i in Where(init, p);
    } else {
      WhereTwo(init, p, i, j);
    }
  }

  /** How many columns carry the label. */
  function Carriers(t: Table, name: string): nat {
    |Positions(t, name)|
  }

  lemma {:induction false} WhereAppendLength(a: Table, b: Table, p: Column -> bool)
    ensures |Where(a + b, p)| == |Where(a, p)| + |Where(b, p)|
    decreases |b|
  {
    if |b| == 0 {
      assert a + b == a;
    } else {
      var ab := a + b;
      assert ab[..|ab| - 1] == a + b[..|b| - 1];
      assert ab[|ab| - 1] == b[|b| - 1];
      WhereAppendLength(a, b[..|b| - 1], p);
    }
  }

  /** The carriers of a concatenation are those of its parts. */
  lemma CarriersAppend(a: Table, b: Table, name: string)
    ensures Carriers(a + b, name) == Carriers(a, name) + Carriers(b, name)
  {
    WhereAppendLength(a, b, c => Labels(c, name));
  }

  /** Removing a column that does not carry the label keeps its carriers. */
  lemma CarriersRemove(t: Table, i: nat, name: string)
    requires i < |t| && t[i].name != name
    ensures Carriers(t[..i] + t[i + 1..], name) == Carriers(t, name)
  {
    assert t == t[..i] + [t[i]] + t[i + 1..];
    CarriersAppend(t[..i], t[i + 1..], name);
    CarriersAppend(t[..i] + [t[i]], t[i + 1..], name);
    CarriersAppend(t[..i], [t[i]], name);
    WhereNone([t[i]], c => Labels(c, name));
  }

  /** A label carried by exactly one column selects that column. */
  lemma SelectUnique(t: Table, name: string, i: nat)
    requires i < |t| && t[i].name == name
    requires forall j :: 0 <= j < |t| && t[j].name == name ==> j == i
    ensures Select(t, name) == Ok(t[i])
  {
    WhereSingle(t, c => Labels(c, name), i);
  }

  /** A label carried by exactly one column has one carrier. */
  lemma CarriersOne(t: Table, name: string, i: nat)
    requires i < |t| && t[i].name == name
    requires forall j :: 0 <= j < |t| && t[j].name == name ==> j == i
    ensures Carriers(t, name) == 1
  {
    WhereSingle(t, c => Labels(c, name), i);
  }

  /** A label carried by two columns is refused. */
  lemma SelectShared(t: Table, name: string, i: nat, j: nat)
    requires i < j < |t| && t[i].name == name && t[j].name == name
    ensures Select(t, name) == Err(NotASeries(name))
  {
    WhereTwo(t, c => Labels(c, name), i, j);
  }

  /** A label carried by no column is undefined, and only such a label is. */
  lemma SelectMissing(t: Table, name: string)
    ensures Select(t, name) == Err(UndefinedColumn(name)) <==> forall j :: 0 <= j < |t| ==> t[j].name != name
  {
    var ix := Positions(t, name);
    if |ix| > 0 {
      assert Labels(t[ix[0]], name);
    } else {
      assert forall j :: 0 <= j < |t| ==> !Labels(t[j], name);
    }
  }

  /** A successful selection comes from the one column that carries the label. */
  lemma SelectIndex(t: Table, name: string) returns (i: nat)
    requires Select(t, name).Ok?
    ensures i < |t| && t[i].name == name && Select(t, name) == Ok(t[i])
    ensures forall j :: 0 <= j < |t| && t[j].name == name ==> j == i
  {
    var ix := Positions(t, name);
    i := ix[0];
    assert Labels(t[i], name);
    forall j | 0 <= j < |t| && t[j].name == name ensures j == i {
      assert Labels(t[j], name);
      assert j in ix;
    }
  }

  /** The table without the columns labelled `name`: `df.drop(columns=[name])`. */
  function Without(t: Table, name: string): (r: Table)
    decreases |t|
  {
    if |t| == 0 then []
    else (if t[0].name == name then [] else [t[0]]) + Without(t[1..], name)
  }

  lemma {:induction false} WithoutAppend(a: Table, b: Table, name: string)
    ensures Without(a + b, name) == Without(a, name) + Without(b, name)
    decreases |a|
  {
    if |a| == 0 {
      assert a + b == b;
    } else {
      assert (a + b)[1..] == a[1..] + b;
      WithoutAppend(a[1..], b, name);
    }
  }

  /** Dropping a label that only column i carries removes exactly that column. */
  lemma {:induction false} WithoutSingle(t: Table, name: string, i: nat)
    requires i < |t| && t[i].name == name
    requires forall j :: 0 <= j < |t| && j != i ==> t[j].name != name
    ensures Without(t, name) == t[..i] + t[i + 1..]
    decreases |t|
  {
    if i == 0 {
      WithoutAbsent(t[1..], name);
    } else {
      WithoutSingle(t[1..], name, i - 1);
      assert t[..i] == [t[0]] + t[1..][..i - 1];
      assert t[i + 1..] == t[1..][i..];
    }
  }

  /** Dropping a label no column carries changes nothing. */
  lemma {:induction false} WithoutAbsent(t: Table, name: string)
    requires forall j :: 0 <= j < |t| ==> t[j].name != name
    ensures Without(t, name) == t
    decreases |t|
  {
    if |t| > 0 {
      WithoutAbsent(t[1..], name);
      assert t == [t[0]] + t[1..];
    }
  }

  /** A pandas data frame, updated in place by the steps that mutate their argument. */
  class DataFrame {
    var table: Table

    constructor (t: Table)
      ensures table == t
    {
      table := t;
    }

    /** `drop(columns=[name], inplace=True)`. pandas raises a KeyError for a label no column
        carries, so the caller must name a present column. */
    method Drop(name: string)
      requires exists i :: 0 <= i < |table| && table[i].name == name
      modifies this
      ensures table == Without(old(table), name)
    {
      table := Without(table, name);
    }
  }
}
