/** Step 1, `padronizar_nomes_colunas`: every column heading is lowercased and its spaces become
    underscores, then the one known misspelling is corrected. */
module Normalize {
  import opened Strings
  import opened Tables

  const Misspelt: string := "resourse_type"
  const Corrected: string := "resource_type"

  /** `col.lower().replace(' ', '_')`. */
  function Standardise(heading: string): string {
    Underscore(Lower(heading))
  }

  /** The heading a column ends up with after both statements of the step. */
  function NormalizeLabel(heading: string): string {
    var s := Standardise(heading);
    if s == Misspelt then Corrected else s
  }

  /** `dataframe.columns = [...]`: relabels every column, keeping its cells. */
  function Relabel(t: Table): Table {
    seq(|t|, i requires 0 <= i < |t| => Column(Standardise(t[i].name), t[i].cells))
  }

  /** `dataframe.rename(columns={from: to})`: every column labelled `from` is relabelled `to`. */
  function Rename(t: Table, from: string, to: string): Table {
    seq(|t|, i requires 0 <= i < |t| => if t[i].name == from then Column(to, t[i].cells) else t[i])
  }

  function NormalizeColumns(t: Table): Table {
    Rename(Relabel(t), Misspelt, Corrected)
  }

  /** No ASCII upper-case letter and no space. */
  predicate IsStandardLabel(heading: string) {
    forall k :: 0 <= k < |heading| ==> !IsUpper(heading[k]) && heading[k] != ' '
  }

  /** The step keeps the number, the order and the cells of the columns, gives every column the
      normalised form of its own heading, and leaves no upper-case letter or space in any heading. */
  lemma NormalizeColumnsSpec(t: Table)
    ensures |NormalizeColumns(t)| == |t|
    ensures forall i :: 0 <= i < |t| ==>
      NormalizeColumns(t)[i] == Column(NormalizeLabel(t[i].name), t[i].cells)
    ensures forall i :: 0 <= i < |t| ==> IsStandardLabel(NormalizeColumns(t)[i].name)
  {
    forall i | 0 <= i < |t| ensures IsStandardLabel(NormalizeLabel(t[i].name)) {
      NormalizedIsStandard(t[i].name);
    }
  }

  lemma NormalizedIsStandard(heading: string)
    ensures IsStandardLabel(NormalizeLabel(heading))
  {
    assert Corrected == ['r', 'e', 's', 'o', 'u', 'r', 'c', 'e', '_', 't', 'y', 'p', 'e'];
  }

  /** A heading that is already standard is left alone by lowercasing and underscoring. */
  lemma StandardIsFixed(heading: string)
    requires IsStandardLabel(heading)
    ensures Standardise(heading) == heading
  {
  }

  /** The correction fires exactly on labels that lowercase-and-underscore to the misspelling:
      they, and only they, end up other than their standardised form, and they become
      `resource_type`. */
  lemma RenameOnlyMisspelt(heading: string)
    ensures NormalizeLabel(heading) != Standardise(heading) <==> Standardise(heading) == Misspelt
    ensures Standardise(heading) == Misspelt ==> NormalizeLabel(heading) == Corrected
    ensures NormalizeLabel(heading) == Corrected <==> Standardise(heading) in {Misspelt, Corrected}
  {
  }

  /** Normalising a heading twice gives what normalising it once gives. */
  lemma NormalizeLabelIdempotent(heading: string)
    ensures NormalizeLabel(NormalizeLabel(heading)) == NormalizeLabel(heading)
  {
    var n := NormalizeLabel(heading);
    NormalizedIsStandard(heading);
    StandardIsFixed(n);
    assert n != Misspelt;
  }

  /** The step is idempotent on tables. */
  lemma NormalizeIdempotent(t: Table)
    ensures NormalizeColumns(NormalizeColumns(t)) == NormalizeColumns(t)
  {
    var once := NormalizeColumns(t);
    NormalizeColumnsSpec(t);
    NormalizeColumnsSpec(once);
    forall i | 0 <= i < |t| ensures NormalizeColumns(once)[i] == once[i] {
      NormalizeLabelIdempotent(t[i].name);
    }
  }

  /** A heading written with capitals and a space still reaches the corrected spelling, because the
      correction is applied after lowercasing and underscoring. */
  lemma CorrectsSpacedCapitalised()
    ensures NormalizeLabel("Resourse Type") == Corrected
    ensures NormalizeLabel("Resourse_Type") == Corrected
    ensures NormalizeLabel("Resource Type") == Corrected
    ensures NormalizeLabel("Tags") == "tags"
  {
    assert Standardise("Resourse Type") == Misspelt;
    assert Standardise("Resourse_Type") == Misspelt;
    assert Standardise("Resource Type") == Corrected;
    assert Standardise("Tags") == "tags";
  }

  /** `padronizar_nomes_colunas(dataframe)`: relabels the frame's columns in place, then renames
      the misspelt column in place. */
  method StandardiseColumnNames(df: DataFrame)
    modifies df
    ensures df.table == NormalizeColumns(old(df.table))
    ensures |df.table| == |old(df.table)|
    ensures forall i :: 0 <= i < |df.table| ==>
      df.table[i].cells == old(df.table)[i].cells && IsStandardLabel(df.table[i].name)
  {
    NormalizeColumnsSpec(df.table);
    df.table := Relabel(df.table);
    df.table := Rename(df.table, Misspelt, Corrected);
  }
}
