/** `lambda_handler`: the object key of the upload event gives the path the CSV is read from and the
    path the result is written to, and the four steps run on the frame in order. */
module Handler {
  import opened Strings
  import opened Tables
  import opened Normalize
  import opened NullFill
  import opened Detect
  import opened Expand

  /** The column whose missing cells are filled, and the value they are filled with. */
  const ResourceColumn: string := "resource_type"
  const NoResource: Cell := Str("NoResource")

  /** The landing area the object is uploaded to, and the processed area it is written to. */
  const Landing: string := "datalake"
  const Processed: string := "datawarehouse"

  /** `f's3://{BUCKET}/{OBJECT_PREFIX}'`. */
  function ReadPath(bucket: string, key: string): string {
    "s3://" + bucket + "/" + key
  }

  /** The same URL with every occurrence of "datalake", anywhere in it, replaced. */
  function WritePath(bucket: string, key: string): string {
    ReplaceAll(ReadPath(bucket, key), Landing, Processed)
  }

  /** No "datalake" is left in the write path: every occurrence was replaced, and no replacement
      forms a new one with its neighbours. */
  lemma WritePathLeavesNoLanding(bucket: string, key: string)
    ensures !Occurs(Landing, WritePath(bucket, key))
  {
    assert Processed[..|Landing|] == "dataware";
    assert Landing[1..] == "atalake" && Processed[1..] == "atawarehouse";
    ReplaceAllRemovesAll(ReadPath(bucket, key), Landing, Processed);
  }

  /** The write path is the read path exactly when the read path holds no "datalake": an object
      outside the landing area is written back over itself. */
  lemma WritePathSameIff(bucket: string, key: string)
    ensures WritePath(bucket, key) == ReadPath(bucket, key) <==> !Occurs(Landing, ReadPath(bucket, key))
  {
    var read := ReadPath(bucket, key);
    ReplaceAllLength(read, Landing, Processed);
    if !Occurs(Landing, read) {
      ReplaceAllAbsent(read, Landing, Processed);
    }
  }

  /** An object whose key starts with the landing prefix is written under the processed prefix of
      the same bucket (for a bucket name that cannot take part in an occurrence), the rest of the
      key undergoing the same replacement. */
  lemma WritePathUnderLanding(bucket: string, rest: string)
    requires 'd' !in bucket
    ensures WritePath(bucket, Landing + rest) ==
      "s3://" + bucket + "/" + Processed + ReplaceAll(rest, Landing, Processed)
  {
    var scheme := "s3://" + bucket + "/";
    assert ReadPath(bucket, Landing + rest) == scheme + (Landing + rest);
    assert Landing[0] == 'd' && 'd' !in "s3://" && 'd' !in "/";
    assert 'd' !in scheme;
    ReplaceAllKeepsPrefix(scheme, Landing + rest, Landing, Processed);
    ReplaceAllLeading(rest, Landing, Processed);
  }

  /** The key "datalake/x.csv" of bucket "bucket" is written to "s3://bucket/datawarehouse/x.csv". */
  lemma WritePathExample()
    ensures WritePath("bucket", Landing + "/x.csv") == "s3://bucket/" + Processed + "/x.csv"
  {
    assert 'd' !in "bucket";
    WritePathUnderLanding("bucket", "/x.csv");
    ReplaceAllAbsent("/x.csv", Landing, Processed);
  }

  /** Steps 1 and 2 on a table: normalise the labels, then fill the resource column. */
  function Prepared(t: Table): Result<Table> {
    FillNulls(NormalizeColumns(t), ResourceColumn, NoResource)
  }

  /** The processing block of `lambda_handler` on a table: the four steps, the multi-value
      columns being those of the filled table; the first failure ends the run. */
  function Process(t: Table): Result<Table> {
    match Prepared(t)
    case Err(e) => Err(e)
    case Ok(filled) => ExpandAll(filled, MultiValueColumns(filled))
  }

  /** The run fails with the KeyError on "resource_type" exactly when no column's label
      normalises to it. Every other failure is the frame selected, in step 4, by a label that an
      indicator column created on the way shares with a column still to be expanded: the label is
      an indicator name of a detected label. */
  lemma ProcessErrors(t: Table)
    ensures Process(t) == Err(UndefinedColumn(ResourceColumn)) <==>
      forall i :: 0 <= i < |t| ==> NormalizeLabel(t[i].name) != ResourceColumn
    ensures Process(t).Err? ==>
      Process(t) == Err(UndefinedColumn(ResourceColumn)) || Process(t).error.NotASeries?
    ensures Process(t).Err? && Process(t).error.NotASeries? ==>
      Prepared(t).Ok? && Indicated(MultiValueColumns(Prepared(t).value), Process(t).error.name)
  {
    var normal := NormalizeColumns(t);
    NormalizeColumnsSpec(t);
    FillNullsSpec(normal, ResourceColumn, NoResource);
    if Prepared(t).Ok? {
      DetectedExpansionOnlyCollides(Prepared(t).value);
      var i :| 0 <= i < |normal| && normal[i].name == ResourceColumn;
      assert NormalizeLabel(t[i].name) == ResourceColumn;
    } else {
      forall i | 0 <= i < |t| ensures NormalizeLabel(t[i].name) != ResourceColumn {
        assert normal[i].name == NormalizeLabel(t[i].name);
      }
    }
  }

  /** Two columns whose labels normalise to the same label are never expanded: step 3 selects a
      frame for that label and skips it. */
  lemma SharedLabelNotExpanded(t: Table, i: nat, j: nat)
    requires i < j < |t| && NormalizeLabel(t[i].name) == NormalizeLabel(t[j].name)
    requires Prepared(t).Ok?
    ensures NormalizeLabel(t[i].name) !in MultiValueColumns(Prepared(t).value)
  {
    var normal := NormalizeColumns(t);
    NormalizeColumnsSpec(t);
    FillNullsSpec(normal, ResourceColumn, NoResource);
    SharedLabelSkipped(Prepared(t).value, i, j);
  }

  /** A successful run keeps the number of rows. */
  lemma ProcessKeepsRows(t: Table, rows: nat)
    requires Rectangular(t, rows)
    requires Process(t).Ok?
    ensures Rectangular(Process(t).value, rows)
  {
    var normal := NormalizeColumns(t);
    NormalizeColumnsSpec(t);
    FillLeavesNoNull(normal, ResourceColumn, NoResource, rows);
    var filled := Prepared(t).value;
    ExpandAllRectangular(filled, MultiValueColumns(filled), rows);
  }

  /** After a successful run no cell of a column labelled "resource_type" is missing: it is either
      the filled column, kept as it was, or an indicator column holding only 0 and 1. */
  lemma ProcessFillsResource(t: Table)
    requires Process(t).Ok?
    ensures forall j, r :: (0 <= j < |Process(t).value| && Process(t).value[j].name == ResourceColumn &&
      0 <= r < |Process(t).value[j].cells|) ==> !Process(t).value[j].cells[r].Null?
  {
    var normal := NormalizeColumns(t);
    FillNullsSpec(normal, ResourceColumn, NoResource);
    var filled := Prepared(t).value;
    var result := Process(t).value;
    ExpandAllOrigin(filled, MultiValueColumns(filled));
    forall j, r | 0 <= j < |result| && result[j].name == ResourceColumn && 0 <= r < |result[j].cells|
      ensures !result[j].cells[r].Null?
    {
      if result[j] in filled {
        var i :| 0 <= i < |filled| && filled[i] == result[j];
        assert filled[i].cells[r] == if normal[i].cells[r].Null? then NoResource else normal[i].cells[r];
      }
    }
  }

  /** The steps in the order `lambda_handler` runs them, on the caller's frame: the first two
      update it in place, the last returns the frame that holds the result (the caller's own
      frame when nothing was expanded). A failure leaves the frame as the steps before it left it. */
  method HandleTable(df: DataFrame) returns (result: Result<DataFrame>)
    modifies df
    ensures Prepared(old(df.table)).Err? ==> df.table == NormalizeColumns(old(df.table))
    ensures Prepared(old(df.table)).Ok? ==> df.table == Prepared(old(df.table)).value
    ensures Process(old(df.table)).Err? ==> result == Err(Process(old(df.table)).error)
    ensures Process(old(df.table)).Ok? ==>
      result.Ok? && result.value.table == Process(old(df.table)).value
  {
    StandardiseColumnNames(df);
    var filled := FillNullsInPlace(df, ResourceColumn, NoResource);
    if filled.Err? {
      return Err(filled.error);
    }
    var columns := DetectMultiValueColumns(df);
    result := OneHotEncode(df, columns);
  }
}
