# CSV processing pipeline: a Dafny model

The repository is an AWS Lambda handler (`main.py`). It runs when a CSV object is uploaded to an S3
bucket. It reads the CSV into a pandas data frame and transforms it in four steps:

1. `padronizar_nomes_colunas`: column labels are lowercased, their spaces become underscores, and the
   label `resourse_type` is corrected to `resource_type`.
2. `valores_nulos`: the missing cells of the `resource_type` column become `"NoResource"`.
3. `identificar_colunas_multivalor`: each label is looked up, in column order, and collected when the
   lookup gives a column holding a text cell with a comma.
4. `one_hot_encoding_multivalor`: each collected column is replaced by 0/1 indicator columns, one per
   distinct non-empty comma-separated token, named `{column}_{token.lower()}`.

The handler writes the result to the same S3 URL, with every `datalake` in it replaced by
`datawarehouse`.

The model is split into these modules:

- `Strings` (`strings.dfy`): ASCII lowercasing, `str.split`, `str.replace` and the decimal text of
  integers, with their properties.
- `Ordering` (`ordering.dfy`): Python's string order and `sorted(set(...))`.
- `Tables` (`tables.dfy`): the data model.
  - A table is a sequence of named columns; a cell is text, an integer or missing.
  - Label lookup follows pandas, including its failures.
  - The in-place operations live on a `DataFrame` class.
- `Normalize`, `NullFill`, `Detect` and `Expand` (one file each): the four steps.
  - Each step is a specification function with lemmas about it.
  - Each also has a method that performs the step as the source does. The method updates the frame
    in place, or runs the source's loop with its invariant.
- `Handler` (`handler.dfy`): the read and write paths, and the four steps composed as in the
  handler.
- `Scenario` (`scenario.dfy`): two complete runs on small tables, one of them with a label shared
  after normalisation.

### pandas behaviour the model follows

The model follows the code together with the pandas behaviour it relies on:

- **Numbers in an expanded column become tokens.** `str.get_dummies` turns every value of a column
  mixing text and numbers into text, so `Num(7)` yields the token `"7"` (`Expand.NumberToken`).
  Of the non-text cells, only missing ones give 0 in every indicator column
  (`Expand.NullRowIsZero`). A text cell with no non-empty piece, such as `","`, does too
  (`Expand.CommaOnlyHasNoToken`): a row is all zeros exactly when its cell has no token
  (`Expand.ZeroRowIff`).
- **Indicator columns are in sorted token order, not first-appearance order.** `get_dummies` sorts
  its tokens. `Scenario.ScenarioProcess` shows `tags_dev` before `tags_prod` and `tags_web`.
- **An indicator that takes the label of a column still to be expanded stops the run.**
  `dataframe[coluna]` then selects two columns, i.e. a frame, and `.str` raises `AttributeError`
  (`Expand.CollisionExample`). This is the only way the expansion of the detected columns can
  fail (`Expand.DetectedExpansionOnlyCollides`). Other repeated labels do not fail: `pd.concat`
  keeps both columns. For example, an indicator `a_b` next to an input column `a_b` that is not
  expanded, or two indicators with the same name, are both written.
- **Labels need not stay unique.** For example, `Tags` and `tags` both end up as `tags`. Looking up
  such a label gives a frame. The detection step then tests whole columns rather than cells, so it
  never lists that label (`Detect.SharedLabelSkipped`). The run goes on and writes both columns
  unchanged (`Scenario.ScenarioSharedLabel`).

## Model

| member | source | states |
|---|---|---|
| Strings.JoinSplit | main.py:93 | Joining the pieces of a split with the separator gives back the string, and no piece holds the separator |
| Strings.SplitSingle | main.py:93 | A string splits into one piece exactly when it has no separator, and that piece is the string |
| Strings.SplitConcat | main.py:93 | A separator-free prefix followed by the separator is split off as the first piece |
| Strings.ReplaceAllAbsent | main.py:121 | `str.replace` leaves a string without the pattern unchanged |
| Strings.ReplaceAllLength | main.py:121 | With a longer replacement the result is never shorter, and strictly longer when the pattern occurs |
| Strings.ReplaceAllLeading | main.py:121 | A leading occurrence is replaced and the scan continues after it |
| Strings.ReplaceAllKeepsPrefix | main.py:121 | Characters that cannot start the pattern are copied, and what follows is replaced as it would be alone |
| Strings.ReplaceAllRemovesAll | main.py:121 | When the replacement cannot combine with its neighbours into the pattern, no occurrence is left |
| Strings.NatStringDigits | main.py:93 | The decimal text of a natural number consists of digits only |
| Strings.IntStringHasNoComma | main.py:93 | The text of an integer holds no comma, so a number is never split |
| Ordering.LessIrreflexive | main.py:93 | No string sorts before itself |
| Ordering.LessTransitive | main.py:93 | The string order is transitive |
| Ordering.LessTotal | main.py:93 | Of two different strings one sorts before the other |
| Ordering.Insert | main.py:93 | Inserting into a strictly sorted list keeps it strictly sorted and adds exactly the new string |
| Ordering.SortedSet | main.py:93 | `sorted(set(xs))` is strictly sorted and holds exactly the strings of xs |
| Ordering.SortedUnique | main.py:93 | Two strictly sorted lists with the same strings are equal, so the sorted listing is unique |
| Tables.Where | main.py:93 | Positions satisfying a predicate, all of them, in increasing order |
| Tables.SelectUnique | main.py:51 | `df[name]` with a label carried by one column gives that column |
| Tables.SelectShared | main.py:93 | `df[name]` with a label carried by two columns is a frame, refused where a column is needed |
| Tables.SelectMissing | main.py:51 | `df[name]` fails with a KeyError exactly when no column carries the label |
| Tables.SelectIndex | main.py:93 | A successful lookup comes from the one column carrying the label |
| Tables.CarriersAppend | main.py:97 | The columns carrying a label in a concatenation are those of its two parts |
| Tables.CarriersRemove | main.py:99 | Removing a column that does not carry a label keeps the number of columns carrying it |
| Tables.CarriersOne | main.py:93 | A label carried by exactly one column has one carrier |
| Tables.WithoutAppend | main.py:97-99 | Dropping a label from a concatenation drops it from each part |
| Tables.WithoutSingle | main.py:99 | Dropping a label carried by one column removes exactly that column, keeping the others in order |
| Tables.WithoutAbsent | main.py:97-99 | The part of the concatenation that does not carry the dropped label (the indicator columns) is kept as it is |
| Tables.DataFrame.constructor | main.py:97 | `pd.concat` builds a new frame holding the given columns |
| Tables.DataFrame.Drop | main.py:99 | `drop(columns=[name], inplace=True)` on a present label leaves the frame without every column carrying it; an absent label is a KeyError, which callers rule out |
| Normalize.NormalizeColumnsSpec | main.py:29-32 | Same number, order and cells of columns; each label normalised; no label keeps an upper-case letter or a space |
| Normalize.NormalizedIsStandard | main.py:29-32 | A normalised label has no upper-case letter and no space |
| Normalize.StandardIsFixed | main.py:29 | Lowercasing and underscoring leave a standard label unchanged |
| Normalize.RenameOnlyMisspelt | main.py:29-32 | The rename changes a label beyond lowercase/underscore exactly when that gives `resourse_type`, and then yields `resource_type` |
| Normalize.NormalizeLabelIdempotent | main.py:29-32 | Normalising a label twice equals normalising it once |
| Normalize.NormalizeIdempotent | main.py:29-32 | The step is idempotent on tables |
| Normalize.CorrectsSpacedCapitalised | main.py:29-32 | `Resourse Type` and `Resourse_Type` end up as `resource_type`, and `Tags` as `tags` |
| Normalize.StandardiseColumnNames | main.py:15-34 | The frame is relabelled in place; its new table is the normalised table |
| NullFill.FillNullsSpec | main.py:51 | Fails with a KeyError exactly when the column is absent; otherwise only the target's missing cells change, and they become the value |
| NullFill.FillLeavesNoNull | main.py:51 | With a non-missing value, no missing cell is left in the target and the row count is kept |
| NullFill.FillIdempotent | main.py:51 | Filling twice is filling once |
| NullFill.FillNullsInPlace | main.py:37-52 | The frame is filled in place, or left untouched with the KeyError reported |
| Detect.MultiValueLabelIff | main.py:71 | Looking a label up and testing it passes if and only if exactly one column carries the label and that column holds a text cell with a comma |
| Detect.MultiValueColumnsInOrder | main.py:68-73 | The result is, position by position, the labels of the columns whose label lookup passes the test, in column order |
| Detect.MultiValueColumnsMembers | main.py:69-72 | A label is listed if and only if exactly one column carries it and that column holds a text cell with a comma |
| Detect.NoDuplicateColumns | main.py:68-73 | No label is listed twice, whatever the labels of the table |
| Detect.SharedLabelSkipped | main.py:69-72 | A label that two columns carry is never listed, whatever they hold |
| Detect.NoTextNoMultiValue | main.py:71 | A table with no text cell has no multi-value column |
| Detect.DetectMultiValueColumns | main.py:55-73 | The loop looks each label up and returns the specified list: a label is listed if and only if one column carries it and holds a comma; nothing is modified |
| Expand.NonEmpty | main.py:93 | Keeps exactly the non-empty pieces |
| Expand.ColumnPiecesMembers | main.py:93 | A piece occurs in the column exactly when it occurs in some row |
| Expand.DummyTokensSpec | main.py:93 | The tokens are strictly sorted and are exactly the non-empty pieces found in some row |
| Expand.TextTokens | main.py:93 | A text cell's tokens are its non-empty comma-separated pieces, none holding a comma |
| Expand.NullHasNoToken | main.py:93 | A missing cell has no token |
| Expand.NumberToken | main.py:93 | A number cell has exactly one token, its decimal text |
| Expand.DummiesSpec | main.py:93-95 | One indicator per token in token order, named `{column}_{token.lower()}`; 1 exactly in the rows holding the token, else 0 |
| Expand.EveryTokenIndicated | main.py:93-95 | Each token found in a row has an indicator column holding 1 in that row |
| Expand.NullRowIsZero | main.py:93 | A row with a missing cell holds 0 in every indicator column |
| Expand.ZeroRowIff | main.py:93 | A row holds 0 in every indicator column if and only if its cell has no token |
| Expand.CommaOnlyHasNoToken | main.py:93 | The text cell `","` has no token, since both its pieces are empty |
| Expand.IndicatorNameDiffers | main.py:95 | No indicator column carries the expanded column's label |
| Expand.ExpandColumnErrors | main.py:93 | KeyError exactly when the label is missing; a frame when two columns carry it; refused when the one column holds no text |
| Expand.ExpandColumnOk | main.py:91-99 | A success comes from the one labelled text column; the result is the other columns in order, then its indicators; the label is gone |
| Expand.ExpandColumnRectangular | main.py:97-99 | One expansion keeps the row count |
| Expand.ExpandAllRectangular | main.py:91-100 | The whole loop keeps the row count |
| Expand.ExpandAllOrigin | main.py:91-100 | Every column of the result is an input column or an indicator column holding only 0 and 1 |
| Expand.DetectedOnlyCollide | main.py:91-99 | Expanding labels that name multi-value columns (repeated only when shared) can fail only by selecting a frame |
| Expand.ExpandAllErrorListed | main.py:91-93 | A failure of the loop names one of the listed labels |
| Expand.DummiesCarriers | main.py:93-95 | A label that an indicator column carries has the form `{column}_{token}` of the expanded column |
| Expand.ExpandColumnCarriers | main.py:93-99 | One expansion changes how many columns carry another label only through indicators named after the expanded column |
| Expand.ExpandColumnShared | main.py:93 | An expansion that selects a frame does so because at least two columns carry the label |
| Expand.CollisionStep | main.py:91-99 | Each expansion keeps every other label carried as often as in the input, unless it is an indicator name of an expanded label |
| Expand.ExpandAllCollision | main.py:91-100 | The loop fails by selecting a frame only for a label carried several times in its input or that is an indicator name of a listed label |
| Expand.UniqueLabelsCollide | main.py:91-100 | With distinct labels each carried once, a frame is selected only for a listed label that is an indicator name of a listed label |
| Expand.DetectedExpansionOnlyCollides | main.py:144-147 | Expanding the detected columns fails only by selecting a frame, for a detected label that one input column carries and that has the form of an indicator name of a detected label |
| Expand.CollisionExample | main.py:91-99 | Columns `a` = "b,c" and `a_b` = "x,y": the indicator `a_b` collides and the loop fails |
| Expand.ExpandExample | main.py:91-99 | "a,b", "b,c", "" give `tags_a` = 1,0,0, `tags_b` = 1,1,0 and `tags_c` = 0,1,0, and the column is dropped |
| Expand.OneHotEncode | main.py:76-100 | The loop's result, or its failure, is that of the specified expansion; the caller's frame is not modified |
| Handler.WritePathLeavesNoLanding | main.py:121 | No `datalake` is left in the write path |
| Handler.WritePathSameIff | main.py:120-121 | The write path equals the read path exactly when the read path holds no `datalake` |
| Handler.WritePathUnderLanding | main.py:120-121 | A key starting with `datalake` is written under `datawarehouse` in the same bucket |
| Handler.WritePathExample | main.py:120-121 | Key `datalake/x.csv` of bucket `bucket` is written to `s3://bucket/datawarehouse/x.csv` |
| Handler.ProcessErrors | main.py:138-147 | The run fails with the KeyError on `resource_type` exactly when no label normalises to it; any other failure selects a frame, for a label that has the form of an indicator name of a detected label |
| Handler.SharedLabelNotExpanded | main.py:138-144 | Two columns whose labels normalise to the same label are never listed for expansion |
| Handler.ProcessKeepsRows | main.py:138-147 | A successful run keeps the row count |
| Handler.ProcessFillsResource | main.py:141-147 | After a successful run no `resource_type` column has a missing cell |
| Handler.HandleTable | main.py:137-147 | The four steps in order: the frame holds the filled table, and the result is that of the composed specification |
| Scenario.ScenarioNormalized | main.py:138 | `Resourse Type` and `Tags` become `resource_type` and `tags` |
| Scenario.ScenarioFilled | main.py:141 | The missing resource becomes `NoResource` |
| Scenario.ScenarioDetected | main.py:144 | Only `tags` is detected |
| Scenario.DetectedSecondOnly | main.py:68-73 | Of two distinct labels, only the second is listed when only its column holds a comma |
| Scenario.ScenarioDummies | main.py:93-95 | The tags column with rows `prod,web` and `dev` gives `tags_dev` = [0, 1], `tags_prod` = [1, 0], `tags_web` = [1, 0] |
| Scenario.ExpandSecond | main.py:93-100 | Expanding the second of two columns keeps the first and appends the indicators of the second |
| Scenario.ProcessSecondExpanded | main.py:144-147 | When only the second of two prepared columns is multi-valued, the run ends with the first column and the indicators of the second |
| Scenario.ScenarioOutcome | main.py:147 | That outcome, for the example's filled columns, is the stated list of four columns |
| Scenario.ScenarioProcess | main.py:137-147 | The whole run on the example table gives the stated columns and rows |
| Scenario.SharedNormalized | main.py:138 | `Tags` and `tags` both become `tags` |
| Scenario.FillNothingMissing | main.py:141 | With a `resource_type` column and no missing cell, the fill step changes nothing |
| Scenario.DetectedNoneShared | main.py:144 | A comma-free column next to two columns sharing a label: nothing is listed |
| Scenario.ScenarioSharedLabel | main.py:137-147 | The run on `resource_type`, `Tags` = "a,b" and `tags` = "c" succeeds and writes both `tags` columns unchanged |

## Left out

- Reading and writing S3 objects (`pd.read_csv`, `to_csv`), CSV parsing and dialects: these are I/O.
  The model starts from the parsed table and ends with the table to be written.
- pandas' dtype inference: cells are text, integers or missing. Floats, booleans and dates are not
  modelled. NaN is the missing cell.
- The acceptance test of the `.str` accessor: it is modelled as "the column has no rows or holds
  some text". pandas decides by inferred dtype.
- The presence test of `get_dummies`: pandas looks for the separator-wrapped token in the
  separator-wrapped cell. For tokens without the separator this is membership among the pieces,
  which is what the model states.
- Lowercasing: ASCII only. Python's full Unicode case mapping is not modelled.
- Filling with a label that several columns carry: the model fills each such column. pandas'
  assignment through a duplicated label is not modelled further.
- Unpacking the Lambda event (bucket and key): the bucket and the key are parameters. The same goes
  for `load_dotenv`, logging and `print`, which are environment and output.
- The exception handling at the end of the handler, which only prints: the model returns the
  error instead.
- Handler.WritePathUnderLanding: proved only for bucket names without the letter `d`, so that no
  occurrence can start inside the bucket name. `Handler.WritePathLeavesNoLanding` and
  `Handler.WritePathSameIff` hold for every bucket and key.
