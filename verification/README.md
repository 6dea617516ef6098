# Recombination Annotator: a Dafny model of its annotation engine

The Recombination Annotator is a Dash web application. A user uploads a coverage track, the
read coverage along a yeast chromosome for two parental strains (W303 and YJM). The user
clicks on the plotted track to pick the left and right boundaries of a recombination event,
then stores the event as an annotation with its strain, chromosome, event type, LOH class and
transition label. Stored annotations can be searched, deleted and exported, each user seeing
only their own.

This project models the logic under the user interface, in `app.py`:

- **Chromosome table.** The fixed table between the chromosome names I..XVI and the numbers
  1..16 (module `Chromosomes`).
- **Upload.** Reading an uploaded track. The table arrives already split into cells; the step
  drops "chr" from chromosome names, reads positions as int64, collects the drop-down options
  and derives the strain label from the file name. It also picks the rows the plot shows for
  one chromosome (module `Upload`).
- **Boundary capture.** Plot clicks and the two boundary buttons, modelled as a state machine
  over what the page shows (module `Selection`).
- **Form check.** `form_check`, which decides whether the submit button is disabled (module
  `Form`).
- **Annotation records.** The records, the rows displayed for them, the five-key result order
  (SQLite's binary collation), the search filter, and the record sets that delete,
  delete-all and export touch (module `Annotations`).
- **Strain list.** The strain list typed into the export tab: tokens, de-duplication and the
  button caption (module `StrainList`).
- **Store.** The table as a class that the callbacks `insert`, `search`, `delete`,
  `delete_all` and `ad_export` read and change (module `Store`).

Shared vocabulary lives in `Base`: Option, Result, Dash's `no_update` as
`Update.NoUpdate`, sequence filtering, and order-preserving de-duplication. Python's
`str.split()`, `replace('chr', '')`, `str(int)` and `int(str)` live in `TextOps`.

**What the environment becomes:**

- The logged-in user's id is a parameter `owner`.
- "This callback was fired by its own button" (`dash.ctx.triggered_id`) is a boolean
  `pressed`.
- The SQLite table is a sequence of records in insertion order plus an id counter.
- The coverage values are opaque values of a type parameter `V`.

## Model

| member | source | states |
|---|---|---|
| Chromosomes.IdsAreOneToSixteen | app.py:62 | the chromosome numbers are exactly 1..16 |
| Chromosomes.NameRoundTrip | app.py:62-63 | a name mapped to its number and back is the same name |
| Chromosomes.IdRoundTrip | app.py:62-63 | a number mapped to its name and back is the same number |
| Chromosomes.NumbersAreDistinct | app.py:62-63 | no two names share a number, so swapping keys and values of the name table loses no entry |
| Chromosomes.InverseIsUnique | app.py:63 | any map with exactly the numbers of the name table as keys, each sent to a name of that number (what the swap builds), is `Id2Chrom` |
| TextOps.SplitYieldsWords | app.py:937 | `split()` yields non-empty tokens without whitespace |
| TextOps.SplitJoinRoundTrip | app.py:937 | splitting tokens joined by single spaces gives the tokens back |
| TextOps.SplitSameWords | app.py:936-937 | `split()` depends only on where the whitespace is, not which whitespace it is |
| TextOps.NewlinesAlreadySplit | app.py:936-937 | replacing newlines by spaces before `split()` changes no token |
| TextOps.RemoveChr | app.py:542 | removing "chr" never lengthens a name |
| TextOps.RemoveChrNoOccurrence | app.py:542 | a name without "chr" is left unchanged |
| TextOps.RemoveChrPrefix | app.py:542 | a leading "chr" is dropped and the rest is treated the same way |
| TextOps.RemoveChrCanLeaveChr | app.py:542 | the single pass of `replace` turns "cchrhr" into "chr", so a "chr" can remain |
| TextOps.NatText | app.py:943 | `str(n)` is a non-empty run of decimal digits |
| TextOps.DigitsOfNatText | app.py:943 | the digits of `str(n)` denote `n` |
| TextOps.ParseIntText | app.py:723 | `int(f"{x}") == x`: a clicked coordinate's text reads back as the coordinate |
| Base.FilterMembers | app.py:645 | a filter keeps exactly the elements that pass its test |
| Base.DedupMembers | app.py:938-941 | the de-duplicated list holds exactly the elements of the input |
| Base.DedupDistinct | app.py:938-941 | the de-duplicated list has no repeats |
| Base.DedupFirstAppearanceOrder | app.py:938-941 | the de-duplicated list is in order of first occurrence in the input |
| Base.DedupCount | app.py:938-943 | the size of the `seen` set equals the length of the de-duplicated list |
| Upload.ParseTrack | app.py:534-557 | the parse succeeds exactly when the header has four columns and every position is an int64; then it keeps one row per input row |
| Upload.ParsedRows | app.py:541-543 | each parsed row is its input row with "chr" removed from the chromosome and the position read as an integer |
| Upload.ChrPrefixStripped | app.py:542 | a cell "chr" + name, where the name holds no "chr", is read as that name |
| Upload.ChromosomeNamesReadBack | app.py:542 | each of the sixteen names, with or without "chr", is read as itself and can be looked up in the name table |
| Upload.OptionsAreDistinctChromosomes | app.py:551-553 | the drop-down options are the track's chromosomes, each once, in order of first appearance |
| Upload.StrainLabel | app.py:622 | `name[:-5]` plus the last five characters is the name; a name shorter than five gives "" |
| Upload.LoadOutput | app.py:617-633 | no upload means `no_update`; otherwise the result is an error exactly when the file cannot be parsed, and a successful upload loads the label `name[:-5]` with the parsed options and track |
| Upload.ChromRowsSelect | app.py:645 | the plot shows exactly the track rows of the chosen chromosome |
| Selection.DisplayClickData | app.py:718-723 | without click data the text is not updated; otherwise it is text that `int` reads back as the clicked x |
| Selection.SetBoundary | app.py:731-749 | a boundary is updated exactly when its own button fired and a point is selected, and then to the selected point |
| Selection.ClickEffect | app.py:715-723 | a click without data changes nothing; a click with data changes only the selected point |
| Selection.ButtonEffect | app.py:726-749 | a boundary button copies the selected point into its own boundary, if there is one, and changes nothing else |
| Selection.RunProvenance | app.py:715-749 | after any sequence of actions every shown value was shown before or is the text of a clicked point |
| Selection.BoundariesAreClickedPoints | app.py:715-749 | from the empty page, each boundary holds the text of a clicked coordinate, which `int` can read |
| Form.FormCheckAsWritten | app.py:851-859 | submit is enabled exactly when strain, chromosome, LOH class, right boundary and label are non-empty and the event is non-empty and not "Unknown"; the left boundary plays no part |
| Form.AsWrittenIgnoresLeft | app.py:854 | changing the left boundary never changes the as-written verdict |
| Form.AsWrittenEnablesIncompleteForm | app.py:853-855 | a form without a left boundary enables submit, yet `insert` stores nothing for it |
| Form.FormCheck | app.py:851-859 | the corrected check enables submit only for a form that `insert` accepts; it is the as-written check plus "left boundary filled" |
| Annotations.ToRow | app.py:797-801 | a row shows the chromosome by a name that maps back to the stored number |
| Annotations.ToRowDropsOnlyOwner | app.py:794-803 | two records of one owner show equal rows only if they are equal records |
| Annotations.StrLeTotal | app.py:788 | any two texts are ordered one way or the other |
| Annotations.StrLeAntisymmetric | app.py:788 | texts ordered both ways are equal |
| Annotations.StrLeTransitive | app.py:788 | the text order is transitive |
| Annotations.KeyLeTotal | app.py:788 | the five-key order relates any two records |
| Annotations.KeyLeTransitive | app.py:788 | the five-key order is transitive |
| Annotations.InsertByKey | app.py:788 | inserting a record adds exactly that record to the multiset |
| Annotations.InsertByKeySorted | app.py:788 | inserting into a sorted sequence keeps it sorted |
| Annotations.OrderedIsSortedPermutation | app.py:788 | query order is sorted by (strain, chromosome, event, LOH, label) and holds the same records |
| Annotations.SearchQuery | app.py:762-766 | an empty chromosome filter becomes "any"; any other is the number of that name |
| Annotations.AsWrittenAgreesBelowThreeFilters | app.py:771-784 | with at most two filters given, the branches as written are the conjunction of the given filters |
| Annotations.AsWrittenMissesWordEvents | app.py:785-786 | with all three filters given, the branch as written finds no record whose event starts with a letter |
| Annotations.AsWrittenMissesStoredRecord | app.py:786 | a stored (S1, IV, CON) record matches every filter yet the branch as written drops it |
| Annotations.SelectMembers | app.py:771-786 | a search selects exactly the owner's records that equal every given filter |
| Annotations.NoFilterSelectsOwnerRecords | app.py:771-772 | a search without filters selects all of the owner's records |
| Annotations.OrderedSelect | app.py:786-788 | the ordered search result is sorted, a permutation of the selection, and only owner records meeting the filters |
| Annotations.OwnedWithIdFound | app.py:883-889 | the lookup before a delete finds something exactly when the owner has a record with that id |
| Annotations.FilterKeepsIdsIncreasing | app.py:49 | deleting records keeps the ids increasing |
| Annotations.DeleteRemovesOnlyTarget | app.py:889-894 | deleting an id that a record holds removes that record alone and keeps the rest in order |
| Annotations.DeleteKeepsOtherOwners | app.py:883-894 | deleting one of the owner's records leaves every other owner's records unchanged |
| Annotations.DeleteThenNotFound | app.py:883-898 | after a delete no owner has a record with that id, so deleting it again fails |
| Annotations.DeleteAllScope | app.py:913 | delete-all leaves none of the owner's records and all of every other owner's |
| Annotations.StrainRecordsMembers | app.py:963 | the export holds exactly the owner's records whose strain is listed |
| Annotations.StrainRecordsIgnoreRepeats | app.py:957-963 | de-duplicating the strain list does not change which records are exported |
| Annotations.OrderedStrainRecords | app.py:963-964 | the export is sorted by the five keys, a permutation of the selection, owner records with listed strains only |
| StrainList.StrainTokens | app.py:956-957 | the tokens after replacing newlines are the plain `split()` of the text |
| StrainList.UniqueStrains | app.py:933-941 | the loop builds the de-duplicated token list and the set of tokens, of equal size |
| StrainList.StrainListShape | app.py:936-941 | the strain list has no repeats, holds exactly the tokens, and keeps first-occurrence order |
| StrainList.ValidExportTextarea | app.py:928-943 | no text disables the button with "Export IDs"; text enables it with "Export n IDs", n the number of distinct tokens |
| StrainList.BlankTextCountsNothing | app.py:930-943 | text of whitespace only yields no tokens yet counts as text |
| Store.NewRecord | app.py:827-829 | the stored chromosome number maps back to the chosen name; the boundaries are the integers `int` reads |
| Store.InsertedRowShowsDraft | app.py:827-829 | a stored draft displays the entered texts and chromosome name, with boundaries that read back as entered |
| Store.DisplayRows | app.py:794-803 | the loop yields one row per record, in order, each the displayed form of its record |
| Store.AnnotationStore.constructor | app.py:46-58 | the table starts empty with the first id 1 |
| Store.AnnotationStore.Insert | app.py:822-838 | only on submit with every field present is exactly one record appended, under a fresh id and the caller's owner id; otherwise nothing changes and it returns false |
| Store.AnnotationStore.Search | app.py:760-807 | no update unless the search button fired; then the owner's records that equal every given filter (the corrected event filter of the app.py:786 finding, `Annotations.Select`), in five-key order, shown as rows |
| Store.AnnotationStore.Delete | app.py:879-902 | success exactly when pressed with an id the owner holds, and the record is removed; failure when the owner holds no such id, with the table unchanged; no id means neither |
| Store.AnnotationStore.DeleteAll | app.py:909-921 | on its button the owner's records are removed and it returns true; otherwise nothing changes |
| Store.AnnotationStore.AdExport | app.py:950-975 | on its button, the owner's records whose strain is among the tokens, in five-key order, as rows without the owner column |

## Findings

| source | as written | input that shows it | evidently intended | confidence | as-written member | corrected member |
|---|---|---|---|---|---|---|
| app.py:854 | the left-boundary clause reads "not None or not empty", which every value meets | strain, chromosome, event, LOH, right boundary and label filled; left boundary empty: submit is enabled, and `insert` then stores nothing | the left boundary held to the same "not None and not empty" test as the right one | high (not executed) | Form.AsWrittenEnablesIncompleteForm | Form.FormCheck |
| app.py:786 | with strain, chromosome and event all given, the event column stands alone as a condition; SQLite reads text such as "CON" as 0, so the condition is false | a stored record (S1, IV, CON) and a search for strain S1, chromosome IV, event CON: the record is not returned | the event column compared with the chosen event, as in the other branches | high (not executed) | Annotations.AsWrittenMissesStoredRecord | Annotations.SelectMembers |

The store's `Search` uses the corrected filter (`Annotations.Matches`). The as-written filter
is kept beside it as `Annotations.MatchesAsWritten`.

## Left out

- File decoding is not modelled: base64, UTF-8, pandas `read_table` and the JSON
  round-trip of the track. The upload arrives as a header width and rows whose position cell
  either is an integer or is not. Any parse failure is the single error
  `CouldNotProcessFile`. On that path the source returns one element, which `load_output`
  then unpacks as a pair; the model returns the error as a value instead of
  reproducing that crash.
- The coverage columns w303 and yjm are floats. They are carried as opaque values; no
  arithmetic is done on them.
- The Plotly figure of `display_graph` is not modelled; only its row filter is
  (`Upload.ChromRows`).
- The Excel files written by `export` and `ad_export` (`to_excel`, `send_data_frame`) are
  not modelled; `AdExport` returns the rows of the sheet.
- The plain `export` callback is not modelled; it writes the search table to a file.
- Login, passwords and the users table are not modelled. The user id is the parameter
  `owner`. The case of a missing user id (`get_id()` returning None) is not modelled.
- Dash's dispatch is not modelled. Whether a callback was fired by its own button is the
  boolean `pressed`. The model does not capture which other inputs fire a callback or the
  order of callbacks.
- Text typed by hand into the boundary inputs is not part of `Selection`. `Insert` accepts
  any draft.
- Only the first clicked point's x is modelled, as an integer. A click whose point list is
  empty is not modelled.
- Store.AnnotationStore.Insert: requires that, when it would store, the chromosome is one of
  the sixteen names and both boundaries are integer text. The source raises a KeyError or
  ValueError there. Python's `int` also accepts surrounding whitespace, `_` between digits
  and non-ASCII digits, which `TextOps.ParseInt` does not.
- Store.AnnotationStore.Insert: ids come from a counter that never reuses an id. SQLite
  without AUTOINCREMENT may hand out the id of a deleted last row again. The 64-bit range
  of SQLite integers is not modelled either.
- Store.AnnotationStore.Search: requires a non-empty chromosome filter to be one of the
  sixteen names. The source raises a KeyError there, even when the search button did not
  fire.
- Store.AnnotationStore.Search: promises only that equal-key records come out in some
  order. SQLite fixes no order among records with equal (strain, chromosome, event, LOH,
  label).
- Store.AnnotationStore.AdExport: makes the same promise about equal-key records.
- Store.AnnotationStore.AdExport: requires text when its button fired. The source calls
  `replace` on None there and raises.
- Upload.ParseTrack: success is decided cell by cell (an int64 position in every row), while
  pandas types each column as a whole. Two cases differ: a position column read as floats
  (a cell `1200.5`) is truncated by `astype('int64')` and loads in the source, but fails
  here; and a chromosome column of plain numbers (`1`..`16`) is read as integers, so
  `replace` raises and the source reports the processing error, while the model accepts it.
- Store.AnnotationStore.Delete: the lookup and the delete by id are one step here; the
  source runs them as two statements on two connections.
- Store.AnnotationStore.Delete: the typed id is compared with the id column as an integer
  text (`TextOps.ParseInt`). SQLite's numeric conversion also accepts forms such as "5.0"
  or surrounding spaces.
- Annotations.MatchesAsWritten: how SQLite reads text as a condition is approximated by its
  numeric prefix without an exponent part.
- Upload.ChrPrefixStripped: states the "chr" removal only for names holding no "chr". One
  pass of `replace` can leave a "chr" behind (`TextOps.RemoveChrCanLeaveChr`), so "no parsed
  chromosome contains chr" does not hold for every input. It does hold for the sixteen
  chromosome names (`Upload.ChromosomeNamesReadBack`).
- Column length limits of the table (`String(20)` and the like) are not modelled; SQLite
  does not enforce them.
