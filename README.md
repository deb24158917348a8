# cBioPortal study merge: a Dafny model of the merge core

The merge tool joins several cBioPortal studies into one. Its core is in four Python modules:

- `common/clinical_data_merge.py` reconciles the four `#` attribute lines that head every clinical
  file across the studies, against the canonical attribute list. It merges the sample and patient
  tables and renders the merged clinical file. It also merges the copy-number/fusion matrices
  (a column-wise outer join on the gene) and the mutation tables (a row-wise stack).
- `common/clinical_meta_merge.py` writes the clinical meta files and the fixed profile meta
  blocks. It also builds the study meta file: the caller's title and description override the
  joined ones, joined values are truncated to the portal's limits, and the cancer type is the
  OncoTree ancestor's code, with the tree's root reported as `mixed`.
- `common/case_lists_merge.py` makes case-list files YAML-safe by removing tabs. It unites the
  sample identifiers of all source lists and fills in the merged study's `stable_id` and
  `cancer_study_identifier`. It writes the six-line case list.
- `common/seg_merge.py` stacks the segment files that have data, and joins the segment meta
  fields.

Files are taken as already read:
- A table is a column list plus rows of cells (`Frames.Table`). A table read with an index column
  also carries its row labels (`Frames.Indexed`).
- A parsed YAML document is a `map<string, string>` (`ValueSets.Doc`).

Python exceptions become `Result` errors: `KeyError(key)`, `KeyLabels(labels)` (the KeyError
pandas raises with every missing subset label of `drop_duplicates`), `IndexError`, `TypeError`,
`ValueError` and `Exit(code)`. A Python set has no fixed iteration order, so the model has none
either:
- methods walk sets with `:|`;
- a `"sep".join` of a set is stated by `Text.JoinedFrom`, which says the result is the join of
  some duplicate-free listing of the set.

Modules:
- `Results`: Option, Result, errors, and the first absent key of a list.
- `Text`: `str.join`, `str.split`, `str.strip`, `str.replace`, `str.lower`, `str(int)`,
  slicing, and listings of sets.
- `Frames`: the pandas operations.
- `ValueSets`: `get_values`, which appears in three copies and is modelled once; joining a
  key's value set; rendering `key: value` lines.
- `MetaKeys`: the file keys and fixed values, with the fact that none holds a line break.
- One module per core file: `ClinicalDataMerge`, `ClinicalMetaMerge`, `CaseListsMerge` and
  `SegMerge`.

## Model

| member | source | states |
|---|---|---|
| ClinicalDataMerge.FormatString | common/clinical_data_merge.py:161-164 | fails with IndexError exactly on the empty string (`s[0]`) |
| ClinicalDataMerge.FormatStringDropsOneHash | common/clinical_data_merge.py:161-164 | at most one leading `#` is dropped, only when the first character is `#`; the result is a suffix of the input |
| ClinicalDataMerge.MatchHeadersWithData | common/clinical_data_merge.py:153-159 | the value read is never an integer (a string or None) |
| ClinicalDataMerge.MatchHeadersWithDataField | common/clinical_data_merge.py:153-159 | None exactly when the index is past the end of the stripped tab-split row or the field is empty (the exception is swallowed); otherwise the field with one `#` removed |
| ClinicalDataMerge.MetasAtIndex | common/clinical_data_merge.py:147-150 | the metadata read for column i comes from field i of the four metadata rows |
| ClinicalDataMerge.CompiledAt | common/clinical_data_merge.py:142-151 | the keys are exactly the column keys of line 5; for the last occurrence of a key, its record holds field i of lines 1–4 as display_name/desc/datatype/priority |
| ClinicalDataMerge.CompileAttrs | common/clinical_data_merge.py:142-151 | the loop builds exactly the compiled records, a later duplicate key overwriting the four fields |
| ClinicalDataMerge.GetAttr | common/clinical_data_merge.py:135-140 | IndexError exactly when the file has fewer than five lines, where the text is the file read with universal newlines (`FileTexts`); otherwise the records compiled from the first five lines |
| ClinicalDataMerge.GetClinicalAttrs | common/clinical_data_merge.py:109-115 | Ok exactly when every file has five lines, then one record map per file in order; IndexError otherwise |
| ClinicalDataMerge.FirstWinsKeys | common/clinical_data_merge.py:98-103 | the union's keys are exactly the keys found in some file |
| ClinicalDataMerge.FirstWinsFirst | common/clinical_data_merge.py:98-103 | a key keeps the record of the first file that declares it |
| ClinicalDataMerge.OverrideAttr | common/clinical_data_merge.py:117-121 | same keys; keys in the canonical map get its record, other records unchanged |
| ClinicalDataMerge.OverriddenIdempotent | common/clinical_data_merge.py:117-121 | overriding twice is overriding once |
| ClinicalDataMerge.CheckAttr | common/clinical_data_merge.py:123-133 | passes exactly when every canonical property of every shared key is present with the canonical value; otherwise Exit(1) for a mismatch, or KeyError for a property the record lacks |
| ClinicalDataMerge.CheckAfterOverride | common/clinical_data_merge.py:104-105 | run right after the override, the check can never fail |
| ClinicalDataMerge.GetUnionAttrs | common/clinical_data_merge.py:96-106 | the first-wins union overridden by the canonical list, never an exit |
| ClinicalDataMerge.GetValue | common/clinical_data_merge.py:65-68 | the result is never an integer |
| ClinicalDataMerge.GetValueText | common/clinical_data_merge.py:65-68 | an integer becomes its decimal digits (with `-` when negative), reading back to the same number; any other value is returned as it is |
| ClinicalDataMerge.ColumnAt | common/clinical_data_merge.py:45-49 | entry k of a header list is the property of the k-th column's record, stringified |
| ClinicalDataMerge.JoinValues | common/clinical_data_merge.py:51-54 | the tab-join succeeds exactly when no entry is None; otherwise the TypeError `sequence item k: expected str instance, NoneType found` for the first None entry k |
| ClinicalDataMerge.MissingIn | common/clinical_data_merge.py:45-49 | nothing missing exactly when the column has a record with all four properties; otherwise the missing key |
| ClinicalDataMerge.FirstMissingNone | common/clinical_data_merge.py:45-49 | no lookup fails exactly when every column has a full record |
| ClinicalDataMerge.FirstMissingAt | common/clinical_data_merge.py:45-49 | the KeyError raised is that of the first column, in table order, whose lookup fails |
| ClinicalDataMerge.CreatePortalHeader | common/clinical_data_merge.py:38-55 | the loop over the columns and the four joins give exactly the header the specification function renders, KeyError and TypeError included |
| ClinicalDataMerge.PortalHeaderColumns | common/clinical_data_merge.py:45-55 | with every record present, the header is the four property lists in table column order, rendered |
| ClinicalDataMerge.PortalHeaderLines | common/clinical_data_merge.py:51-54 | exactly four lines, one per property list, and nothing after the last newline |
| ClinicalDataMerge.HeaderLineFields | common/clinical_data_merge.py:51-54 | each header line starts with `#` and splits at the tabs into one field per column |
| ClinicalDataMerge.HeaderFieldAt | common/clinical_data_merge.py:45-54 | field k of a header line is column k's property text, an integer written in decimal |
| ClinicalDataMerge.HeaderText | common/clinical_data_merge.py:51-54 | the string built line by line is the four `#` lines joined with newlines |
| ClinicalDataMerge.CreateDataRows | common/clinical_data_merge.py:57-63 | the column line, then one line per row, each newline-terminated |
| ClinicalDataMerge.DataRowsLines | common/clinical_data_merge.py:57-63 | 1 + (number of rows) lines; the first splits into the column names, line i+1 into the texts of row i |
| ClinicalDataMerge.PlainLine | common/clinical_data_merge.py:58-62 | a tab-join of tab- and newline-free fields is one line that splits back into those fields |
| ClinicalDataMerge.Combined | common/clinical_data_merge.py:76 | ValueError exactly when there is no table; otherwise the columns of the stack |
| ClinicalDataMerge.CombineFiles | common/clinical_data_merge.py:70-76 | each table filled, stacked, and deduplicated on whole rows |
| ClinicalDataMerge.CombineFilesKeepsDistinct | common/clinical_data_merge.py:76 | with no two identical rows, nothing is removed |
| ClinicalDataMerge.CombineFilesKeepsSampleTwice | common/clinical_data_merge.py:76 | two rows with the same SAMPLE_ID that differ in another column are both kept |
| ClinicalDataMerge.CombinedPatients | common/clinical_data_merge.py:84 | ValueError when there is no table; an empty stack (no rows or no columns) returned as it is; KeyError naming PATIENT_ID when a stack with data lacks it |
| ClinicalDataMerge.CombineFilesPatient | common/clinical_data_merge.py:78-84 | each table filled, stacked, and deduplicated on PATIENT_ID, with the same errors and the same empty-stack case |
| ClinicalDataMerge.CombinePatientsNeedsColumn | common/clinical_data_merge.py:84 | the patient merge succeeds exactly when there is a table and some table has PATIENT_ID, or no table has a row, or no table has a column |
| ClinicalDataMerge.SamplesOrder.constructor | common/clinical_data_merge.py:17 | the shared column order starts as SAMPLE_ID, PATIENT_ID |
| ClinicalDataMerge.SamplesOrder.CreateColOrder | common/clinical_data_merge.py:86-93 | with SAMPLE_ID among the keys, the shared list itself is extended with the new keys and returned; otherwise a fresh list of the keys, the shared one untouched |
| ClinicalDataMerge.ColOrderFirst | common/clinical_data_merge.py:86-93 | SAMPLE_ID and PATIENT_ID come first, each key once, and nothing else |
| ClinicalDataMerge.ColOrderPlain | common/clinical_data_merge.py:86-93 | without SAMPLE_ID, distinct keys keep their order |
| ClinicalDataMerge.ColOrderAccumulates | common/clinical_data_merge.py:89-92 | keys of an earlier call remain in the order a later call returns |
| ClinicalDataMerge.MergeCnaFusions | common/clinical_data_merge.py:173-188 | the non-empty frames joined along columns, NaN optionally filled with "NA", the index named Hugo_Symbol, written out; "" when none has data |
| ClinicalDataMerge.CnaFusionsEmpty | common/clinical_data_merge.py:185-187 | the output is "" exactly when every input is empty |
| ClinicalDataMerge.CnaFusionsCell | common/clinical_data_merge.py:180-183 | the cell of gene g in column k of frame j is that frame's cell for g, or NaN (or "NA" when filling) if the frame lacks the gene |
| ClinicalDataMerge.CnaFusionsLines | common/clinical_data_merge.py:180-184 | one line per gene of any frame, plus the header; the header is Hugo_Symbol and every frame's columns side by side |
| ClinicalDataMerge.FileSet.Pop | common/clinical_data_merge.py:169 | a non-empty set gives up one member, which is removed; an empty set raises KeyError |
| ClinicalDataMerge.ReturnOnlyHeader | common/clinical_data_merge.py:167-171 | the header of a popped file (removed from the set); KeyError on an empty set |
| ClinicalDataMerge.HeaderOnlyLines | common/clinical_data_merge.py:171 | one line: the data columns joined by tabs, without the index column |
| ClinicalDataMerge.MergeMutations | common/clinical_data_merge.py:191-207 | with data, the stack written out and the set untouched; with none, the header of a popped file and the file removed; an empty set raises KeyError; a stack without some identifying column raises the KeyError naming every absent one |
| ClinicalDataMerge.WriteMutations | common/clinical_data_merge.py:199-203 | the stack, optionally filled, is written out whenever the identifying columns exist; otherwise one KeyError with the set of absent ones |
| ClinicalDataMerge.MutationsNeedColumns | common/clinical_data_merge.py:202 | the deduplication fails exactly when an identifying column is in no frame, and its KeyError names exactly the identifying columns that no frame has |
| ClinicalDataMerge.StackedHasAll | common/clinical_data_merge.py:199-202 | the stack has a column exactly when some frame has it |
| ClinicalDataMerge.MutationsKeepEveryRow | common/clinical_data_merge.py:199-203 | the deduplication result is discarded, so row i of frame j is in the output at RowsBefore + i, realigned to the union of the columns; with fillna, the same row with every NaN cell written as "NA" |
| ClinicalDataMerge.RunMerge | common/clinical_data_merge.py:20-27 | header then data rows of the sample merge, with every error of the steps propagated |
| ClinicalDataMerge.RunMergePatient | common/clinical_data_merge.py:29-36 | as above, with the patient deduplication |
| ClinicalDataMerge.MergedLines | common/clinical_data_merge.py:24-26 | the merged file is the four header lines followed by the data lines |
| ClinicalMetaMerge.MetaClinicalLines | common/clinical_meta_merge.py:9-17 | four lines: study, CLINICAL, datatype, then data_clinical_sample.txt exactly when the datatype is SAMPLE_ATTRIBUTES, data_clinical_patient.txt otherwise |
| ClinicalMetaMerge.MetaBlockLines | common/clinical_meta_merge.py:59-66 | a profile meta block is eight `key: value` lines, in order |
| ClinicalMetaMerge.MakeMetaFiles | common/clinical_meta_merge.py:55-68 | one block per input key, no other key |
| ClinicalMetaMerge.MakeMetaInfo | common/clinical_meta_merge.py:23-52 | exactly the keys meta_CNA.txt, meta_fusions.txt and meta_mutations_extended.txt, each the block of its fixed values |
| ClinicalMetaMerge.MetaInfoFirstLine | common/clinical_meta_merge.py:25-59 | each block's first line is `cancer_study_identifier: <study_id>` |
| ClinicalMetaMerge.MetaInfoLines | common/clinical_meta_merge.py:25-68 | each block has eight lines |
| ClinicalMetaMerge.OverriddenBound | common/clinical_meta_merge.py:76-88 | a supplied value is taken verbatim; otherwise the value is a prefix, at most the limit long, of a `;`-join of the source values |
| ClinicalMetaMerge.OverriddenAgreeing | common/clinical_meta_merge.py:79-80 | sources that agree give their common value, truncated to the limit |
| ClinicalMetaMerge.OverriddenListing | common/clinical_meta_merge.py:79-88 | when no truncation happened, splitting at `;` gives every source value once |
| ClinicalMetaMerge.StudyTextLines | common/clinical_meta_merge.py:97-103 | six lines in the order cancer_study_identifier, description, name, groups, short_name, type_of_cancer |
| ClinicalMetaMerge.OncoCode | common/clinical_meta_merge.py:127-129 | the ancestor's code in lower case, `mixed` exactly when that is `tissue` or `mixed`; never `tissue` |
| ClinicalMetaMerge.GetMetaStudy | common/clinical_meta_merge.py:72-103 | KeyError on name, description or groups exactly when it is needed and absent, in that order; otherwise the title and description overridden or joined and cut at 255/1000, groups joined, the study id as identifier and short name |
| CaseListsMerge.NormalizeLineNoTab | common/case_lists_merge.py:24-25 | no tab is left |
| CaseListsMerge.NormalizeLineWithoutTab | common/case_lists_merge.py:24-25 | a line with no tab is left unchanged |
| CaseListsMerge.NormalizeLineIdempotent | common/case_lists_merge.py:24-25 | normalising twice is normalising once |
| CaseListsMerge.NormalizeLineKeepsBreaks | common/case_lists_merge.py:24-25 | the number of line breaks is unchanged |
| CaseListsMerge.NormalizeKeyValue | common/case_lists_merge.py:24 | `key:\tvalue` becomes `key: value` |
| CaseListsMerge.RemoveTabs | common/case_lists_merge.py:23-25 | every line of the file is rewritten in place by the two replacements |
| CaseListsMerge.NormalizedFile | common/case_lists_merge.py:19-27 | the file written back has no tab and as many line breaks as the file read |
| CaseListsMerge.AddTokens | common/case_lists_merge.py:62-65 | the stripped comma-pieces of one list are added to the set |
| CaseListsMerge.CaseIdsAdd | common/case_lists_merge.py:61-65 | one more list adds exactly its tokens |
| CaseListsMerge.CaseIdsUnion | common/case_lists_merge.py:58-66 | the identifiers of two groups of lists are the union of each group's |
| CaseListsMerge.TokensOfJoin | common/case_lists_merge.py:62-65 | a comma-join of plain identifiers gives back exactly those identifiers |
| CaseListsMerge.TrailingComma | common/case_lists_merge.py:62-65 | a trailing comma contributes the empty identifier |
| CaseListsMerge.CaseIdsOverlap | common/case_lists_merge.py:58-66 | `a,b,c` and `b,c,d` give the identifiers a, b, c, d |
| CaseListsMerge.GetCaseListIds | common/case_lists_merge.py:58-66 | KeyError when no list has case_list_ids; otherwise the tab-join of some listing of all tokens, each once |
| CaseListsMerge.FilledIn | common/case_lists_merge.py:35-45 | the ids, the merged study's identifier and stable id, and the joined keys make up the case list's data |
| CaseListsMerge.MakeCaseLists | common/case_lists_merge.py:30-47 | KeyError on the first of case_list_ids, name, description, category that no source has; otherwise the case list written from the filled-in data |
| CaseListsMerge.CaseListsLines | common/case_lists_merge.py:49-56 | six lines in the order category, stable_id, name, description, cancer_study_identifier, case_list_ids; stable_id is `<study>_<type>`, the identifier the study id |
| CaseListsMerge.CaseListsAgreeing | common/case_lists_merge.py:40-45 | sources that agree on name, description or category give that single value |
| CaseListsMerge.CaseListsIds | common/case_lists_merge.py:66 | split at the tabs, the ids give every identifier once |
| SegMerge.LoadSegData | common/seg_merge.py:4-12 | the empty tables skipped, the rest concatenated and written; ValueError when none is left |
| SegMerge.SegFailsIffEmpty | common/seg_merge.py:10 | the ValueError of `pd.concat` exactly when every input is empty; there is no fallback |
| SegMerge.SegKeepsEveryFile | common/seg_merge.py:6-10 | when all inputs have data, all are stacked |
| SegMerge.SegKeepsEveryRow | common/seg_merge.py:5-11 | row i of the j-th input with data is row RowsBefore + i of the output, with its label; the row count is the sum of the inputs' rows (no dedup) |
| SegMerge.StackKeepsRow | common/seg_merge.py:10 | the same for the concatenation of any well-formed frames |
| SegMerge.SegLineCount | common/seg_merge.py:11 | the written stack has a header line, one line per row, and nothing after the last newline |
| SegMerge.CreateSegMeta | common/seg_merge.py:14-26 | KeyError on the first of datatype, description, genetic_alteration_type, reference_genome_id that no source has; otherwise the file written from the `;`-joins |
| SegMerge.SegMetaLines | common/seg_merge.py:20-26 | six lines in order; the identifier is the study id and data_filename the merged file name |
| SegMerge.SegMetaAgreeing | common/seg_merge.py:17-19 | sources that agree give that single value |
| SegMerge.SegMetaDisagreeing | common/seg_merge.py:17-19 | two disagreeing sources both appear in the joined value, without error |
| ValueSets.GetValues | common/clinical_meta_merge.py:105-112 | the keys are the union of the documents' keys, each mapped to exactly the set of its values (the copies at common/case_lists_merge.py lines 75-82 and common/seg_merge.py lines 35-42 are the same function) |
| ValueSets.JoinKeys | common/seg_merge.py:17-19 | Ok exactly when every key is present; KeyError on the first absent one; each value becomes a `;`-join of a listing of its set (the same loop as common/case_lists_merge.py lines 44-45) |
| ValueSets.JoinedAgreeing | common/case_lists_merge.py:41-45 | agreeing inputs give the single value |
| ValueSets.JoinedDisagreeing | common/case_lists_merge.py:40-45 | disagreeing inputs both survive in the join |
| ValueSets.RenderKeys | common/case_lists_merge.py:49-56 | Ok exactly when every rendered key is present, otherwise KeyError on the first absent one |
| ValueSets.RenderKeysLines | common/case_lists_merge.py:49-56 | one `key: value` line per key, in order |
| ValueSets.MetaTextLines | common/seg_merge.py:20-25 | successive `key: %s\n` appends give one line per entry |
| ValueSets.MetaTextFirstLine | common/clinical_meta_merge.py:59 | the first line is the first entry |
| Text.SplitJoin | common/case_lists_merge.py:62 | splitting a join of separator-free pieces gives the pieces back |
| Text.JoinSplit | common/case_lists_merge.py:62 | joining the pieces of a split gives the string back |
| Text.Take | common/clinical_meta_merge.py:79 | `s[:n]`: the first n characters, or the whole string when shorter |
| Text.JoinSet | common/clinical_meta_merge.py:91 | `";".join(list(s))` is the join of some listing of the set |
| Text.JoinedSplit | common/case_lists_merge.py:66 | splitting such a join gives every member once |
| Text.ReplaceCharRemoves | common/case_lists_merge.py:25 | replacing a character by another leaves none of it |
| Text.ReplaceKeepsCount | common/case_lists_merge.py:24-25 | a replacement that does not involve a character keeps its count |
| Text.LowerIsLowerCase | common/clinical_meta_merge.py:127-129 | `lower()` gives lower case, and leaves lower case alone |
| Text.UniversalNewlinesNoCr | common/clinical_data_merge.py:136-137 | text read in `'r'` mode holds no `\r`, and is no longer than the file |
| Text.UniversalNewlinesIdle | common/clinical_data_merge.py:136-137 | a file without `\r` is read as it is |
| Text.UniversalNewlinesCount | common/clinical_data_merge.py:136-137 | each `\r\n`, lone `\r` and lone `\n` of the file becomes exactly one `\n` |
| Text.NatToStringRoundTrip | common/clinical_data_merge.py:66-67 | `str` of a natural number reads back to the same number |
| Frames.UnionColumns | common/clinical_data_merge.py:199 | the stack's columns are each frame's columns, each once |
| Frames.StackRowsAt | common/clinical_data_merge.py:199 | row i of frame j is at RowsBefore + i of the stack, realigned |
| Frames.AllLabelsAt | common/seg_merge.py:10 | label i of frame j is at the same position of the stack |
| Frames.ConcatIndexed | common/seg_merge.py:10 | one label per row of all inputs |
| Frames.ConcatEmpty | common/clinical_data_merge.py:84 | the stack is empty exactly when every frame lacks rows or every frame lacks columns |
| Frames.ConcatSameColumns | common/clinical_data_merge.py:76 | frames with the same columns stack to their rows in order |
| Frames.KeepNonEmpty | common/seg_merge.py:6-9 | the loop keeps exactly the non-empty frames, in order |
| Frames.NonEmptyNone | common/seg_merge.py:8-10 | no frame is kept exactly when every frame is empty |
| Frames.NonEmptyAll | common/clinical_data_merge.py:178-179 | the filter removes nothing when all frames have data |
| Frames.UnionLabels | common/clinical_data_merge.py:180 | the join's genes are the genes of any frame, each once |
| Frames.JoinedRowAt | common/clinical_data_merge.py:180 | the joined cell is the frame's cell for the gene, or NaN |
| Frames.FillNa | common/clinical_data_merge.py:182 | every NaN becomes the fill value, all else is kept |
| Frames.FillNaIdle | common/clinical_data_merge.py:74 | filling a frame without NaN changes nothing |
| Frames.DropDuplicatesExact | common/clinical_data_merge.py:76 | an empty frame (no rows or no columns) is kept as it is; otherwise the survivors are pairwise different, and every row is among them, as its first occurrence |
| Frames.DropDuplicatesOnFirst | common/clinical_data_merge.py:84 | exactly one row per key value, the first in order |
| Frames.DistinctTwice | common/clinical_data_merge.py:76 | deduplicating doubled rows is deduplicating them once |
| Frames.ToCsvLines | common/seg_merge.py:11 | `to_csv(sep='\t')` gives a header line and one line per row, fields split back |

## Left out

- Reading and writing files is not modelled, because it is I/O. This covers `open`,
  `readlines`/`writelines`, `islice`, the temporary copies of `return_tmpfiles_from_file_list`,
  and `load_meta`, `load_meta_files` and `load_case_lists_files`. The model takes the files as
  they are read:
  - parsed YAML documents;
  - tables as pandas reads them;
  - the five head lines of a clinical file as text.
- `modify_files_to_remove_tabs` is modelled for the lines of one file (`RemoveTabs`). The loop
  over the file list only repeats it.
- `pd.read_csv` parsing (quoting, dtype inference, duplicate-column renaming, `comment='#'`) and
  the formatting of `to_csv` are not modelled, because they are library internals. Cells are
  strings, and NaN is written as the empty field.
- The values of the meta and case-list YAML documents are taken to be strings. A number or list
  there, and the TypeError it would cause in a join, is not modelled.
- The canonical attribute records hold strings, integers or None (`ClinicalDataMerge.Value`). A
  YAML boolean, which `get_value` would turn into `True` or `False` since `bool` is a subclass of
  `int`, and a float, which would raise TypeError in the header join, are not modelled.
- `CheckAttr` reports *some* mismatching or missing property, not the first in Python's
  insertion order, because maps carry no order here.
- `ConcatColumns` does not model the error pandas raises for duplicate row labels within one
  frame: a gene's first row is taken.
- `get_onco_code`: the OncoTree lookup (`OncotreeDataHandler`) is the parameter `lca`. The code
  list read from the clinical sample file is the parameter `codes`.
- `get_union_attrs`: the canonical `data.yaml` loaded through `pkgutil` is the parameter
  `canonical`.
- `print` and `sys.exit` become an `Exit(1)` error or are dropped, because they are side
  effects.
- `SamplesOrder.CreateColOrder` returns a copy of the shared list. In Python it returns the
  shared list itself, so a list handed out earlier keeps growing with later calls. The model
  keeps the growth of the shared list (`ColOrderAccumulates`) but not that aliasing of earlier
  results; nothing in the core calls the function.
- `set.pop` takes an unspecified member. `FileSet.Pop` and `ReturnOnlyHeader` say only that some
  member is taken and removed.
- `Text.Lower` maps ASCII letters only. Python's Unicode case mapping is not modelled.
- `get_columns_from_files` and `represents_int` are not modelled, because nothing in the core
  calls them. `cbioportal_merge.py`, which discovers files and writes the outputs, is not part
  of this model.
- `MakeCaseLists`: the other keys of the source lists, which stay sets and are never written,
  are not part of the modelled data.
- `MetaInfoLines` states only the line count of each fixed block. `MetaBlockLines` gives the
  line contents of any block whose values are newline-free.
