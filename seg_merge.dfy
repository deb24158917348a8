/**
 * The merged segment data: the segment files of the sources, stacked into one table, and its
 * meta file, whose datatype, description, alteration type and reference genome are the
 * `;`-joins of what the source meta files give.
 */
module SegMerge {
  import opened Results
  import opened Text
  import opened Frames
  import opened ValueSets
  import opened MetaKeys

  // ---------------------------------------------------------------- the segment data

  /** The stack of the segment files that have data, in the order of the file list. */
  function SegFrame(xs: seq<Indexed>): Indexed
    requires forall j :: 0 <= j < |xs| ==> WellIndexed(xs[j])
  {
    NonEmptyWellIndexed(xs);
    ConcatIndexed(NonEmptyFrames(xs))
  }

  /** `pd.concat` of no frame raises ValueError; otherwise the stack is written with tabs. */
  function SegResult(xs: seq<Indexed>): Result<string, Error>
    requires forall j :: 0 <= j < |xs| ==> WellIndexed(xs[j])
  {
    if NonEmptyFrames(xs) == [] then Err(ValueError(NO_OBJECTS))
    else
      var m := SegFrame(xs);
      Ok(ToCsv(m))
  }

  /**
   * `load_seg_data` on the tables `pd.read_csv` reads from the file list (each with its first
   * column as the index): the empty ones skipped, the rest concatenated and written.
   */
  method LoadSegData(xs: seq<Indexed>) returns (r: Result<string, Error>)
    requires forall j :: 0 <= j < |xs| ==> WellIndexed(xs[j])
    ensures r == SegResult(xs)
  {
    var dfs := KeepNonEmpty(xs);
    if |dfs| == 0 {
      return Err(ValueError(NO_OBJECTS));
    }
    NonEmptyWellIndexed(xs);
    var mainDf := ConcatIndexed(dfs);
    r := Ok(ToCsv(mainDf));
  }

  /** The merge fails, with the message of `pd.concat`, exactly when no segment file has data. */
  lemma SegFailsIffEmpty(xs: seq<Indexed>)
    requires forall j :: 0 <= j < |xs| ==> WellIndexed(xs[j])
    ensures SegResult(xs).Err? <==> forall j :: 0 <= j < |xs| ==> IsEmpty(xs[j].body)
    ensures SegResult(xs).Err? ==> SegResult(xs).error == ValueError(NO_OBJECTS)
  {
    NonEmptyNone(xs);
  }

  /** When every file has data, every file is stacked. */
  lemma SegKeepsEveryFile(xs: seq<Indexed>)
    requires forall j :: 0 <= j < |xs| ==> WellIndexed(xs[j]) && !IsEmpty(xs[j].body)
    ensures SegFrame(xs) == ConcatIndexed(xs)
  {
    NonEmptyAll(xs);
  }

  /**
   * Every row of every file with data is in the stack, nothing dropped and nothing added: row
   * `i` of the `j`-th such file is row `RowsBefore + i`, realigned to the union of the columns,
   * with its own label.
   */
  lemma SegKeepsEveryRow(xs: seq<Indexed>, j: nat, i: nat)
    requires forall m :: 0 <= m < |xs| ==> WellIndexed(xs[m])
    requires j < |NonEmptyFrames(xs)| && i < |NonEmptyFrames(xs)[j].labels|
    ensures var ys := NonEmptyFrames(xs); var m := SegFrame(xs); var at := RowsBefore(Bodies(ys), j) + i;
            && |m.labels| == TotalRows(Bodies(ys))
            && at < |m.labels|
            && m.labels[at] == ys[j].labels[i]
            && m.body.rows[at] == Align(ys[j].body.columns, ys[j].body.rows[i], m.body.columns)
  {
    NonEmptyWellIndexed(xs);
    StackKeepsRow(NonEmptyFrames(xs), j, i);
  }

  lemma StackKeepsRow(ys: seq<Indexed>, j: nat, i: nat)
    requires forall m :: 0 <= m < |ys| ==> WellIndexed(ys[m])
    requires j < |ys| && i < |ys[j].labels|
    ensures var m := ConcatIndexed(ys); var at := RowsBefore(Bodies(ys), j) + i;
            && |m.labels| == TotalRows(Bodies(ys))
            && at < |m.labels|
            && m.labels[at] == ys[j].labels[i]
            && m.body.rows[at] == Align(ys[j].body.columns, ys[j].body.rows[i], m.body.columns)
  {
    var bodies := Bodies(ys);
    AllRectangular(bodies);
    StackRowsAt(bodies, UnionColumns(bodies), j, i);
    AllLabelsAt(ys, j, i);
  }

  /** Written out, the stack has its header line, one line per row and nothing after the last newline. */
  lemma SegLineCount(xs: seq<Indexed>)
    requires forall j :: 0 <= j < |xs| ==> WellIndexed(xs[j])
    requires NonEmptyFrames(xs) != [] && PlainText(SegFrame(xs))
    ensures SegResult(xs).Ok?
    ensures |Split(SegResult(xs).value, '\n')| == 2 + TotalRows(Bodies(NonEmptyFrames(xs)))
  {
    ToCsvLines(SegFrame(xs));
  }

  // ---------------------------------------------------------------- the segment meta file

  /** The keys `create_seg_meta` joins by `;`, in order. */
  const SEG_KEYS := [DATATYPE, DESCRIPTION, GENETIC_ALTERATION_TYPE, REFERENCE_GENOME_ID]

  /** The joined values: for each of the four keys, the `;`-join of the values the source meta files give. */
  ghost predicate SegMetaData(docs: seq<Doc>, meta: map<string, string>)
  {
    && meta.Keys == {DATATYPE, DESCRIPTION, GENETIC_ALTERATION_TYPE, REFERENCE_GENOME_ID}
    && forall k :: k in meta ==> JoinedFrom(meta[k], ";", ValuesOf(docs, k))
  }

  /** The six lines of the segment meta file, in the order `create_seg_meta` writes them. */
  function SegMetaText(studyId: string, fileName: string, meta: map<string, string>): string
    requires DATATYPE in meta && DESCRIPTION in meta && GENETIC_ALTERATION_TYPE in meta && REFERENCE_GENOME_ID in meta
  {
    MetaText([(CANCER_STUDY_IDENTIFIER, studyId), (DATA_FILENAME, fileName), (DATATYPE, meta[DATATYPE]),
              (DESCRIPTION, meta[DESCRIPTION]), (GENETIC_ALTERATION_TYPE, meta[GENETIC_ALTERATION_TYPE]),
              (REFERENCE_GENOME_ID, meta[REFERENCE_GENOME_ID])])
  }

  /**
   * `create_seg_meta` on the parsed source meta files: KeyError on the first of the four keys
   * that no source has; otherwise the meta file of the merged study and segment file.
   */
  method CreateSegMeta(docs: seq<Doc>, studyId: string, segFileName: string) returns (r: Result<string, Error>)
    ensures r.Err? <==> FirstNotIn(KeysOf(docs), SEG_KEYS).Some?
    ensures r.Err? ==> r.error == KeyError(FirstNotIn(KeysOf(docs), SEG_KEYS).value)
    ensures r.Ok? ==> exists meta :: SegMetaData(docs, meta) && r.value == SegMetaText(studyId, segFileName, meta)
  {
    var metaData := GetValues(docs);
    var joined := JoinKeys(metaData, SEG_KEYS);
    if joined.Err? {
      return Err(joined.error);
    }
    assert joined.value.Keys == {DATATYPE, DESCRIPTION, GENETIC_ALTERATION_TYPE, REFERENCE_GENOME_ID} by {
      assert SEG_KEYS[0] == DATATYPE && SEG_KEYS[1] == DESCRIPTION;
      assert SEG_KEYS[2] == GENETIC_ALTERATION_TYPE && SEG_KEYS[3] == REFERENCE_GENOME_ID;
    }
    assert SegMetaData(docs, joined.value);
    r := Ok(SegMetaText(studyId, segFileName, joined.value));
  }

  /** The segment meta file has its six lines in order, the study and file those of the merge. */
  lemma SegMetaLines(studyId: string, fileName: string, meta: map<string, string>)
    requires DATATYPE in meta && DESCRIPTION in meta && GENETIC_ALTERATION_TYPE in meta && REFERENCE_GENOME_ID in meta
    requires '\n' !in studyId && '\n' !in fileName
    requires forall k :: k in meta ==> '\n' !in meta[k]
    ensures var lines := Split(SegMetaText(studyId, fileName, meta), '\n');
            && |lines| == 7 && lines[6] == ""
            && lines[0] == Entry(CANCER_STUDY_IDENTIFIER, studyId) && lines[1] == Entry(DATA_FILENAME, fileName)
            && lines[2] == Entry(DATATYPE, meta[DATATYPE]) && lines[3] == Entry(DESCRIPTION, meta[DESCRIPTION])
            && lines[4] == Entry(GENETIC_ALTERATION_TYPE, meta[GENETIC_ALTERATION_TYPE])
            && lines[5] == Entry(REFERENCE_GENOME_ID, meta[REFERENCE_GENOME_ID])
  {
    CommonKeysPlain();
    StudyKeysPlain();
    SegKeysPlain();
    MetaTextLines([(CANCER_STUDY_IDENTIFIER, studyId), (DATA_FILENAME, fileName), (DATATYPE, meta[DATATYPE]),
                   (DESCRIPTION, meta[DESCRIPTION]), (GENETIC_ALTERATION_TYPE, meta[GENETIC_ALTERATION_TYPE]),
                   (REFERENCE_GENOME_ID, meta[REFERENCE_GENOME_ID])]);
  }

  /** Source meta files that agree on one of the four keys give the merged file their common value. */
  lemma SegMetaAgreeing(docs: seq<Doc>, meta: map<string, string>, key: string, v: string)
    requires SegMetaData(docs, meta)
    requires key in meta && key in KeysOf(docs)
    requires forall i :: 0 <= i < |docs| && key in docs[i] ==> docs[i][key] == v
    ensures meta[key] == v
  {
    JoinedAgreeing(docs, key, v, ";", meta[key]);
  }

  /** Two source files that disagree on one of the four keys both appear in the merged value, which then has at least two pieces. */
  lemma SegMetaDisagreeing(docs: seq<Doc>, meta: map<string, string>, key: string, a: nat, b: nat)
    requires SegMetaData(docs, meta) && key in meta
    requires a < |docs| && b < |docs| && key in docs[a] && key in docs[b] && docs[a][key] != docs[b][key]
    requires forall i :: 0 <= i < |docs| && key in docs[i] ==> ';' !in docs[i][key]
    ensures docs[a][key] in Split(meta[key], ';') && docs[b][key] in Split(meta[key], ';')
    ensures |Split(meta[key], ';')| >= 2
  {
    JoinedDisagreeing(docs, key, ';', meta[key], a, b);
  }
}
