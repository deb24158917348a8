/**
 * The meta files of the merged study: the clinical meta files, the fixed meta files of the
 * copy-number, fusion and mutation profiles, and the study meta file, whose name and
 * description come from the caller or from the source studies' meta files.
 */
module ClinicalMetaMerge {
  import opened Results
  import opened Text
  import opened ValueSets
  import opened MetaKeys

  // ---------------------------------------------------------------- clinical meta files

  const SAMPLE_ATTRIBUTES := "SAMPLE_ATTRIBUTES"

  /** `make_meta_clinical`: the meta file of the merged sample or patient attribute file. */
  function MetaClinical(studyId: string, dataType: string): string
  {
    MetaText([(CANCER_STUDY_IDENTIFIER, studyId),
              (GENETIC_ALTERATION_TYPE, CLINICAL),
              (DATATYPE, dataType),
              (DATA_FILENAME, if dataType == SAMPLE_ATTRIBUTES then SAMPLE_FILE else PATIENT_FILE)])
  }

  /** Four lines; the data file named is the sample file exactly for sample attributes, otherwise the patient file. */
  lemma MetaClinicalLines(studyId: string, dataType: string)
    requires '\n' !in studyId && '\n' !in dataType
    ensures var lines := Split(MetaClinical(studyId, dataType), '\n');
            && |lines| == 5 && lines[4] == ""
            && lines[0] == Entry(CANCER_STUDY_IDENTIFIER, studyId)
            && lines[1] == Entry(GENETIC_ALTERATION_TYPE, CLINICAL)
            && lines[2] == Entry(DATATYPE, dataType)
            && (lines[3] == Entry(DATA_FILENAME, SAMPLE_FILE) <==> dataType == SAMPLE_ATTRIBUTES)
            && (lines[3] == Entry(DATA_FILENAME, PATIENT_FILE) <==> dataType != SAMPLE_ATTRIBUTES)
  {
    var file := if dataType == SAMPLE_ATTRIBUTES then SAMPLE_FILE else PATIENT_FILE;
    CommonKeysPlain();
    ClinicalValuesPlain();
    MetaTextLines([(CANCER_STUDY_IDENTIFIER, studyId), (GENETIC_ALTERATION_TYPE, CLINICAL),
                   (DATATYPE, dataType), (DATA_FILENAME, file)]);
    assert Entry(DATA_FILENAME, SAMPLE_FILE)[29] != Entry(DATA_FILENAME, PATIENT_FILE)[29];
  }

  // ---------------------------------------------------------------- profile meta files

  /** The values one profile meta file is written from. */
  datatype MetaVars = MetaVars(studyId: string, fname: string, dataType: string, alterationType: string,
                               desc: string, name: string, show: string, stableId: string)

  /** One profile meta file, as `make_meta_files` writes it. */
  function MetaBlock(v: MetaVars): string
  {
    MetaText([(CANCER_STUDY_IDENTIFIER, v.studyId),
              (DATA_FILENAME, v.fname),
              (DATATYPE, v.dataType),
              (GENETIC_ALTERATION_TYPE, v.alterationType),
              (PROFILE_DESCRIPTION, v.desc),
              (PROFILE_NAME, v.name),
              (SHOW_PROFILE_IN_ANALYSIS_TAB, v.show),
              (STABLE_ID, v.stableId)])
  }

  predicate PlainVars(v: MetaVars)
  {
    && '\n' !in v.studyId && '\n' !in v.fname && '\n' !in v.dataType && '\n' !in v.alterationType
    && '\n' !in v.desc && '\n' !in v.name && '\n' !in v.show && '\n' !in v.stableId
  }

  /** A profile meta file has eight lines, in order, the first naming the study. */
  lemma MetaBlockLines(v: MetaVars)
    requires PlainVars(v)
    ensures var lines := Split(MetaBlock(v), '\n');
            && |lines| == 9 && lines[8] == ""
            && lines[0] == Entry(CANCER_STUDY_IDENTIFIER, v.studyId) && lines[1] == Entry(DATA_FILENAME, v.fname)
            && lines[2] == Entry(DATATYPE, v.dataType) && lines[3] == Entry(GENETIC_ALTERATION_TYPE, v.alterationType)
            && lines[4] == Entry(PROFILE_DESCRIPTION, v.desc) && lines[5] == Entry(PROFILE_NAME, v.name)
            && lines[6] == Entry(SHOW_PROFILE_IN_ANALYSIS_TAB, v.show) && lines[7] == Entry(STABLE_ID, v.stableId)
  {
    CommonKeysPlain();
    ProfileKeysPlain();
    MetaTextLines([(CANCER_STUDY_IDENTIFIER, v.studyId), (DATA_FILENAME, v.fname), (DATATYPE, v.dataType),
                   (GENETIC_ALTERATION_TYPE, v.alterationType), (PROFILE_DESCRIPTION, v.desc),
                   (PROFILE_NAME, v.name), (SHOW_PROFILE_IN_ANALYSIS_TAB, v.show), (STABLE_ID, v.stableId)]);
  }

  /** `make_meta_files`: a meta file for every output file name, built from that name's values. */
  method MakeMetaFiles(metaVars: map<string, MetaVars>) returns (results: map<string, string>)
    ensures results.Keys == metaVars.Keys
    ensures forall key :: key in results ==> results[key] == MetaBlock(metaVars[key])
  {
    results := map[];
    var keys := metaVars.Keys;
    while keys != {}
      invariant keys <= metaVars.Keys
      invariant results.Keys == metaVars.Keys - keys
      invariant forall key :: key in results ==> results[key] == MetaBlock(metaVars[key])
      decreases keys
    {
      var key :| key in keys;
      results := results[key := MetaBlock(metaVars[key])];
      keys := keys - {key};
    }
  }

  const CNA_META := "meta_CNA.txt"
  const FUSIONS_META := "meta_fusions.txt"
  const MUTATIONS_META := "meta_mutations_extended.txt"

  /** The values `make_meta_info` fixes for the three profiles; only the study identifier varies. */
  function MetaInfoVars(studyId: string): map<string, MetaVars>
  {
    map[CNA_META := MetaVars(studyId, "data_CNA.txt", "DISCRETE", "COPY_NUMBER_ALTERATION",
                             "Discrete Copy Number Data", "Discrete Copy Number Data", "true", "cna"),
        FUSIONS_META := MetaVars(studyId, "data_fusions.txt", "FUSION", "FUSION",
                                 "Fusion data", "Fusions", "true", "fusion"),
        MUTATIONS_META := MetaVars(studyId, "data_mutations_extended.txt", "MAF", "MUTATION_EXTENDED",
                                   "Mutation data", "Mutations", "true", "mutations")]
  }

  /** `make_meta_info`: exactly the three profile meta files, keyed by their file names. */
  method MakeMetaInfo(studyId: string) returns (data: map<string, string>)
    ensures data.Keys == {CNA_META, FUSIONS_META, MUTATIONS_META}
    ensures forall key :: key in data ==> data[key] == MetaBlock(MetaInfoVars(studyId)[key])
  {
    var metaVars := MetaInfoVars(studyId);
    data := MakeMetaFiles(metaVars);
  }

  /** Each profile meta file opens with the merged study's identifier. */
  lemma MetaInfoFirstLine(studyId: string, key: string)
    requires '\n' !in studyId
    requires key in MetaInfoVars(studyId)
    ensures Split(MetaBlock(MetaInfoVars(studyId)[key]), '\n')[0] == Entry(CANCER_STUDY_IDENTIFIER, studyId)
  {
    var v := MetaInfoVars(studyId)[key];
    CommonKeysPlain();
    MetaTextFirstLine([(CANCER_STUDY_IDENTIFIER, v.studyId), (DATA_FILENAME, v.fname), (DATATYPE, v.dataType),
                       (GENETIC_ALTERATION_TYPE, v.alterationType), (PROFILE_DESCRIPTION, v.desc),
                       (PROFILE_NAME, v.name), (SHOW_PROFILE_IN_ANALYSIS_TAB, v.show), (STABLE_ID, v.stableId)]);
  }

  /** Each profile meta file has its eight lines: none of the fixed values breaks a line. */
  lemma MetaInfoLines(studyId: string, key: string)
    requires '\n' !in studyId
    requires key in MetaInfoVars(studyId)
    ensures |Split(MetaBlock(MetaInfoVars(studyId)[key]), '\n')| == 9
  {
    if key == CNA_META {
      CnaValuesPlain();
    } else if key == FUSIONS_META {
      FusionValuesPlain();
    } else {
      MutationValuesPlain();
    }
    MetaBlockLines(MetaInfoVars(studyId)[key]);
  }

  // ---------------------------------------------------------------- the study meta file

  /** What the caller passes: the merged study's identifier, and a title and description when given. */
  datatype StudyParams = StudyParams(studyId: string, title: Option<string>, desc: Option<string>)

  /** The longest `name` and `description` the portal accepts. */
  const NAME_LIMIT := 255
  const DESCRIPTION_LIMIT := 1000

  /**
   * The value of an overridable field: the supplied value verbatim, or else the `;`-join of the
   * values the source studies give, cut to `limit` characters.
   */
  ghost predicate Overridden(supplied: Option<string>, values: set<string>, limit: nat, r: string)
  {
    match supplied
    case Some(v) => r == v
    case None => exists joined :: JoinedFrom(joined, ";", values) && r == Take(joined, limit)
  }

  /** A supplied value is kept whole; a joined one is at most `limit` long and a beginning of the join. */
  lemma OverriddenBound(supplied: Option<string>, values: set<string>, limit: nat, r: string)
    requires Overridden(supplied, values, limit, r)
    ensures supplied.Some? ==> r == supplied.value
    ensures supplied.None? ==> |r| <= limit && exists joined :: JoinedFrom(joined, ";", values) && |r| <= |joined| && r == joined[..|r|]
  {
  }

  /** With no value supplied and all source studies agreeing, the field is their value, cut to `limit`. */
  lemma OverriddenAgreeing(docs: seq<Doc>, key: string, v: string, limit: nat, r: string)
    requires Overridden(None, ValuesOf(docs, key), limit, r)
    requires key in KeysOf(docs)
    requires forall i :: 0 <= i < |docs| && key in docs[i] ==> docs[i][key] == v
    ensures r == Take(v, limit)
  {
    var joined :| JoinedFrom(joined, ";", ValuesOf(docs, key)) && r == Take(joined, limit);
    JoinedAgreeing(docs, key, v, ";", joined);
  }

  /** A joined field shorter than the limit was not cut: it splits back at `;` into a listing of the values. */
  lemma OverriddenListing(values: set<string>, limit: nat, r: string)
    requires Overridden(None, values, limit, r)
    requires values != {} && forall x :: x in values ==> ';' !in x
    requires |r| < limit
    ensures IsListing(Split(r, ';'), values)
  {
    var joined :| JoinedFrom(joined, ";", values) && r == Take(joined, limit);
    assert joined == r;
    JoinedSplit(r, ';', values);
  }

  /** The six lines of the study meta file, in the order `get_meta_study` writes them. */
  function StudyText(studyId: string, description: string, name: string, groups: string,
                     shortName: string, cancerType: string): string
  {
    MetaText([(CANCER_STUDY_IDENTIFIER, studyId), (DESCRIPTION, description), (NAME, name),
              (GROUPS, groups), (SHORT_NAME, shortName), (TYPE_OF_CANCER, cancerType)])
  }

  /** The study meta file has six lines, in order, and nothing after the last newline. */
  lemma StudyTextLines(studyId: string, description: string, name: string, groups: string,
                       shortName: string, cancerType: string)
    requires '\n' !in studyId && '\n' !in description && '\n' !in name
    requires '\n' !in groups && '\n' !in shortName && '\n' !in cancerType
    ensures var lines := Split(StudyText(studyId, description, name, groups, shortName, cancerType), '\n');
            && |lines| == 7 && lines[6] == ""
            && lines[0] == Entry(CANCER_STUDY_IDENTIFIER, studyId) && lines[1] == Entry(DESCRIPTION, description)
            && lines[2] == Entry(NAME, name) && lines[3] == Entry(GROUPS, groups)
            && lines[4] == Entry(SHORT_NAME, shortName) && lines[5] == Entry(TYPE_OF_CANCER, cancerType)
  {
    CommonKeysPlain();
    StudyKeysPlain();
    MetaTextLines([(CANCER_STUDY_IDENTIFIER, studyId), (DESCRIPTION, description), (NAME, name),
                   (GROUPS, groups), (SHORT_NAME, shortName), (TYPE_OF_CANCER, cancerType)]);
  }

  /**
   * `get_onco_code` after the lookup: the shared ancestor's code in lower case, with the tree's
   * root, "tissue", reported as "mixed". `lca` stands for the OncoTree lookup of the lowest
   * common ancestor of the codes.
   */
  function OncoCode(codes: seq<string>, lca: seq<string> -> string): (r: string)
    ensures IsLowerCase(r) && r != "tissue"
    ensures r == "mixed" <==> Lower(lca(codes)) == "tissue" || Lower(lca(codes)) == "mixed"
    ensures r != "mixed" ==> r == Lower(lca(codes))
  {
    var code := Lower(lca(codes));
    LowerIsLowerCase(lca(codes));
    assert IsLowerCase("mixed") by {
      assert Lower("mixed") == "mixed";
      LowerIsLowerCase("mixed");
    }
    if code == "tissue" then "mixed" else code
  }

  /**
   * `get_meta_study`: the meta files' values gathered; `name` and `description` from the
   * caller or joined and cut; the study identifier forced into `cancer_study_identifier` and
   * `short_name`; `groups` joined; the file written. A field that is neither supplied nor in any
   * meta file raises KeyError, `name` first, then `description`, then `groups`.
   */
  method GetMetaStudy(docs: seq<Doc>, params: StudyParams, codes: seq<string>, lca: seq<string> -> string)
    returns (r: Result<string, Error>)
    ensures var keys := KeysOf(docs);
            r.Ok? <==> (params.title.Some? || NAME in keys) && (params.desc.Some? || DESCRIPTION in keys) && GROUPS in keys
    ensures var keys := KeysOf(docs);
            r == Err(KeyError(NAME)) <==> params.title.None? && NAME !in keys
    ensures var keys := KeysOf(docs);
            r == Err(KeyError(DESCRIPTION)) <==>
              (params.title.Some? || NAME in keys) && params.desc.None? && DESCRIPTION !in keys
    ensures var keys := KeysOf(docs);
            r == Err(KeyError(GROUPS)) <==>
              (params.title.Some? || NAME in keys) && (params.desc.Some? || DESCRIPTION in keys) && GROUPS !in keys
    ensures r.Ok? ==> exists description, name, groups ::
                        && Overridden(params.title, ValuesOf(docs, NAME), NAME_LIMIT, name)
                        && Overridden(params.desc, ValuesOf(docs, DESCRIPTION), DESCRIPTION_LIMIT, description)
                        && JoinedFrom(groups, ";", ValuesOf(docs, GROUPS))
                        && r.value == StudyText(params.studyId, description, name, groups, params.studyId, OncoCode(codes, lca))
  {
    var mergedMeta := GetValues(docs);
    var meta: map<string, string> := map[];
    if params.title.Some? {
      meta := meta[NAME := params.title.value];
    } else {
      if NAME !in mergedMeta {
        return Err(KeyError(NAME));
      }
      var metaTitle := JoinSet(";", mergedMeta[NAME]);
      meta := meta[NAME := Take(metaTitle, NAME_LIMIT)];
    }
    meta := meta[CANCER_STUDY_IDENTIFIER := params.studyId];
    meta := meta[SHORT_NAME := params.studyId];
    if params.desc.Some? {
      meta := meta[DESCRIPTION := params.desc.value];
    } else {
      if DESCRIPTION !in mergedMeta {
        return Err(KeyError(DESCRIPTION));
      }
      var metaDesc := JoinSet(";", mergedMeta[DESCRIPTION]);
      meta := meta[DESCRIPTION := Take(metaDesc, DESCRIPTION_LIMIT)];
    }
    if GROUPS !in mergedMeta {
      return Err(KeyError(GROUPS));
    }
    var groups := JoinSet(";", mergedMeta[GROUPS]);
    meta := meta[GROUPS := groups];
    var cancerType := OncoCode(codes, lca);
    var s := StudyText(meta[CANCER_STUDY_IDENTIFIER], meta[DESCRIPTION], meta[NAME], meta[GROUPS],
                       meta[SHORT_NAME], cancerType);
    assert Overridden(params.title, ValuesOf(docs, NAME), NAME_LIMIT, meta[NAME]);
    assert Overridden(params.desc, ValuesOf(docs, DESCRIPTION), DESCRIPTION_LIMIT, meta[DESCRIPTION]);
    return Ok(s);
  }
}
