/**
 * The case lists of the merged study: the source case-list files, with their tabs made
 * YAML-safe, gathered key by key; the sample identifiers of all lists united; the study
 * identifier and stable id set for the merged study; the file written.
 */
module CaseListsMerge {
  import opened Results
  import opened Text
  import opened ValueSets
  import opened MetaKeys

  // ---------------------------------------------------------------- tab normalisation

  /** One line made YAML-safe: `":\t"` becomes `": "`, then every remaining tab becomes `,`. */
  function NormalizeLine(line: string): string
  {
    ReplaceAll(ReplaceAll(line, ":\t", ": "), "\t", ",")
  }

  /** No tab is left. */
  lemma NormalizeLineNoTab(line: string)
    ensures '\t' !in NormalizeLine(line)
  {
    ReplaceCharRemoves(ReplaceAll(line, ":\t", ": "), '\t', ',');
  }

  /** A line with no tab is left as it is. */
  lemma NormalizeLineWithoutTab(line: string)
    requires '\t' !in line
    ensures NormalizeLine(line) == line
  {
    ReplaceAbsent(line, ":\t", ": ", '\t');
    ReplaceAbsent(line, "\t", ",", '\t');
  }

  /** Normalising twice is normalising once. */
  lemma NormalizeLineIdempotent(line: string)
    ensures NormalizeLine(NormalizeLine(line)) == NormalizeLine(line)
  {
    NormalizeLineNoTab(line);
    NormalizeLineWithoutTab(NormalizeLine(line));
  }

  /** The line breaks are kept: no line is split or joined. */
  lemma NormalizeLineKeepsBreaks(line: string)
    ensures Count(NormalizeLine(line), '\n') == Count(line, '\n')
  {
    ReplaceKeepsCount(line, ":\t", ": ", '\n');
    ReplaceKeepsCount(ReplaceAll(line, ":\t", ": "), "\t", ",", '\n');
  }

  /** A key separated from its value by a tab gets the YAML separator `": "` instead. */
  lemma NormalizeKeyValue(key: string, value: string)
    requires ':' !in key && '\t' !in key && '\t' !in value
    ensures NormalizeLine(key + ":\t" + value) == key + ": " + value
  {
    var tail := ":\t" + value;
    assert key + ":\t" + value == key + tail;
    ReplaceAfter(key, tail, ":\t", ": ");
    assert tail[..2] == ":\t" && tail[2..] == value;
    ReplaceAbsent(value, ":\t", ": ", '\t');
    assert ReplaceAll(tail, ":\t", ": ") == ": " + value;
    var once := key + (": " + value);
    assert once == key + ": " + value;
    assert '\t' !in once;
    ReplaceAbsent(once, "\t", ",", '\t');
  }

  /** The lines of a file after normalisation. */
  function Normalized(lines: seq<string>): (r: seq<string>)
    ensures |r| == |lines| && forall i :: 0 <= i < |lines| ==> r[i] == NormalizeLine(lines[i])
  {
    seq(|lines|, i requires 0 <= i < |lines| => NormalizeLine(lines[i]))
  }

  /** `modify_files_to_remove_tabs` on the lines of one file, as `readlines` gives them: each rewritten in place. */
  method RemoveTabs(data: array<string>)
    modifies data
    ensures data[..] == Normalized(old(data[..]))
  {
    for i := 0 to data.Length
      invariant forall k :: 0 <= k < i ==> data[k] == NormalizeLine(old(data[k]))
      invariant forall k :: i <= k < data.Length ==> data[k] == old(data[k])
    {
      var line := ReplaceAll(data[i], ":\t", ": ");
      data[i] := ReplaceAll(line, "\t", ",");
    }
  }

  /** The text `writelines` writes. */
  function Written(lines: seq<string>): string
    decreases |lines|
  {
    if |lines| == 0 then "" else lines[0] + Written(lines[1..])
  }

  /** The file written back has no tab and as many line breaks as the file read. */
  lemma {:induction false} NormalizedFile(lines: seq<string>)
    ensures '\t' !in Written(Normalized(lines))
    ensures Count(Written(Normalized(lines)), '\n') == Count(Written(lines), '\n')
    decreases |lines|
  {
    if |lines| > 0 {
      var out := Normalized(lines);
      assert out[1..] == Normalized(lines[1..]);
      NormalizedFile(lines[1..]);
      NormalizeLineNoTab(lines[0]);
      NormalizeLineKeepsBreaks(lines[0]);
      CountConcat(out[0], Written(out[1..]), '\n');
      CountConcat(lines[0], Written(lines[1..]), '\n');
    }
  }

  // ---------------------------------------------------------------- the sample identifiers

  /** The identifiers one `case_list_ids` value lists: its comma-separated pieces, stripped of surrounding whitespace. */
  function Tokens(idList: string): set<string>
  {
    set i | 0 <= i < |Split(idList, ',')| :: Strip(Split(idList, ',')[i])
  }

  /** The identifiers all the `case_list_ids` values list. */
  function CaseIds(idLists: set<string>): set<string>
  {
    set l, t | l in idLists && t in Tokens(l) :: t
  }

  lemma CaseIdsAdd(done: set<string>, idList: string)
    ensures CaseIds(done + {idList}) == CaseIds(done) + Tokens(idList)
  {
    assert forall t :: t in Tokens(idList) ==> t in CaseIds(done + {idList});
  }

  /** The identifiers of several source lists are the union of each list's identifiers. */
  lemma CaseIdsUnion(a: set<string>, b: set<string>)
    ensures CaseIds(a + b) == CaseIds(a) + CaseIds(b)
  {
  }

  /** A comma-join of identifiers without commas or surrounding whitespace lists exactly those identifiers. */
  lemma TokensOfJoin(ids: seq<string>)
    requires |ids| >= 1
    requires forall i :: 0 <= i < |ids| ==> ',' !in ids[i] && Strip(ids[i]) == ids[i]
    ensures Tokens(Join(",", ids)) == set i | 0 <= i < |ids| :: ids[i]
  {
    SplitJoin(ids, ',');
  }

  /** A comma at the end of a list gives the empty identifier. */
  lemma TrailingComma(idList: string)
    ensures "" in Tokens(idList + ",")
  {
    var parts := Split(idList, ',');
    JoinSplit(idList, ',');
    JoinSnoc(",", parts, "");
    assert idList + "," == Join(",", parts + [""]);
    var all := parts + [""];
    assert forall i :: 0 <= i < |all| ==> ',' !in all[i];
    SplitJoin(all, ',');
    assert Split(idList + ",", ',')[|all| - 1] == "";
    assert Strip("") == "";
  }

  /**
   * The example of two lists sharing identifiers: `a,b,c` and `b,c,d` give the identifiers
   * `a`, `b`, `c` and `d`, each once.
   */
  lemma CaseIdsOverlap(a: string, b: string, c: string, d: string)
    requires ',' !in a && ',' !in b && ',' !in c && ',' !in d
    requires Strip(a) == a && Strip(b) == b && Strip(c) == c && Strip(d) == d
    ensures CaseIds({Join(",", [a, b, c]), Join(",", [b, c, d])}) == {a, b, c, d}
  {
    TokensOfThree(a, b, c);
    TokensOfThree(b, c, d);
    CaseIdsPair(Join(",", [a, b, c]), Join(",", [b, c, d]));
  }

  lemma CaseIdsPair(x: string, y: string)
    ensures CaseIds({x, y}) == Tokens(x) + Tokens(y)
  {
    CaseIdsAdd({x}, y);
    CaseIdsAdd({}, x);
    assert {x} + {y} == {x, y};
  }

  lemma TokensOfThree(a: string, b: string, c: string)
    requires ',' !in a && ',' !in b && ',' !in c
    requires Strip(a) == a && Strip(b) == b && Strip(c) == c
    ensures Tokens(Join(",", [a, b, c])) == {a, b, c}
  {
    TokensOfJoin([a, b, c]);
    assert [a, b, c][0] == a && [a, b, c][1] == b && [a, b, c][2] == c;
  }

  /** The inner loop of `get_case_list_ids`: each comma-separated piece of one list, stripped, added to the set. */
  method AddTokens(idSet: set<string>, idList: string) returns (r: set<string>)
    ensures r == idSet + Tokens(idList)
  {
    var ids := Split(idList, ',');
    r := idSet;
    for k := 0 to |ids|
      invariant r == idSet + set j | 0 <= j < k :: Strip(ids[j])
    {
      r := r + {Strip(ids[k])};
    }
  }

  /**
   * `get_case_list_ids`: every identifier of every `case_list_ids` value, each once, joined by
   * tabs in the order of the set; KeyError when no source list has the key.
   */
  method GetCaseListIds(data: map<string, set<string>>) returns (r: Result<string, Error>)
    ensures r.Ok? <==> CASE_LIST_IDS in data
    ensures r.Err? ==> r.error == KeyError(CASE_LIST_IDS)
    ensures r.Ok? ==> JoinedFrom(r.value, "\t", CaseIds(data[CASE_LIST_IDS]))
  {
    if CASE_LIST_IDS !in data {
      return Err(KeyError(CASE_LIST_IDS));
    }
    var uneditedIds := data[CASE_LIST_IDS];
    var idSet: set<string> := {};
    var rest := uneditedIds;
    while rest != {}
      invariant rest <= uneditedIds
      invariant idSet == CaseIds(uneditedIds - rest)
      decreases rest
    {
      var idList :| idList in rest;
      idSet := AddTokens(idSet, idList);
      CaseIdsAdd(uneditedIds - rest, idList);
      assert uneditedIds - (rest - {idList}) == (uneditedIds - rest) + {idList};
      rest := rest - {idList};
    }
    var joined := JoinSet("\t", idSet);
    return Ok(joined);
  }

  // ---------------------------------------------------------------- the merged case list

  /** The keys `make_case_lists` joins by `;`, in order. */
  const KEYS_TO_JOIN := [CASE_LIST_NAME, CASE_LIST_DESCRIPTION, CASE_LIST_CATEGORY]

  /** The keys taken from the source lists, in the order they are looked up. */
  const SOURCE_KEYS := [CASE_LIST_IDS] + KEYS_TO_JOIN

  /** The entries of a case-list file, in order. */
  const CASE_LIST_KEYS := [CASE_LIST_CATEGORY, STABLE_ID, CASE_LIST_NAME, CASE_LIST_DESCRIPTION,
                           CANCER_STUDY_IDENTIFIER, CASE_LIST_IDS]

  /** `make_case_lists_string`: the six entries in order; a missing one raises KeyError. */
  function CaseListsString(data: map<string, string>): Result<string, Error>
  {
    RenderKeys(data, CASE_LIST_KEYS)
  }

  /**
   * What `make_case_lists` fills in: the identifiers united, the study identifier and stable id
   * of the merged study whatever the sources say, and the name, description and category each
   * the `;`-join of the values the sources give.
   */
  ghost predicate CaseListData(docs: seq<Doc>, studyId: string, caseType: string, data: map<string, string>)
  {
    && data.Keys == {CASE_LIST_IDS, CANCER_STUDY_IDENTIFIER, STABLE_ID, CASE_LIST_NAME, CASE_LIST_DESCRIPTION, CASE_LIST_CATEGORY}
    && JoinedFrom(data[CASE_LIST_IDS], "\t", CaseIds(ValuesOf(docs, CASE_LIST_IDS)))
    && data[CANCER_STUDY_IDENTIFIER] == studyId
    && data[STABLE_ID] == studyId + "_" + caseType
    && JoinedFrom(data[CASE_LIST_NAME], ";", ValuesOf(docs, CASE_LIST_NAME))
    && JoinedFrom(data[CASE_LIST_DESCRIPTION], ";", ValuesOf(docs, CASE_LIST_DESCRIPTION))
    && JoinedFrom(data[CASE_LIST_CATEGORY], ";", ValuesOf(docs, CASE_LIST_CATEGORY))
  }

  /** The case list `make_case_lists` fills in: the identifiers, the merged study's two values and the joined keys. */
  function Filled(studyId: string, caseType: string, ids: string, joined: map<string, string>): map<string, string>
  {
    map[CASE_LIST_IDS := ids, CANCER_STUDY_IDENTIFIER := studyId, STABLE_ID := studyId + "_" + caseType] + joined
  }

  /** Filled in from the sources' values, the case list is what `make_case_lists` promises. */
  lemma FilledIn(docs: seq<Doc>, studyId: string, caseType: string, ids: string, joined: map<string, string>)
    requires JoinedFrom(ids, "\t", CaseIds(ValuesOf(docs, CASE_LIST_IDS)))
    requires joined.Keys == {CASE_LIST_NAME, CASE_LIST_DESCRIPTION, CASE_LIST_CATEGORY}
    requires forall k :: k in joined ==> JoinedFrom(joined[k], ";", ValuesOf(docs, k))
    ensures CaseListData(docs, studyId, caseType, Filled(studyId, caseType, ids, joined))
  {
    CaseListKeysDistinct();
  }

  /**
   * `make_case_lists` on the parsed source lists: fails with KeyError on the first of
   * `case_list_ids`, `case_list_name`, `case_list_description`, `case_list_category` that no
   * source has; otherwise writes the filled-in case list.
   */
  method MakeCaseLists(docs: seq<Doc>, studyId: string, caseType: string) returns (r: Result<string, Error>)
    ensures r.Err? <==> FirstNotIn(KeysOf(docs), SOURCE_KEYS).Some?
    ensures r.Err? ==> r.error == KeyError(FirstNotIn(KeysOf(docs), SOURCE_KEYS).value)
    ensures r.Ok? ==> exists data :: CaseListData(docs, studyId, caseType, data) && CaseListsString(data) == Ok(r.value)
  {
    var caseData := GetValues(docs);
    var caseListIds := GetCaseListIds(caseData);
    if caseListIds.Err? {
      FirstNotInAt(caseData.Keys, SOURCE_KEYS, 0);
      return Err(caseListIds.error);
    }
    FirstNotInCons(caseData.Keys, CASE_LIST_IDS, KEYS_TO_JOIN);
    var joined := JoinKeys(caseData, KEYS_TO_JOIN);
    if joined.Err? {
      return Err(joined.error);
    }
    assert joined.value.Keys == {CASE_LIST_NAME, CASE_LIST_DESCRIPTION, CASE_LIST_CATEGORY} by {
      assert KEYS_TO_JOIN[0] == CASE_LIST_NAME && KEYS_TO_JOIN[1] == CASE_LIST_DESCRIPTION;
      assert KEYS_TO_JOIN[2] == CASE_LIST_CATEGORY;
    }
    FilledIn(docs, studyId, caseType, caseListIds.value, joined.value);
    var data := Filled(studyId, caseType, caseListIds.value, joined.value);
    r := CaseListsString(data);
  }

  /**
   * The case list has its six lines in order, the stable id and study identifier those of the
   * merged study.
   */
  lemma CaseListsLines(docs: seq<Doc>, studyId: string, caseType: string, data: map<string, string>)
    requires CaseListData(docs, studyId, caseType, data)
    requires forall k :: k in data ==> '\n' !in data[k]
    ensures CaseListsString(data).Ok?
    ensures var lines := Split(CaseListsString(data).value, '\n');
            && |lines| == 7 && lines[6] == ""
            && lines[0] == Entry(CASE_LIST_CATEGORY, data[CASE_LIST_CATEGORY])
            && lines[1] == Entry(STABLE_ID, studyId + "_" + caseType)
            && lines[2] == Entry(CASE_LIST_NAME, data[CASE_LIST_NAME])
            && lines[3] == Entry(CASE_LIST_DESCRIPTION, data[CASE_LIST_DESCRIPTION])
            && lines[4] == Entry(CANCER_STUDY_IDENTIFIER, studyId)
            && lines[5] == Entry(CASE_LIST_IDS, data[CASE_LIST_IDS])
  {
    CommonKeysPlain();
    ProfileKeysPlain();
    CaseListKeysPlain();
    RenderKeysLines(data, CASE_LIST_KEYS);
  }

  /** Source lists that agree on a joined key give the merged list their common value. */
  lemma CaseListsAgreeing(docs: seq<Doc>, studyId: string, caseType: string, data: map<string, string>,
                          key: string, v: string)
    requires CaseListData(docs, studyId, caseType, data)
    requires key == CASE_LIST_NAME || key == CASE_LIST_DESCRIPTION || key == CASE_LIST_CATEGORY
    requires key in KeysOf(docs)
    requires forall i :: 0 <= i < |docs| && key in docs[i] ==> docs[i][key] == v
    ensures data[key] == v
  {
    JoinedAgreeing(docs, key, v, ";", data[key]);
  }

  /** The merged identifiers split back at the tabs into every identifier once, in some order. */
  lemma CaseListsIds(docs: seq<Doc>, studyId: string, caseType: string, data: map<string, string>)
    requires CaseListData(docs, studyId, caseType, data)
    requires CaseIds(ValuesOf(docs, CASE_LIST_IDS)) != {}
    requires forall t :: t in CaseIds(ValuesOf(docs, CASE_LIST_IDS)) ==> '\t' !in t
    ensures IsListing(Split(data[CASE_LIST_IDS], '\t'), CaseIds(ValuesOf(docs, CASE_LIST_IDS)))
  {
    JoinedSplit(data[CASE_LIST_IDS], '\t', CaseIds(ValuesOf(docs, CASE_LIST_IDS)));
  }
}
