/**
 * The keys the merged meta and case-list files are written with, and the fixed values among
 * them. None contains a line break, so each entry stays on its own line.
 */
module MetaKeys {

  const CANCER_STUDY_IDENTIFIER := "cancer_study_identifier"
  const GENETIC_ALTERATION_TYPE := "genetic_alteration_type"
  const DATATYPE := "datatype"
  const DATA_FILENAME := "data_filename"

  // the clinical meta files
  const CLINICAL := "CLINICAL"
  const SAMPLE_FILE := "data_clinical_sample.txt"
  const PATIENT_FILE := "data_clinical_patient.txt"

  // the profile meta files
  const PROFILE_DESCRIPTION := "profile_description"
  const PROFILE_NAME := "profile_name"
  const SHOW_PROFILE_IN_ANALYSIS_TAB := "show_profile_in_analysis_tab"
  const STABLE_ID := "stable_id"

  // the study meta file
  const DESCRIPTION := "description"
  const NAME := "name"
  const GROUPS := "groups"
  const SHORT_NAME := "short_name"
  const TYPE_OF_CANCER := "type_of_cancer"

  // the case lists
  const CASE_LIST_CATEGORY := "case_list_category"
  const CASE_LIST_NAME := "case_list_name"
  const CASE_LIST_DESCRIPTION := "case_list_description"
  const CASE_LIST_IDS := "case_list_ids"

  // the segment meta file
  const REFERENCE_GENOME_ID := "reference_genome_id"

  lemma CommonKeysPlain()
    ensures '\n' !in CANCER_STUDY_IDENTIFIER && '\n' !in GENETIC_ALTERATION_TYPE
    ensures '\n' !in DATATYPE && '\n' !in DATA_FILENAME
  {
  }

  lemma ClinicalValuesPlain()
    ensures '\n' !in CLINICAL && '\n' !in SAMPLE_FILE && '\n' !in PATIENT_FILE
  {
  }

  lemma ProfileKeysPlain()
    ensures '\n' !in PROFILE_DESCRIPTION && '\n' !in PROFILE_NAME
    ensures '\n' !in SHOW_PROFILE_IN_ANALYSIS_TAB && '\n' !in STABLE_ID
  {
  }

  lemma StudyKeysPlain()
    ensures '\n' !in DESCRIPTION && '\n' !in NAME && '\n' !in GROUPS
    ensures '\n' !in SHORT_NAME && '\n' !in TYPE_OF_CANCER
  {
  }

  lemma CaseListKeysPlain()
    ensures '\n' !in CASE_LIST_CATEGORY && '\n' !in CASE_LIST_NAME
    ensures '\n' !in CASE_LIST_DESCRIPTION && '\n' !in CASE_LIST_IDS
  {
  }

  /** The six entries of a case list have six different keys. */
  lemma CaseListKeysDistinct()
    ensures |CASE_LIST_IDS| == 13 && |CANCER_STUDY_IDENTIFIER| == 23 && |STABLE_ID| == 9
    ensures |CASE_LIST_NAME| == 14 && |CASE_LIST_DESCRIPTION| == 21 && |CASE_LIST_CATEGORY| == 18
  {
  }

  lemma SegKeysPlain()
    ensures '\n' !in REFERENCE_GENOME_ID
  {
  }

  /** The fixed values of the copy-number, fusion and mutation meta files. */
  lemma CnaValuesPlain()
    ensures '\n' !in "data_CNA.txt" && '\n' !in "DISCRETE" && '\n' !in "COPY_NUMBER_ALTERATION"
    ensures '\n' !in "Discrete Copy Number Data" && '\n' !in "true" && '\n' !in "cna"
  {
  }

  lemma FusionValuesPlain()
    ensures '\n' !in "data_fusions.txt" && '\n' !in "FUSION" && '\n' !in "Fusion data"
    ensures '\n' !in "Fusions" && '\n' !in "true" && '\n' !in "fusion"
  {
  }

  lemma MutationValuesPlain()
    ensures '\n' !in "data_mutations_extended.txt" && '\n' !in "MAF" && '\n' !in "MUTATION_EXTENDED"
    ensures '\n' !in "Mutation data" && '\n' !in "Mutations" && '\n' !in "true" && '\n' !in "mutations"
  {
  }
}
