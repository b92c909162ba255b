/**
  The columns of the register overview built by DMP_stats_v1.4.py.  A row
  of either template holds the document-level columns followed by the
  answer columns, in the order of DMP_stats_v1.4.py:1079-1123 (GDPR) and
  :2073-2117 (certified); the register adds four more.
 */
module Schema {

  /** A column of a normalised row; `Name` gives its header. */
  datatype Column =
    | Id
    | Title
    | Template
    | Funder
    | LastUpdated
    | FileName
    | ContactName
    | ContactEmail
    | PlanVersion
    | ProjectTitle
    | Organisation
    | OtherOrg
    | ProjectCode
    | OtherDmpUrl
    | ExistingData
    | NewData
    | PopulationDescr
    | PersonalDataType
    | InformedConsentType
    | OtherLegalGroundDesc
    | OtherLegalGround
    | PersonalDataCatDesc
    | PersonalDataSpecCat
    | InformedConsentExemption
    | DataSecurityMeasures
    | ToolsDuringResDescr
    | ToolsDuringResearch
    | OtherToolsDuring
    | DataTransfer
    | DataTransferDesc
    | DataTransferEea
    | TransferEeaDesc
    | EthComAppNeeded
    | EthComApproved
    | ArchAndOrPubl
    | WhichArchives
    | ArchiveOptions
    | OtherArchives
    | ArchivePeriod
    | DatasetPublish
    | ResearcherRespDuring
    | PersonRespAfter
    | ProcedToReqDataset
    | FacultySituated
    | ProjectStart
    | ProjectEnd
    | FacultyName
    | FacultyStrcount

  /** The header the column carries in the exported table. */
  function Name(c: Column): string {
    match c
    case Id => "id"
    case Title => "title"
    case Template => "template"
    case Funder => "funder"
    case LastUpdated => "last_updated"
    case FileName => "file_name"
    case ContactName => "contact_name"
    case ContactEmail => "contact_email"
    case PlanVersion => "plan_version"
    case ProjectTitle => "project_title"
    case Organisation => "Organisation"
    case OtherOrg => "Other_org"
    case ProjectCode => "Project_code"
    case OtherDmpUrl => "Other_DMP_url"
    case ExistingData => "Existing_data"
    case NewData => "New_data"
    case PopulationDescr => "Population_descr"
    case PersonalDataType => "Personal_data_type"
    case InformedConsentType => "Informed_consent_type"
    case OtherLegalGroundDesc => "Other_legal_ground_desc"
    case OtherLegalGround => "Other_legal_ground"
    case PersonalDataCatDesc => "Personal_data_cat_desc"
    case PersonalDataSpecCat => "Personal_data_spec_cat"
    case InformedConsentExemption => "Informed_Consent_Exemption"
    case DataSecurityMeasures => "Data_security_measures"
    case ToolsDuringResDescr => "Tools_during_res_descr"
    case ToolsDuringResearch => "Tools_during_research"
    case OtherToolsDuring => "Other_tools_during"
    case DataTransfer => "Data_transfer"
    case DataTransferDesc => "Data_transfer_desc"
    case DataTransferEea => "Data_transfer_EEA"
    case TransferEeaDesc => "Transfer_EEA_desc"
    case EthComAppNeeded => "Eth_Com_app_needed"
    case EthComApproved => "Eth_Com_Approved"
    case ArchAndOrPubl => "Arch_and_or_Publ"
    case WhichArchives => "Which_archives"
    case ArchiveOptions => "Archive_options"
    case OtherArchives => "Other_archives"
    case ArchivePeriod => "Archive_period"
    case DatasetPublish => "Dataset_Publish"
    case ResearcherRespDuring => "Researcher_Resp_during"
    case PersonRespAfter => "Person_resp_after"
    case ProcedToReqDataset => "Proced_to_req_dataset"
    case FacultySituated => "Faculty_situated"
    case ProjectStart => "project_start"
    case ProjectEnd => "project_end"
    case FacultyName => "Faculty_name"
    case FacultyStrcount => "Faculty_strcount"
  }

  /** The document-level columns (:1079-1087, :2073-2081). */
  const MetaColumns: seq<Column> := [
    Id, Title, Template, Funder, LastUpdated, FileName, ContactName, ContactEmail
  ]

  /** The answer columns before `Faculty_situated`, the last one (:1088-1122, :2082-2116). */
  const LeadingAnswerColumns: seq<Column> := [
    PlanVersion, ProjectTitle, Organisation, OtherOrg, ProjectCode,
    OtherDmpUrl, ExistingData, NewData, PopulationDescr, PersonalDataType,
    InformedConsentType, OtherLegalGroundDesc, OtherLegalGround, PersonalDataCatDesc, PersonalDataSpecCat,
    InformedConsentExemption, DataSecurityMeasures, ToolsDuringResDescr, ToolsDuringResearch, OtherToolsDuring,
    DataTransfer, DataTransferDesc, DataTransferEea, TransferEeaDesc, EthComAppNeeded,
    EthComApproved, ArchAndOrPubl, WhichArchives, ArchiveOptions, OtherArchives,
    ArchivePeriod, DatasetPublish, ResearcherRespDuring, PersonRespAfter, ProcedToReqDataset
  ]

  /** The answer columns (:1088-1123, :2082-2117). */
  const AnswerColumns: seq<Column> := LeadingAnswerColumns + [FacultySituated]

  /** Every column of a normalised row, in order; both templates share it. */
  const Columns: seq<Column> := MetaColumns + AnswerColumns

  /**
    The register overview: a normalised row, the project dates the merge
    with the metadata adds (:2220), and the two faculty columns (:2230-2233).
   */
  const RegisterColumns: seq<Column> := Columns + [ProjectStart, ProjectEnd, FacultyName, FacultyStrcount]

  /** `Faculty_situated` closes a normalised row and names no earlier column. */
  lemma SituatedIsLast()
    ensures Columns == Columns[..|Columns| - 1] + [FacultySituated]
    ensures FacultySituated !in Columns[..|Columns| - 1]
  {
    assert Columns == (MetaColumns + LeadingAnswerColumns) + [FacultySituated];
    assert Columns[..|Columns| - 1] == MetaColumns + LeadingAnswerColumns;
  }
}
