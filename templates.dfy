/**
  The two form layouts read by DMP_stats_v1.4.py: the GDPR registration
  form (step 5a) and the certified institutional template (step 5b), each
  as the blocks the script runs for one document, in source order, and the
  column order in which both branches assemble a row.
 */
module Templates {
  import opened Extractor
  import opened Schema

  /** The two templates whose plans are normalised. */
  datatype Family = Gdpr | Certified

  // The field rules that occur in the blocks.
  const Period := TextRule(".", false, false)       // `;` becomes `.`
  const Plain := TextRule("", false, false)         // `;` is deleted
  const RawEmpty := TextRule("", true, false)       // empty raw text becomes Unknown
  const CleanEmpty := TextRule("", false, true)     // empty cleaned text becomes Unknown
  const Dash := OptionRule(" - ", false)
  const DashChecked := OptionRule(" - ", true)      // no ticked option becomes Unknown
  const Joined := OptionRule("", false)
  const JoinedChecked := OptionRule("", true)

  // The text+options blocks, each filling two columns.
  const GdprLegalGround := PairBlock(OtherLegalGroundDesc, OtherLegalGround, 1, 5, CleanEmpty, DashChecked)  // :529-570
  const GdprSpecialCategories := PairBlock(PersonalDataCatDesc, PersonalDataSpecCat, 1, 6, RawEmpty, DashChecked)  // :572-612
  const GdprTools := PairBlock(ToolsDuringResDescr, ToolsDuringResearch, 2, 1, CleanEmpty, Dash)  // :667-705
  const GdprTransfer := PairBlock(DataTransferDesc, DataTransfer, 2, 3, CleanEmpty, JoinedChecked)  // :733-774
  const GdprTransferEea := PairBlock(TransferEeaDesc, DataTransferEea, 2, 4, CleanEmpty, Joined)  // :776-814
  const GdprEthics := PairBlock(EthComAppNeeded, EthComApproved, 3, 0, CleanEmpty, DashChecked)  // :816-857
  const GdprArchives := PairBlock(WhichArchives, ArchiveOptions, 4, 1, CleanEmpty, DashChecked)  // :884-925
  const CertifiedLegalGround := PairBlock(OtherLegalGroundDesc, OtherLegalGround, 1, 6, CleanEmpty, DashChecked)  // :1507-1548
  const CertifiedSpecialCategories := PairBlock(PersonalDataCatDesc, PersonalDataSpecCat, 1, 7, RawEmpty, DashChecked)  // :1550-1590
  const CertifiedTools := PairBlock(ToolsDuringResDescr, ToolsDuringResearch, 3, 2, CleanEmpty, Dash)  // :1645-1683
  const CertifiedTransfer := PairBlock(DataTransferDesc, DataTransfer, 3, 4, CleanEmpty, JoinedChecked)  // :1711-1752
  const CertifiedTransferEea := PairBlock(TransferEeaDesc, DataTransferEea, 3, 6, CleanEmpty, Joined)  // :1754-1792
  const CertifiedEthics := PairBlock(EthComAppNeeded, EthComApproved, 2, 2, CleanEmpty, JoinedChecked)  // :1794-1835
  const CertifiedArchives := PairBlock(WhichArchives, ArchiveOptions, 4, 1, CleanEmpty, DashChecked)  // :1866-1907

  /**
    Step 5a, DMP_stats_v1.4.py:236-1075: the block that fills each answer
    column of a GDPR row, listed in the order the script runs them.
   */
  const GdprTemplate: map<Column, Block> := map[
    PlanVersion := TextBlock(PlanVersion, 0, 0, Period),  // :236-259
    ProjectTitle := TextBlock(ProjectTitle, 0, 1, Period),  // :261-284
    FacultySituated := OptionsBlock(FacultySituated, 0, 3, Dash),  // :286-305
    Organisation := TextBlock(Organisation, 0, 4, Plain),  // :307-330
    OtherOrg := TextBlock(OtherOrg, 0, 5, Plain),  // :332-355
    ProjectCode := TextBlock(ProjectCode, 0, 6, Plain),  // :357-380
    OtherDmpUrl := GuardedTextBlock(OtherDmpUrl, 8, 0, 8, RawEmpty),  // :382-412
    ExistingData := TextBlock(ExistingData, 1, 0, Plain),  // :414-437
    NewData := TextBlock(NewData, 1, 1, Plain),  // :439-462
    PopulationDescr := TextBlock(PopulationDescr, 1, 2, Plain),  // :464-487
    PersonalDataType := OptionsBlock(PersonalDataType, 1, 3, Dash),  // :489-507
    InformedConsentType := OptionsBlock(InformedConsentType, 1, 4, Dash),  // :509-527
    OtherLegalGroundDesc := GdprLegalGround, OtherLegalGround := GdprLegalGround,
    PersonalDataCatDesc := GdprSpecialCategories, PersonalDataSpecCat := GdprSpecialCategories,
    InformedConsentExemption := TextBlock(InformedConsentExemption, 1, 7, RawEmpty),  // :614-640
    DataSecurityMeasures := TextBlock(DataSecurityMeasures, 2, 0, Plain),  // :642-665
    ToolsDuringResDescr := GdprTools, ToolsDuringResearch := GdprTools,
    OtherToolsDuring := TextBlock(OtherToolsDuring, 2, 2, CleanEmpty),  // :707-731
    DataTransferDesc := GdprTransfer, DataTransfer := GdprTransfer,
    TransferEeaDesc := GdprTransferEea, DataTransferEea := GdprTransferEea,
    EthComAppNeeded := GdprEthics, EthComApproved := GdprEthics,
    ArchAndOrPubl := TextBlock(ArchAndOrPubl, 2, 0, Plain),  // :859-882
    WhichArchives := GdprArchives, ArchiveOptions := GdprArchives,
    OtherArchives := TextBlock(OtherArchives, 4, 2, Plain),  // :927-950
    ArchivePeriod := TextBlock(ArchivePeriod, 4, 3, Plain),  // :952-975
    DatasetPublish := TextBlock(DatasetPublish, 4, 4, Plain),  // :977-1000
    ResearcherRespDuring := TextBlock(ResearcherRespDuring, 5, 0, Plain),  // :1002-1025
    PersonRespAfter := TextBlock(PersonRespAfter, 5, 1, Plain),  // :1027-1050
    ProcedToReqDataset := TextBlock(ProcedToReqDataset, 5, 1, Plain)  // :1052-1075
  ]

  /**
    Step 5b, DMP_stats_v1.4.py:1238-2087.  The blocks at :1550-1590,
    :1938-1965 and :1967-1994 carry the per-field rule their neighbours
    follow; the script as written reads a stale variable there (see the
    as-written members of Extractor).
   */
  const CertifiedTemplate: map<Column, Block> := map[
    PlanVersion := TextBlock(PlanVersion, 0, 0, Period),  // :1238-1261
    ProjectTitle := TextBlock(ProjectTitle, 0, 1, Period),  // :1263-1286
    FacultySituated := OptionsBlock(FacultySituated, 0, 3, Dash),  // :1288-1307
    Organisation := TextBlock(Organisation, 0, 4, Plain),  // :1309-1332
    OtherOrg := TextBlock(OtherOrg, 0, 5, Plain),  // :1334-1357
    ProjectCode := TextBlock(ProjectCode, 0, 6, CleanEmpty),  // :1359-1386
    ExistingData := TextBlock(ExistingData, 1, 1, CleanEmpty),  // :1388-1415
    NewData := TextBlock(NewData, 1, 2, Plain),  // :1417-1440
    PopulationDescr := TextBlock(PopulationDescr, 1, 3, Plain),  // :1442-1465
    PersonalDataType := OptionsBlock(PersonalDataType, 1, 4, Dash),  // :1467-1485
    InformedConsentType := OptionsBlock(InformedConsentType, 1, 5, Dash),  // :1487-1505
    OtherLegalGroundDesc := CertifiedLegalGround, OtherLegalGround := CertifiedLegalGround,
    PersonalDataCatDesc := CertifiedSpecialCategories, PersonalDataSpecCat := CertifiedSpecialCategories,
    InformedConsentExemption := TextBlock(InformedConsentExemption, 1, 8, RawEmpty),  // :1592-1618
    DataSecurityMeasures := TextBlock(DataSecurityMeasures, 3, 0, Plain),  // :1620-1643
    ToolsDuringResDescr := CertifiedTools, ToolsDuringResearch := CertifiedTools,
    OtherToolsDuring := TextBlock(OtherToolsDuring, 3, 3, CleanEmpty),  // :1685-1709
    DataTransferDesc := CertifiedTransfer, DataTransfer := CertifiedTransfer,
    TransferEeaDesc := CertifiedTransferEea, DataTransferEea := CertifiedTransferEea,
    EthComAppNeeded := CertifiedEthics, EthComApproved := CertifiedEthics,
    ArchAndOrPubl := TextBlock(ArchAndOrPubl, 4, 0, CleanEmpty),  // :1837-1864
    WhichArchives := CertifiedArchives, ArchiveOptions := CertifiedArchives,
    OtherArchives := TextBlock(OtherArchives, 4, 2, CleanEmpty),  // :1909-1936
    ArchivePeriod := TextBlock(ArchivePeriod, 4, 3, CleanEmpty),  // :1938-1965
    DatasetPublish := TextBlock(DatasetPublish, 4, 5, CleanEmpty),  // :1967-1994
    ResearcherRespDuring := TextBlock(ResearcherRespDuring, 6, 0, Plain),  // :1996-2019
    PersonRespAfter := TextBlock(PersonRespAfter, 6, 1, Plain),  // :2021-2044
    ProcedToReqDataset := TextBlock(ProcedToReqDataset, 6, 2, Plain),  // :2046-2069
    OtherDmpUrl := FixedBlock(OtherDmpUrl, Unknown)  // :2087
  ]

  function Layout(f: Family): map<Column, Block> {
    match f
    case Gdpr => GdprTemplate
    case Certified => CertifiedTemplate
  }

  /** Each template fills exactly the answer columns, each by a block that names it. */
  lemma TemplateFillsAnswerColumns(f: Family)
    ensures forall c :: c in Layout(f) <==> c in AnswerColumns
    ensures forall c :: c in Layout(f) ==> c in BlockColumns(Layout(f)[c])
  {
    if f == Gdpr {
      GdprKeys();
      GdprBlocksNameTheirColumn();
    } else {
      CertifiedKeys();
      CertifiedBlocksNameTheirColumn();
    }
  }

  lemma GdprKeys()
    ensures forall c :: c in GdprTemplate <==> c in AnswerColumns
  {
  }

  lemma GdprBlocksNameTheirColumn()
    ensures forall c :: c in GdprTemplate ==> c in BlockColumns(GdprTemplate[c])
  {
  }

  lemma CertifiedKeys()
    ensures forall c :: c in CertifiedTemplate <==> c in AnswerColumns
  {
  }

  lemma CertifiedBlocksNameTheirColumn()
    ensures forall c :: c in CertifiedTemplate ==> c in BlockColumns(CertifiedTemplate[c])
  {
  }

  /**
    The positions are those of the script, repeats included: in the GDPR
    form `Arch_and_or_Publ` re-reads the data-security question (:642,
    :859) and `Proced_to_req_dataset` the question after it (:1027, :1052).
   */
  lemma RepeatedPositions()
    ensures GdprTemplate[ArchAndOrPubl].section == GdprTemplate[DataSecurityMeasures].section == 2
    ensures GdprTemplate[ArchAndOrPubl].question == GdprTemplate[DataSecurityMeasures].question == 0
    ensures GdprTemplate[ProcedToReqDataset].section == GdprTemplate[PersonRespAfter].section == 5
    ensures GdprTemplate[ProcedToReqDataset].question == GdprTemplate[PersonRespAfter].question == 1
  {
  }
}
