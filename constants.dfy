/**
 * The constants that drive `Emld`'s get, set and delete methods: the release
 * identifiers of the application and the `LOOKUPS` table, which maps a
 * metadata field name to the xpath of its node, the xpath of the parent a new
 * node is appended to, a display name, and an empty template of the node.
 */
module Constants {
  import opened Wrappers
  import opened Values
  import Xpath

  /** The current release version of the application. */
  const CURRENT_RELEASE: string := "0.0.1"

  /** The name of the application. */
  const APP_NAME: string := "pyEML"

  /** One entry of `LOOKUPS`. */
  datatype Lookup = Lookup(
    nodeXpath: string,   // the node a get returns, a delete removes, a set assigns
    nodeTarget: string,  // the field's name in messages
    parent: string,      // the node a set appends new values to
    valuesDict: Value)   // the tag/text structure of the node, with empty leaves

  /** The fields of a person or organisation, shared by three templates. */
  function Party(tag: string): Value
  {
    Dict([(tag, Dict([
      ("individualName", Dict([("givenName", Null), ("surName", Null)])),
      ("organizationName", Null),
      ("electronicMailAddress", Null)]))])
  }

  // The values of the `LOOKUPS` display, one constant per key.

  const TITLE_LOOKUP: Lookup :=
    Lookup("./dataset/title", "title", "./dataset",
      Dict([("title", Null)]))

  const CREATOR_LOOKUP: Lookup :=
    Lookup("./dataset/creator", "creator", "./dataset",
      Party("creator"))

  const KEYWORDS_LOOKUP: Lookup :=
    Lookup("./dataset/keywordSet", "keywords", "./dataset",
      Dict([("keywordSet", Dict([("keyword", Null)]))]))

  const PUBLISHER_LOOKUP: Lookup :=
    Lookup("./dataset/publisher", "publisher", "./dataset",
      Dict([("publisher", Dict([
        ("address", Dict([
          ("city", Null), ("administrativeArea", Null), ("postalCode", Null), ("country", Null)])),
        ("onlineUrl", Null),
        ("userId", Dict([("directory", Null), ("userId", Null)]))]))]))

  const PUB_DATE_LOOKUP: Lookup :=
    Lookup("./dataset/pubDate", "publication date", "./dataset",
      Dict([("pubDate", Null)]))

  const TEMPORAL_COVERAGE_LOOKUP: Lookup :=
    Lookup("./dataset/coverage/temporalCoverage", "temporal coverage", "./dataset/coverage",
      Dict([("temporalCoverage", Dict([
        ("rangeOfDates", Dict([
          ("beginDate", Dict([("calendarDate", Null)])),
          ("endDate", Dict([("calendarDate", Null)]))]))]))]))

  const CUI_LOOKUP: Lookup :=
    Lookup("./additionalMetadata/metadata/CUI", "cui", "./additionalMetadata/metadata",
      Dict([("CUI", Null)]))

  const INT_RIGHTS_LOOKUP: Lookup :=
    Lookup("./dataset/intellectualRights", "int_rights", "./dataset",
      Dict([("intellectualRights", Dict([("para", Null)]))]))

  const STATUS_LOOKUP: Lookup :=
    Lookup("./dataset/maintenance", "status", "./dataset",
      Dict([("maintenance", Dict([("description", Null)]))]))

  const DOI_LOOKUP: Lookup :=
    Lookup("./dataset/alternateIdentifier", "doi", "./dataset",
      Dict([("alternateIdentifier", Null)]))

  const CONTACT_LOOKUP: Lookup :=
    Lookup("./dataset/contact", "contact", "./dataset",
      Party("contact"))

  const USAGE_CITATION_LOOKUP: Lookup :=
    Lookup("./dataset/usageCitation", "usage_citation", "./dataset",
      Dict([("usageCitation", Dict([
        ("alternateIdentifier", Null), ("title", Null), ("creator", Null), ("report", Null), ("id", Null)]))]))

  const VERSION_LOOKUP: Lookup :=
    Lookup("./additionalMetadata/metadata/emlEditor", "version", "./additionalMetadata/metadata",
      Dict([("emlEditor", Dict([("app", Str(APP_NAME)), ("release", Str(CURRENT_RELEASE))]))]))

  const PROTOCOL_CITATION_LOOKUP: Lookup :=
    Lookup("./dataset/additionalInfo/para", "protocol_citation", "./dataset/additionalInfo",
      Dict([("para", Null)]))

  const ABSTRACT_LOOKUP: Lookup :=
    Lookup("./dataset/abstract", "abstract", "./dataset",
      Dict([("abstract", Dict([("para", Null)]))]))

  const LIT_CITED_LOOKUP: Lookup :=
    Lookup("./dataset/literatureCited", "lit_cited", "./dataset",
      Dict([("literatureCited", Dict([("bibtex", Null)]))]))

  const LANGUAGE_LOOKUP: Lookup :=
    Lookup("./dataset/language", "language", "./dataset",
      Dict([("language", Null)]))

  const GEOGRAPHIC_COVERAGE_LOOKUP: Lookup :=
    Lookup("./dataset/coverage/geographicCoverage", "geographic_coverage", "./dataset/coverage",
      Dict([("geographicCoverage", Null)]))

  const METADATA_PROVIDER_LOOKUP: Lookup :=
    Lookup("./dataset/metadataProvider", "metadata_provider", "./dataset",
      Party("metadataProvider"))

  const NPS_PRODUCING_UNITS_LOOKUP: Lookup :=
    Lookup("./dataset/metadataProvider", "nps_producing_units", "./dataset",
      Dict([("metadataProvider", Dict([("unit", Null)]))]))

  /** The pairs of the `LOOKUPS` dict display, in their order. */
  const ENTRIES: seq<(string, Lookup)> := [
    ("title", TITLE_LOOKUP),
    ("creator", CREATOR_LOOKUP),
    ("keywords", KEYWORDS_LOOKUP),
    ("publisher", PUBLISHER_LOOKUP),
    ("pub_date", PUB_DATE_LOOKUP),
    ("temporal_coverage", TEMPORAL_COVERAGE_LOOKUP),
    ("cui", CUI_LOOKUP),
    ("int_rights", INT_RIGHTS_LOOKUP),
    ("status", STATUS_LOOKUP),
    ("doi", DOI_LOOKUP),
    ("contact", CONTACT_LOOKUP),
    ("usage_citation", USAGE_CITATION_LOOKUP),
    ("version", VERSION_LOOKUP),
    ("protocol_citation", PROTOCOL_CITATION_LOOKUP),
    ("abstract", ABSTRACT_LOOKUP),
    ("lit_cited", LIT_CITED_LOOKUP),
    ("language", LANGUAGE_LOOKUP),
    ("geographic_coverage", GEOGRAPHIC_COVERAGE_LOOKUP),
    ("metadata_provider", METADATA_PROVIDER_LOOKUP),
    ("nps_producing_units", NPS_PRODUCING_UNITS_LOOKUP)
  ]

  const LOOKUPS: map<string, Lookup> := DictOf(ENTRIES)

  /** `xpath` is `parent` followed by one more, non-empty, tag. */
  predicate ChildOf(xpath: string, parent: string, segment: string)
  {
    segment != "" && '/' !in segment && xpath == parent + "/" + segment
  }

  /**
   * An entry is well formed when both xpaths are relative, its template has a
   * single top-level key, and the node's xpath is its parent's xpath followed
   * by that key.
   */
  predicate WellFormed(l: Lookup)
  {
    Xpath.StartsRelative(l.nodeXpath) && Xpath.StartsRelative(l.parent)
    && TopKey(l.valuesDict).Some?
    && ChildOf(l.nodeXpath, l.parent, TopKey(l.valuesDict).value)
  }

  // ---------------------------------------------------------------------------
  // Lemmas
  // ---------------------------------------------------------------------------

  /** The parent and last tag of an xpath are determined by the xpath. */
  lemma ChildOfUnique(xpath: string, p1: string, s1: string, p2: string, s2: string)
    requires ChildOf(xpath, p1, s1) && ChildOf(xpath, p2, s2)
    ensures p1 == p2 && s1 == s2
  {
    Xpath.SplitChild(p1, s1);
    Xpath.SplitChild(p2, s2);
    var pieces := Xpath.Split(xpath);
    assert s1 == pieces[|pieces| - 1] == s2;
    assert Xpath.Split(p1) == pieces[..|pieces| - 1] == Xpath.Split(p2);
    Xpath.JoinSplit(p1);
    Xpath.JoinSplit(p2);
  }


  /** The display has twenty pairs, and no key is repeated. */
  lemma EntriesDistinct()
    ensures |ENTRIES| == 20
    ensures forall i, j | 0 <= i < j < |ENTRIES| :: ENTRIES[i].0 != ENTRIES[j].0
  {
  }

  /**
   * An entry whose parent xpath is relative and whose node xpath is that
   * parent followed by the template's single key is well formed: the node
   * xpath is then relative as well.
   */
  lemma WellFormedOf(l: Lookup, key: string)
    requires Xpath.StartsRelative(l.parent)
    requires TopKey(l.valuesDict) == Some(key)
    requires ChildOf(l.nodeXpath, l.parent, key)
    ensures WellFormed(l)
  {
  }

  // One lemma per entry keeps each proof about literal strings small.

  lemma TitleWellFormed()
    ensures WellFormed(TITLE_LOOKUP)
  {
    var l := TITLE_LOOKUP;
    assert l.nodeXpath == "./dataset/title" && l.parent == "./dataset";
    assert ChildOf("./dataset/title", "./dataset", "title");
    WellFormedOf(l, "title");
  }

  lemma CreatorWellFormed()
    ensures WellFormed(CREATOR_LOOKUP)
  {
    var l := CREATOR_LOOKUP;
    assert l.nodeXpath == "./dataset/creator" && l.parent == "./dataset";
    assert ChildOf("./dataset/creator", "./dataset", "creator");
    WellFormedOf(l, "creator");
  }

  lemma KeywordsWellFormed()
    ensures WellFormed(KEYWORDS_LOOKUP)
  {
    var l := KEYWORDS_LOOKUP;
    assert l.nodeXpath == "./dataset/keywordSet" && l.parent == "./dataset";
    assert ChildOf("./dataset/keywordSet", "./dataset", "keywordSet");
    WellFormedOf(l, "keywordSet");
  }

  lemma PublisherWellFormed()
    ensures WellFormed(PUBLISHER_LOOKUP)
  {
    var l := PUBLISHER_LOOKUP;
    assert l.nodeXpath == "./dataset/publisher" && l.parent == "./dataset";
    assert ChildOf("./dataset/publisher", "./dataset", "publisher");
    WellFormedOf(l, "publisher");
  }

  lemma PubDateWellFormed()
    ensures WellFormed(PUB_DATE_LOOKUP)
  {
    var l := PUB_DATE_LOOKUP;
    assert l.nodeXpath == "./dataset/pubDate" && l.parent == "./dataset";
    assert ChildOf("./dataset/pubDate", "./dataset", "pubDate");
    WellFormedOf(l, "pubDate");
  }

  lemma TemporalCoverageWellFormed()
    ensures WellFormed(TEMPORAL_COVERAGE_LOOKUP)
  {
    var l := TEMPORAL_COVERAGE_LOOKUP;
    assert l.nodeXpath == "./dataset/coverage/temporalCoverage" && l.parent == "./dataset/coverage";
    assert ChildOf("./dataset/coverage/temporalCoverage", "./dataset/coverage", "temporalCoverage");
    WellFormedOf(l, "temporalCoverage");
  }

  lemma CuiWellFormed()
    ensures WellFormed(CUI_LOOKUP)
  {
    var l := CUI_LOOKUP;
    assert l.nodeXpath == "./additionalMetadata/metadata/CUI" && l.parent == "./additionalMetadata/metadata";
    assert ChildOf("./additionalMetadata/metadata/CUI", "./additionalMetadata/metadata", "CUI");
    WellFormedOf(l, "CUI");
  }

  lemma IntRightsWellFormed()
    ensures WellFormed(INT_RIGHTS_LOOKUP)
  {
    var l := INT_RIGHTS_LOOKUP;
    assert l.nodeXpath == "./dataset/intellectualRights" && l.parent == "./dataset";
    assert ChildOf("./dataset/intellectualRights", "./dataset", "intellectualRights");
    WellFormedOf(l, "intellectualRights");
  }

  lemma StatusWellFormed()
    ensures WellFormed(STATUS_LOOKUP)
  {
    var l := STATUS_LOOKUP;
    assert l.nodeXpath == "./dataset/maintenance" && l.parent == "./dataset";
    assert ChildOf("./dataset/maintenance", "./dataset", "maintenance");
    WellFormedOf(l, "maintenance");
  }

  lemma DoiWellFormed()
    ensures WellFormed(DOI_LOOKUP)
  {
    var l := DOI_LOOKUP;
    assert l.nodeXpath == "./dataset/alternateIdentifier" && l.parent == "./dataset";
    assert ChildOf("./dataset/alternateIdentifier", "./dataset", "alternateIdentifier");
    WellFormedOf(l, "alternateIdentifier");
  }

  lemma ContactWellFormed()
    ensures WellFormed(CONTACT_LOOKUP)
  {
    var l := CONTACT_LOOKUP;
    assert l.nodeXpath == "./dataset/contact" && l.parent == "./dataset";
    assert ChildOf("./dataset/contact", "./dataset", "contact");
    WellFormedOf(l, "contact");
  }

  lemma UsageCitationWellFormed()
    ensures WellFormed(USAGE_CITATION_LOOKUP)
  {
    var l := USAGE_CITATION_LOOKUP;
    assert l.nodeXpath == "./dataset/usageCitation" && l.parent == "./dataset";
    assert ChildOf("./dataset/usageCitation", "./dataset", "usageCitation");
    WellFormedOf(l, "usageCitation");
  }

  lemma VersionWellFormed()
    ensures WellFormed(VERSION_LOOKUP)
  {
    var l := VERSION_LOOKUP;
    assert l.nodeXpath == "./additionalMetadata/metadata/emlEditor" && l.parent == "./additionalMetadata/metadata";
    assert ChildOf("./additionalMetadata/metadata/emlEditor", "./additionalMetadata/metadata", "emlEditor");
    WellFormedOf(l, "emlEditor");
  }

  lemma ProtocolCitationWellFormed()
    ensures WellFormed(PROTOCOL_CITATION_LOOKUP)
  {
    var l := PROTOCOL_CITATION_LOOKUP;
    assert l.nodeXpath == "./dataset/additionalInfo/para" && l.parent == "./dataset/additionalInfo";
    assert ChildOf("./dataset/additionalInfo/para", "./dataset/additionalInfo", "para");
    WellFormedOf(l, "para");
  }

  lemma AbstractWellFormed()
    ensures WellFormed(ABSTRACT_LOOKUP)
  {
    var l := ABSTRACT_LOOKUP;
    assert l.nodeXpath == "./dataset/abstract" && l.parent == "./dataset";
    assert ChildOf("./dataset/abstract", "./dataset", "abstract");
    WellFormedOf(l, "abstract");
  }

  lemma LitCitedWellFormed()
    ensures WellFormed(LIT_CITED_LOOKUP)
  {
    var l := LIT_CITED_LOOKUP;
    assert l.nodeXpath == "./dataset/literatureCited" && l.parent == "./dataset";
    assert ChildOf("./dataset/literatureCited", "./dataset", "literatureCited");
    WellFormedOf(l, "literatureCited");
  }

  lemma LanguageWellFormed()
    ensures WellFormed(LANGUAGE_LOOKUP)
  {
    var l := LANGUAGE_LOOKUP;
    assert l.nodeXpath == "./dataset/language" && l.parent == "./dataset";
    assert ChildOf("./dataset/language", "./dataset", "language");
    WellFormedOf(l, "language");
  }

  lemma GeographicCoverageWellFormed()
    ensures WellFormed(GEOGRAPHIC_COVERAGE_LOOKUP)
  {
    var l := GEOGRAPHIC_COVERAGE_LOOKUP;
    assert l.nodeXpath == "./dataset/coverage/geographicCoverage" && l.parent == "./dataset/coverage";
    assert ChildOf("./dataset/coverage/geographicCoverage", "./dataset/coverage", "geographicCoverage");
    WellFormedOf(l, "geographicCoverage");
  }

  lemma MetadataProviderWellFormed()
    ensures WellFormed(METADATA_PROVIDER_LOOKUP)
  {
    var l := METADATA_PROVIDER_LOOKUP;
    assert l.nodeXpath == "./dataset/metadataProvider" && l.parent == "./dataset";
    assert ChildOf("./dataset/metadataProvider", "./dataset", "metadataProvider");
    WellFormedOf(l, "metadataProvider");
  }

  lemma NpsProducingUnitsWellFormed()
    ensures WellFormed(NPS_PRODUCING_UNITS_LOOKUP)
  {
    var l := NPS_PRODUCING_UNITS_LOOKUP;
    assert l.nodeXpath == "./dataset/metadataProvider" && l.parent == "./dataset";
    assert ChildOf("./dataset/metadataProvider", "./dataset", "metadataProvider");
    WellFormedOf(l, "metadataProvider");
  }

  /** Every pair of the display holds a well-formed entry. */
  lemma EntriesWellFormed()
    ensures forall i | 0 <= i < |ENTRIES| :: WellFormed(ENTRIES[i].1)
  {
    TitleWellFormed();
    CreatorWellFormed();
    KeywordsWellFormed();
    PublisherWellFormed();
    PubDateWellFormed();
    TemporalCoverageWellFormed();
    CuiWellFormed();
    IntRightsWellFormed();
    StatusWellFormed();
    DoiWellFormed();
    ContactWellFormed();
    UsageCitationWellFormed();
    VersionWellFormed();
    ProtocolCitationWellFormed();
    AbstractWellFormed();
    LitCitedWellFormed();
    LanguageWellFormed();
    GeographicCoverageWellFormed();
    MetadataProviderWellFormed();
    NpsProducingUnitsWellFormed();
  }

  /** Every pair of the display is in the dict: no later pair overrides it. */
  lemma LookupsHoldEntries()
    ensures forall i | 0 <= i < |ENTRIES| :: ENTRIES[i].0 in LOOKUPS && LOOKUPS[ENTRIES[i].0] == ENTRIES[i].1
  {
    EntriesDistinct();
    forall i | 0 <= i < |ENTRIES|
      ensures ENTRIES[i].0 in LOOKUPS && LOOKUPS[ENTRIES[i].0] == ENTRIES[i].1
    {
      DictOfDistinct(ENTRIES, i);
    }
  }

  /** Every entry of the table is well formed. */
  lemma LookupsWellFormed()
    ensures forall k | k in LOOKUPS :: WellFormed(LOOKUPS[k])
  {
    EntriesWellFormed();
    forall k | k in LOOKUPS
      ensures WellFormed(LOOKUPS[k])
    {
      DictOfValue(ENTRIES, k);
    }
  }

  /** The templates for `title` to `pub_date` have no leaf value. */
  lemma NoLeavesA()
    ensures Leaves(TITLE_LOOKUP.valuesDict) == []
    ensures Leaves(CREATOR_LOOKUP.valuesDict) == []
    ensures Leaves(KEYWORDS_LOOKUP.valuesDict) == []
    ensures Leaves(PUBLISHER_LOOKUP.valuesDict) == []
    ensures Leaves(PUB_DATE_LOOKUP.valuesDict) == []
  {
  }

  /** The templates for `temporal_coverage` to `doi` have no leaf value. */
  lemma NoLeavesB()
    ensures Leaves(TEMPORAL_COVERAGE_LOOKUP.valuesDict) == []
    ensures Leaves(CUI_LOOKUP.valuesDict) == []
    ensures Leaves(INT_RIGHTS_LOOKUP.valuesDict) == []
    ensures Leaves(STATUS_LOOKUP.valuesDict) == []
    ensures Leaves(DOI_LOOKUP.valuesDict) == []
  {
  }

  /** The templates for `contact` to `abstract` (but `version`) have no leaf value. */
  lemma NoLeavesC()
    ensures Leaves(CONTACT_LOOKUP.valuesDict) == []
    ensures Leaves(USAGE_CITATION_LOOKUP.valuesDict) == []
    ensures Leaves(PROTOCOL_CITATION_LOOKUP.valuesDict) == []
    ensures Leaves(ABSTRACT_LOOKUP.valuesDict) == []
  {
  }

  /** The templates for `lit_cited` to `nps_producing_units` have no leaf value. */
  lemma NoLeavesD()
    ensures Leaves(LIT_CITED_LOOKUP.valuesDict) == []
    ensures Leaves(LANGUAGE_LOOKUP.valuesDict) == []
    ensures Leaves(GEOGRAPHIC_COVERAGE_LOOKUP.valuesDict) == []
    ensures Leaves(METADATA_PROVIDER_LOOKUP.valuesDict) == []
    ensures Leaves(NPS_PRODUCING_UNITS_LOOKUP.valuesDict) == []
  {
  }

  /** The `version` template holds the application's name and release. */
  lemma VersionLeaves()
    ensures Leaves(VERSION_LOOKUP.valuesDict) == [APP_NAME, CURRENT_RELEASE]
  {
    var editor := Dict([("app", Str(APP_NAME)), ("release", Str(CURRENT_RELEASE))]);
    assert LeavesFrom(editor, 2) == [];
    assert LeavesFrom(editor, 1) == Leaves(Str(CURRENT_RELEASE)) + [];
    assert LeavesFrom(editor, 0) == Leaves(Str(APP_NAME)) + [CURRENT_RELEASE];
    var outer := Dict([("emlEditor", editor)]);
    assert LeavesFrom(outer, 1) == [];
    assert LeavesFrom(outer, 0) == Leaves(editor) + [];
  }

  /** Every template leaf is `None`, except the application name and release of `version`. */
  lemma EntriesLeaves()
    ensures forall i | 0 <= i < |ENTRIES| && ENTRIES[i].0 != "version" :: Leaves(ENTRIES[i].1.valuesDict) == []
    ensures ENTRIES[12] == ("version", VERSION_LOOKUP)
    ensures Leaves(ENTRIES[12].1.valuesDict) == [APP_NAME, CURRENT_RELEASE]
  {
    NoLeavesA();
    NoLeavesB();
    NoLeavesC();
    NoLeavesD();
    VersionLeaves();
  }

  /** Two entries share a node xpath, so an xpath does not determine its entry. */
  lemma SharedXpath()
    ensures "metadata_provider" in LOOKUPS && "nps_producing_units" in LOOKUPS
    ensures LOOKUPS["metadata_provider"].nodeXpath == LOOKUPS["nps_producing_units"].nodeXpath
    ensures !(forall k1, k2 | k1 in LOOKUPS && k2 in LOOKUPS && LOOKUPS[k1].nodeXpath == LOOKUPS[k2].nodeXpath :: k1 == k2)
  {
    LookupsHoldEntries();
    assert ENTRIES[18].0 == "metadata_provider" && ENTRIES[19].0 == "nps_producing_units";
  }
}
