/**
 * `parse_xml_record` of scripts/ingestion/abn_data.py: one `ABR` element of
 * the ABR bulk extract becomes a normalised record, or None when the element
 * carries no usable ABN.
 *
 * `ParseRecord` is the specification of the whole normalisation;
 * `ParseXmlRecord` is the procedure as written, with the two `for` loops that
 * build the DGR and other-name lists, proved equal to it.
 */
module AbnParse {
  import opened Wrappers
  import opened Xml

  /** The `abn_record` dictionary. */
  datatype AbnRecord = AbnRecord(
    abn: string,
    recordLastUpdatedDate: Option<string>,
    abnStatus: Option<string>,
    abnStatusFromDate: Option<string>,
    entityTypeInd: Option<string>,
    entityTypeText: Option<string>)

  /** A `{'type', 'text'}` name dictionary: `main_entity` and each entry of `other_entity_names`. */
  datatype NameData = NameData(nameType: Option<string>, text: Option<string>)

  /** The `legal_entity` dictionary, built from an `IndividualName`. */
  datatype LegalEntityData = LegalEntityData(
    nameType: Option<string>,
    title: Option<string>,
    givenName1: Option<string>,
    givenName2: Option<string>,
    familyName: Option<string>)

  /** The `business_address` dictionary. */
  datatype AddressData = AddressData(stateCode: Option<string>, postcode: Option<string>)

  /** The `gst_registration` dictionary. */
  datatype GstData = GstData(status: Option<string>, statusFromDate: Option<string>)

  /** One entry of `dgr_entries`. */
  datatype DgrEntry = DgrEntry(statusFromDate: Option<string>, status: Option<string>, nameType: Option<string>, text: Option<string>)

  /** The normalised structure `parse_xml_record` returns. */
  datatype ParsedRecord = ParsedRecord(
    abnRecord: AbnRecord,
    mainEntity: Option<NameData>,
    legalEntity: Option<LegalEntityData>,
    asicNumber: Option<string>,
    gstRegistration: Option<GstData>,
    dgrEntries: Option<seq<DgrEntry>>,
    otherEntityNames: Option<seq<NameData>>,
    businessAddress: Option<AddressData>)

  /** An ABN is accepted when, with all whitespace removed, it has exactly 11 characters. */
  predicate AcceptedAbn(raw: string)
  {
    |RemovePyWhitespace(raw)| == 11
  }

  /**
   * The ABN of a record: the text of its `ABN` child with all whitespace
   * removed, or None when there is no `ABN` child, it has no text, or the
   * result is empty or not exactly 11 characters long.
   */
  function NormalisedAbn(record: Element): (r: Option<string>)
    ensures r.Some? <==> Find(record, "ABN").Some? && Find(record, "ABN").value.text.Some? &&
                         AcceptedAbn(Find(record, "ABN").value.text.value)
    ensures r.Some? ==> r.value == RemovePyWhitespace(Find(record, "ABN").value.text.value)
    ensures r.Some? ==> |r.value| == 11 && forall k :: 0 <= k < 11 ==> !IsPyWhitespace(r.value[k])
  {
    match Find(record, "ABN")
    case None => None
    case Some(abnElem) =>
      var abn := if abnElem.text.Some? && abnElem.text.value != "" then Some(RemovePyWhitespace(abnElem.text.value)) else None;
      if abn.None? || abn.value == "" || |abn.value| != 11 then None else abn
  }

  /** `entity_type_ind` and `entity_type_text`, both None without an `EntityType` child. */
  function EntityTypeOf(record: Element): (Option<string>, Option<string>)
  {
    match Find(record, "EntityType")
    case None => (None, None)
    case Some(et) => (TextOf(Find(et, "EntityTypeInd")), TextOf(Find(et, "EntityTypeText")))
  }

  /** `main_entity`: present exactly when `MainEntity` has a `NonIndividualName`. */
  function MainEntityOf(record: Element): (r: Option<NameData>)
    ensures r.Some? <==> Find(record, "MainEntity").Some? && Find(Find(record, "MainEntity").value, "NonIndividualName").Some?
  {
    match Find(record, "MainEntity")
    case None => None
    case Some(me) =>
      match Find(me, "NonIndividualName")
      case None => None
      case Some(ni) => Some(NameOf(ni))
  }

  /** A `{'type', 'text'}` dictionary read from a `NonIndividualName` element. */
  function NameOf(nonIndividual: Element): NameData
  {
    NameData(Get(nonIndividual, "type"), TextOf(Find(nonIndividual, "NonIndividualNameText")))
  }

  /** The `legal_entity` dictionary of an `IndividualName`: at most two given names are kept. */
  function IndividualOf(individual: Element): (r: LegalEntityData)
    ensures var given := FindAll(individual, "GivenName");
            && (|given| == 0 ==> r.givenName1.None? && r.givenName2.None?)
            && (|given| == 1 ==> r.givenName2.None?)
            && (|given| >= 1 ==> r.givenName1 == given[0].text)
            && (|given| >= 2 ==> r.givenName2 == given[1].text)
  {
    var given := FindAll(individual, "GivenName");
    LegalEntityData(
      Get(individual, "type"),
      TextOf(Find(individual, "NameTitle")),
      if |given| > 0 then given[0].text else None,
      if |given| > 1 then given[1].text else None,
      TextOf(Find(individual, "FamilyName")))
  }

  /** `legal_entity`: present exactly when `LegalEntity` has an `IndividualName`. */
  function LegalEntityOf(record: Element): (r: Option<LegalEntityData>)
    ensures r.Some? <==> Find(record, "LegalEntity").Some? && Find(Find(record, "LegalEntity").value, "IndividualName").Some?
  {
    match Find(record, "LegalEntity")
    case None => None
    case Some(le) =>
      match Find(le, "IndividualName")
      case None => None
      case Some(ind) => Some(IndividualOf(ind))
  }

  /** The `BusinessAddress` element the address is read from. */
  function AddressSource(record: Element): (r: Option<Element>)
    ensures var main := Find(record, "MainEntity");
            var legal := Find(record, "LegalEntity");
            && (main.Some? && Find(main.value, "BusinessAddress").Some? ==> r == Find(main.value, "BusinessAddress"))
            && ((main.None? || Find(main.value, "BusinessAddress").None?) ==>
                  r == (if legal.Some? then Find(legal.value, "BusinessAddress") else None))
  {
    var fromMain := match Find(record, "MainEntity")
                    case Some(me) => Find(me, "BusinessAddress")
                    case None => None;
    match Find(record, "LegalEntity")
    case Some(le) => if fromMain.None? then Find(le, "BusinessAddress") else fromMain
    case None => fromMain
  }

  /** `business_address`: present exactly when the chosen `BusinessAddress` has `AddressDetails`. */
  function BusinessAddressOf(record: Element): (r: Option<AddressData>)
    ensures r.Some? <==> AddressSource(record).Some? && Find(AddressSource(record).value, "AddressDetails").Some?
    ensures r.Some? ==> var details := Find(AddressSource(record).value, "AddressDetails").value;
                        r.value == AddressData(TextOf(Find(details, "State")), TextOf(Find(details, "Postcode")))
  {
    match AddressSource(record)
    case None => None
    case Some(ba) =>
      match Find(ba, "AddressDetails")
      case None => None
      case Some(details) => Some(AddressData(TextOf(Find(details, "State")), TextOf(Find(details, "Postcode"))))
  }

  /** `gst_registration`: the two attributes of the `GST` child, when there is one. */
  function GstOf(record: Element): Option<GstData>
  {
    match Find(record, "GST")
    case None => None
    case Some(g) => Some(GstData(Get(g, "status"), Get(g, "GSTStatusFromDate")))
  }

  /** One `dgr_entries` entry; the name fields stay None when the `DGR` element has no `NonIndividualName`. */
  function DgrEntryOf(dgr: Element): DgrEntry
  {
    var name := Find(dgr, "NonIndividualName");
    DgrEntry(
      Get(dgr, "DGRStatusFromDate"),
      Get(dgr, "status"),
      if name.Some? then Get(name.value, "type") else None,
      if name.Some? then TextOf(Find(name.value, "NonIndividualNameText")) else None)
  }

  /** The DGR list: one entry per `DGR` element, in order. */
  function DgrEntries(dgrs: seq<Element>): (r: seq<DgrEntry>)
    ensures |r| == |dgrs|
  {
    seq(|dgrs|, k requires 0 <= k < |dgrs| => DgrEntryOf(dgrs[k]))
  }

  /** The other-name entry of an `OtherEntity`, None when it has no `NonIndividualName`. */
  function OtherNameOf(other: Element): Option<NameData>
  {
    match Find(other, "NonIndividualName")
    case None => None
    case Some(ni) => Some(NameOf(ni))
  }

  /** The other-name list: the entries of the `OtherEntity` elements that have a name, in order. */
  function OtherNames(others: seq<Element>): (r: seq<NameData>)
    ensures |r| <= |others|
  {
    if |others| == 0 then []
    else
      var last := others[|others| - 1];
      OtherNames(others[..|others| - 1]) + (if OtherNameOf(last).Some? then [OtherNameOf(last).value] else [])
  }

  /** `x if x else None` on a list. */
  function NoneIfEmpty<T>(s: seq<T>): (r: Option<seq<T>>)
    ensures r.Some? ==> |r.value| > 0 && r.value == s
    ensures r.None? <==> s == []
  {
    if s == [] then None else Some(s)
  }

  /** The whole normalisation, as `parse_xml_record` computes it. */
  function ParseRecord(record: Element): (r: Option<ParsedRecord>)
    ensures r.Some? <==> NormalisedAbn(record).Some?
    ensures r.Some? ==> r.value.abnRecord.abn == NormalisedAbn(record).value
  {
    match NormalisedAbn(record)
    case None => None
    case Some(abn) => Some(RecordWithAbn(record, abn))
  }

  /** The normalised structure of a record whose ABN is accepted as `abn`. */
  function RecordWithAbn(record: Element, abn: string): (r: ParsedRecord)
    requires Find(record, "ABN").Some?
    ensures r.abnRecord.abn == abn
  {
    var abnElem := Find(record, "ABN").value;
    var (ind, text) := EntityTypeOf(record);
    ParsedRecord(
      AbnRecord(abn, Get(record, "recordLastUpdatedDate"), Get(abnElem, "status"),
                Get(abnElem, "ABNStatusFromDate"), ind, text),
      MainEntityOf(record),
      LegalEntityOf(record),
      TextOf(Find(record, "ASICNumber")),
      GstOf(record),
      NoneIfEmpty(DgrEntries(FindAll(record, "DGR"))),
      NoneIfEmpty(OtherNames(FindAll(record, "OtherEntity"))),
      BusinessAddressOf(record))
  }

  /** The `for dgr_elem in record.findall('DGR')` loop: one entry appended per element. */
  method CollectDgrEntries(dgrs: seq<Element>) returns (entries: seq<DgrEntry>)
    ensures |entries| == |dgrs|
    ensures forall k :: 0 <= k < |dgrs| ==> entries[k] == DgrEntryOf(dgrs[k])
  {
    entries := [];
    for i := 0 to |dgrs|
      invariant |entries| == i
      invariant forall k :: 0 <= k < i ==> entries[k] == DgrEntryOf(dgrs[k])
    {
      var dgr := dgrs[i];
      var entry := DgrEntry(Get(dgr, "DGRStatusFromDate"), Get(dgr, "status"), None, None);
      var name := Find(dgr, "NonIndividualName");
      if name.Some? {
        entry := entry.(nameType := Get(name.value, "type"),
                        text := TextOf(Find(name.value, "NonIndividualNameText")));
      }
      entries := entries + [entry];
    }
  }

  /** The `for other_elem in record.findall('OtherEntity')` loop: an entry is appended only for a named element. */
  method CollectOtherNames(others: seq<Element>) returns (names: seq<NameData>)
    ensures names == OtherNames(others)
  {
    names := [];
    for i := 0 to |others|
      invariant names == OtherNames(others[..i])
    {
      var other := others[i];
      var name := Find(other, "NonIndividualName");
      if name.Some? {
        var entry := NameData(Get(name.value, "type"), TextOf(Find(name.value, "NonIndividualNameText")));
        names := names + [entry];
      }
      assert others[..i + 1][..i] == others[..i];
    }
    assert others[..|others|] == others;
  }

  /** `parse_xml_record`, step by step. */
  method ParseXmlRecord(record: Element) returns (r: Option<ParsedRecord>)
    ensures r == ParseRecord(record)
  {
    var abnElem := Find(record, "ABN");
    if abnElem.None? {
      return None;
    }
    var abn := if abnElem.value.text.Some? && abnElem.value.text.value != ""
               then Some(RemovePyWhitespace(abnElem.value.text.value)) else None;
    if abn.None? || abn.value == "" || |abn.value| != 11 {
      return None;
    }
    var abnStatus := Get(abnElem.value, "status");
    var abnStatusFromDate := Get(abnElem.value, "ABNStatusFromDate");
    var recordLastUpdated := Get(record, "recordLastUpdatedDate");
    var (entityTypeInd, entityTypeText) := EntityTypeOf(record);

    var dgrEntries := CollectDgrEntries(FindAll(record, "DGR"));
    var otherEntities := CollectOtherNames(FindAll(record, "OtherEntity"));
    assert dgrEntries == DgrEntries(FindAll(record, "DGR"));

    r := Some(ParsedRecord(
      AbnRecord(abn.value, recordLastUpdated, abnStatus, abnStatusFromDate, entityTypeInd, entityTypeText),
      MainEntityOf(record),
      LegalEntityOf(record),
      TextOf(Find(record, "ASICNumber")),
      GstOf(record),
      if dgrEntries != [] then Some(dgrEntries) else None,
      if otherEntities != [] then Some(otherEntities) else None,
      BusinessAddressOf(record)));
  }

  /** A record is rejected exactly when it has no `ABN` child or its ABN is not 11 characters once whitespace is removed; an accepted ABN has no whitespace. */
  lemma ParseRejectsExactly(record: Element)
    ensures ParseRecord(record).None? <==>
              Find(record, "ABN").None? || !AcceptedAbn(GetOr(Find(record, "ABN").value.text, ""))
    ensures ParseRecord(record).Some? ==>
              var abn := ParseRecord(record).value.abnRecord.abn;
              |abn| == 11 && forall k :: 0 <= k < |abn| ==> !IsPyWhitespace(abn[k])
  {
    if Find(record, "ABN").Some? && Find(record, "ABN").value.text.None? {
      assert RemovePyWhitespace("") == "";
    }
  }

  /** Each `DGR` element gives exactly one entry, in document order, whether or not it is named; no DGR elements gives None, never an empty list. */
  lemma DgrEntriesOnePerElement(record: Element)
    requires ParseRecord(record).Some?
    ensures var dgrs := FindAll(record, "DGR");
            var entries := ParseRecord(record).value.dgrEntries;
            && (entries.None? <==> |dgrs| == 0)
            && (entries.Some? ==> |entries.value| == |dgrs|)
            && (entries.Some? ==> forall k :: 0 <= k < |dgrs| ==> entries.value[k] == DgrEntryOf(dgrs[k]))
  {
  }

  /** Every other-name entry comes from a named `OtherEntity`; nameless ones contribute nothing. */
  lemma {:induction false} OtherNamesFromNamedElements(others: seq<Element>)
    ensures forall k :: 0 <= k < |OtherNames(others)| ==>
              exists j :: 0 <= j < |others| && OtherNameOf(others[j]) == Some(OtherNames(others)[k])
  {
    if |others| > 0 {
      var init := others[..|others| - 1];
      var last := others[|others| - 1];
      var names := OtherNames(others);
      var tail := if OtherNameOf(last).Some? then [OtherNameOf(last).value] else [];
      assert names == OtherNames(init) + tail;
      OtherNamesFromNamedElements(init);
      forall k | 0 <= k < |names|
        ensures exists j :: 0 <= j < |others| && OtherNameOf(others[j]) == Some(names[k])
      {
        if k < |OtherNames(init)| {
          var j :| 0 <= j < |init| && OtherNameOf(init[j]) == Some(OtherNames(init)[k]);
          assert others[j] == init[j];
          assert names[k] == OtherNames(init)[k];
        } else {
          assert OtherNameOf(others[|others| - 1]) == Some(names[k]);
        }
      }
    } else {
      assert OtherNames(others) == [];
    }
  }

  /**
   * The other-name list of a concatenation is the concatenation of the
   * lists, and a single `OtherEntity` contributes exactly its entry when it
   * is named: every named element contributes, in document order.
   */
  lemma {:induction false} OtherNamesAppend(a: seq<Element>, b: seq<Element>)
    ensures OtherNames(a + b) == OtherNames(a) + OtherNames(b)
    ensures |b| == 1 ==> OtherNames(b) == (if OtherNameOf(b[0]).Some? then [OtherNameOf(b[0]).value] else [])
    decreases |b|
  {
    if |b| == 0 {
      assert a + b == a;
    } else {
      var init, last := b[..|b| - 1], b[|b| - 1];
      var tail := if OtherNameOf(last).Some? then [OtherNameOf(last).value] else [];
      assert (a + b)[..|a + b| - 1] == a + init;
      assert (a + b)[|a + b| - 1] == last;
      assert OtherNames(a + b) == OtherNames(a + init) + tail;
      assert OtherNames(b) == OtherNames(init) + tail;
      OtherNamesAppend(a, init);
      assert OtherNames(a) + (OtherNames(init) + tail) == (OtherNames(a) + OtherNames(init)) + tail;
      if |b| == 1 {
        assert OtherNames(init) == [];
      }
    }
  }

  /** The other-name list is empty exactly when no `OtherEntity` has a name. */
  lemma {:induction false} OtherNamesEmptyIffUnnamed(others: seq<Element>)
    ensures OtherNames(others) == [] <==> forall j :: 0 <= j < |others| ==> OtherNameOf(others[j]).None?
  {
    if |others| > 0 {
      var init := others[..|others| - 1];
      var last := others[|others| - 1];
      assert OtherNames(others) == OtherNames(init) + (if OtherNameOf(last).Some? then [OtherNameOf(last).value] else []);
      OtherNamesEmptyIffUnnamed(init);
      if OtherNames(others) == [] {
        forall j | 0 <= j < |others| ensures OtherNameOf(others[j]).None? {
          if j < |init| { assert others[j] == init[j]; }
        }
      } else if OtherNames(init) != [] {
        var j :| 0 <= j < |init| && OtherNameOf(init[j]).Some?;
        assert others[j] == init[j];
      } else {
        assert OtherNameOf(others[|others| - 1]).Some?;
      }
    }
  }

  /** `other_entity_names` is None exactly when no `OtherEntity` has a name. */
  lemma OtherNamesNoneIffUnnamed(record: Element)
    requires ParseRecord(record).Some?
    ensures var others := FindAll(record, "OtherEntity");
            ParseRecord(record).value.otherEntityNames.None? <==>
              forall j :: 0 <= j < |others| ==> OtherNameOf(others[j]).None?
  {
    OtherNamesEmptyIffUnnamed(FindAll(record, "OtherEntity"));
  }

  /**
   * A third or later `GivenName` does not change the legal-entity data:
   * inserting one at any position that already has two `GivenName`s before
   * it, ahead of `FamilyName` or after it, gives the same `legal_entity`.
   */
  lemma ThirdGivenNameIgnored(individual: Element, p: nat, extra: Element)
    requires p <= |individual.children|
    requires |WithTag(individual.children[..p], "GivenName")| >= 2
    requires extra.tag == "GivenName"
    ensures IndividualOf(InsertChild(individual, p, extra)) == IndividualOf(individual)
  {
    var grown := InsertChild(individual, p, extra);
    FindAllInsert(individual, p, extra, "GivenName");
    FindInsertOtherTag(individual, p, extra, "NameTitle");
    FindInsertOtherTag(individual, p, extra, "FamilyName");
    var before := WithTag(individual.children[..p], "GivenName");
    assert FindAll(grown, "GivenName")[0] == before[0] == FindAll(individual, "GivenName")[0];
    assert FindAll(grown, "GivenName")[1] == before[1] == FindAll(individual, "GivenName")[1];
  }

  /** The address comes from MainEntity whenever MainEntity has a `BusinessAddress`: what LegalEntity holds then makes no difference. */
  lemma MainEntityAddressPreferred(record: Element, other: Element)
    requires Find(record, "MainEntity") == Find(other, "MainEntity")
    requires Find(record, "MainEntity").Some? && Find(Find(record, "MainEntity").value, "BusinessAddress").Some?
    ensures BusinessAddressOf(record) == BusinessAddressOf(other)
  {
  }
}
