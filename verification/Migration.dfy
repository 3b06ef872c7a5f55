/** Cleansing, deduplication, validation and the rollback plan of lib/client-config-migration.ts. */
module Migration {
  import opened Wrappers
  import opened Text
  import opened FirstUse
  import Ids = PrimaryAccountId

  /** A legacy object as it arrives: None where a property is missing or has another type. */
  datatype RawRecord = RawRecord(
    clientCode: Option<string>,
    portfolioCode: Option<string>,
    assetClassName: Option<string>,
    subAssetClassName: Option<string>,
    managerCode: Option<string>,
    managerName: Option<string>,
    benchmarkCode: Option<string>,
    benchmarkName: Option<string>,
    classification: Option<string>,
    longName: Option<string>,
    shortName: Option<string>,
    effectiveFrom: Option<string>,
    effectiveUntil: Option<string>,
    active: Option<bool>)

  datatype LegacyRecord = LegacyRecord(
    clientCode: Option<string>,
    portfolioCode: string,
    assetClassName: string,
    subAssetClassName: string,
    managerCode: string,
    managerName: string,
    benchmarkCode: string,
    benchmarkName: string,
    classification: string,
    longName: string,
    shortName: string,
    effectiveFrom: string,
    effectiveUntil: Option<string>,
    active: Option<bool>)

  /** A portfolio configuration; dates are milliseconds. */
  datatype Configuration = Configuration(
    primaryAccountId: string,
    clientCode: string,
    portfolioCode: string,
    assetClassCode: string,
    subAssetClassCode: string,
    managerCode: string,
    benchmarkCode: string,
    npcClassificationId: int,
    longName: string,
    shortName: string,
    activeInd: bool,
    effectiveFrom: int,
    effectiveUntil: Option<int>)

  datatype AssetOption = AssetOption(assetClass: string, subAssetClass: string, assetClassCode: string, subAssetClassCode: string)

  datatype Classification = Classification(npcClassificationId: int, classificationName: string)

  /** What the pipeline reads besides its records: the asset tables, the date parser, the clock and the payload schema. */
  datatype Setting = Setting(
    options: seq<AssetOption>,
    assetClassKeys: seq<string>,
    parseDate: string -> Option<int>,
    now: int,
    today: string,
    accepts: Configuration -> bool)

  const DEFAULT_CLASSIFICATIONS := [Classification(1, "Match"), Classification(2, "Return"), Classification(3, "Opbouw")]
  const DEFAULT_BENCHMARK_CODE := "LEGACY_MIGRATION_BENCH"

  // ---------------------------------------------------------------- cleansing

  function Trimmed(o: Option<string>): string {
    if o.Some? then Trim(o.value) else ""
  }

  function Or(s: string, default: string): string {
    if s == "" then default else s
  }

  /** slice(0, 3) */
  function FirstThree(s: string): string {
    if |s| <= 3 then s else s[..3]
  }

  /** The cleansed record, or none when one of the four key texts is blank. */
  function Cleanse(raw: RawRecord, today: string): Option<LegacyRecord> {
    var portfolio := Trimmed(raw.portfolioCode);
    var manager := Upper(Trimmed(raw.managerCode));
    var assetClass := Trimmed(raw.assetClassName);
    var subAssetClass := Trimmed(raw.subAssetClassName);
    if portfolio == "" || assetClass == "" || subAssetClass == "" || manager == "" then None
    else
      var title := portfolio + " " + assetClass + " " + manager;
      Some(LegacyRecord(
             Some(if raw.clientCode.Some? then Upper(Trim(raw.clientCode.value)) else Upper(FirstThree(portfolio))),
             portfolio, assetClass, subAssetClass, manager,
             Or(Trimmed(raw.managerName), manager + " migrated manager"),
             Or(Trimmed(raw.benchmarkCode), DEFAULT_BENCHMARK_CODE),
             Or(Trimmed(raw.benchmarkName), DEFAULT_BENCHMARK_CODE + " name"),
             Or(Trimmed(raw.classification), "Return"),
             Or(Trimmed(raw.longName), title),
             Or(Trimmed(raw.shortName), title),
             if raw.effectiveFrom.Some? then Trim(raw.effectiveFrom.value) else today,
             if raw.effectiveUntil.Some? then Some(Trim(raw.effectiveUntil.value)) else None,
             Some(if raw.active.Some? then raw.active.value else true)))
  }

  /** The cleansed records in order; None is an input element that is not an object. */
  function Cleansed(records: seq<Option<RawRecord>>, today: string): seq<LegacyRecord> {
    if records == [] then []
    else
      var last := records[|records| - 1];
      var clean := if last.Some? then Cleanse(last.value, today) else None;
      Cleansed(records[..|records| - 1], today) + if clean.Some? then [clean.value] else []
  }

  /** cleanseRecords */
  method CleanseRecords(records: seq<Option<RawRecord>>, today: string) returns (normalized: seq<LegacyRecord>)
    ensures normalized == Cleansed(records, today)
  {
    normalized := [];
    for i := 0 to |records|
      invariant normalized == Cleansed(records[..i], today)
    {
      assert records[..i + 1][..i] == records[..i];
      if records[i].None? {
        continue;
      }
      var raw := records[i].value;
      var portfolioCode := Trimmed(raw.portfolioCode);
      var clientCode := if raw.clientCode.Some? then Upper(Trim(raw.clientCode.value)) else Upper(FirstThree(portfolioCode));
      var assetClassName := Trimmed(raw.assetClassName);
      var subAssetClassName := Trimmed(raw.subAssetClassName);
      var managerCode := if raw.managerCode.Some? then Upper(Trim(raw.managerCode.value)) else "";
      var effectiveFrom := if raw.effectiveFrom.Some? then Trim(raw.effectiveFrom.value) else today;
      var effectiveUntil := if raw.effectiveUntil.Some? then Some(Trim(raw.effectiveUntil.value)) else None;
      var active := if raw.active.Some? then raw.active.value else true;
      if portfolioCode == "" || assetClassName == "" || subAssetClassName == "" || managerCode == "" {
        continue;
      }
      var title := portfolioCode + " " + assetClassName + " " + managerCode;
      normalized := normalized + [LegacyRecord(
        Some(clientCode), portfolioCode, assetClassName, subAssetClassName, managerCode,
        Or(Trimmed(raw.managerName), managerCode + " migrated manager"),
        Or(Trimmed(raw.benchmarkCode), DEFAULT_BENCHMARK_CODE),
        Or(Trimmed(raw.benchmarkName), DEFAULT_BENCHMARK_CODE + " name"),
        Or(Trimmed(raw.classification), "Return"),
        Or(Trimmed(raw.longName), title),
        Or(Trimmed(raw.shortName), title),
        effectiveFrom, effectiveUntil, Some(active))];
    }
    assert records[..|records|] == records;
  }

  /** A cleansed record handed in again. */
  function AsRaw(r: LegacyRecord): RawRecord {
    RawRecord(
      r.clientCode, Some(r.portfolioCode), Some(r.assetClassName), Some(r.subAssetClassName), Some(r.managerCode),
      Some(r.managerName), Some(r.benchmarkCode), Some(r.benchmarkName), Some(r.classification), Some(r.longName),
      Some(r.shortName), Some(r.effectiveFrom), r.effectiveUntil, r.active)
  }

  /** What cleansing promises of a record: texts without blanks at the ends, none empty, the manager in upper case. */
  predicate Clean(c: LegacyRecord) {
    && c.clientCode.Some? && c.active.Some?
    && c.portfolioCode != "" && c.assetClassName != "" && c.subAssetClassName != "" && c.managerCode != ""
    && c.managerName != "" && c.benchmarkCode != "" && c.benchmarkName != "" && c.classification != ""
    && c.longName != "" && c.shortName != ""
    && Bare(c.portfolioCode) && Bare(c.assetClassName) && Bare(c.subAssetClassName) && Bare(c.managerCode)
    && Bare(c.managerName) && Bare(c.benchmarkCode) && Bare(c.benchmarkName) && Bare(c.classification)
    && Bare(c.longName) && Bare(c.shortName) && Bare(c.effectiveFrom)
    && (c.effectiveUntil.Some? ==> Bare(c.effectiveUntil.value))
    && Upper(c.managerCode) == c.managerCode && Upper(c.clientCode.value) == c.clientCode.value
  }

  lemma CleansedIsClean(raw: RawRecord, today: string)
    requires Bare(today)
    ensures Cleanse(raw, today).Some? ==> Clean(Cleanse(raw, today).value)
  {
    hide Trim, Upper;
    TrimmedIsBare(raw.portfolioCode);
    TrimmedIsBare(raw.assetClassName);
    TrimmedIsBare(raw.subAssetClassName);
    TrimmedIsBare(raw.managerCode);
    TrimmedIsBare(raw.managerName);
    TrimmedIsBare(raw.benchmarkCode);
    TrimmedIsBare(raw.benchmarkName);
    TrimmedIsBare(raw.classification);
    TrimmedIsBare(raw.longName);
    TrimmedIsBare(raw.shortName);
    TrimmedIsBare(raw.effectiveFrom);
    TrimmedIsBare(raw.effectiveUntil);
    UpperIsBareIff(Trimmed(raw.managerCode));
    UpperIsIdempotent(Trimmed(raw.managerCode));
    UpperIsIdempotent(Trimmed(raw.clientCode));
    UpperIsIdempotent(FirstThree(Trimmed(raw.portfolioCode)));
  }

  /** A clean record is left alone but for its client code. */
  lemma CleanseOfClean(c: LegacyRecord, today: string)
    requires Clean(c)
    ensures Cleanse(AsRaw(c), today) == Some(c.(clientCode := Some(Upper(Trim(c.clientCode.value)))))
  {
    hide Trim, Upper, Bare;
    TrimOfBare(c.portfolioCode);
    TrimOfBare(c.assetClassName);
    TrimOfBare(c.subAssetClassName);
    TrimOfBare(c.managerCode);
    TrimOfBare(c.managerName);
    TrimOfBare(c.benchmarkCode);
    TrimOfBare(c.benchmarkName);
    TrimOfBare(c.classification);
    TrimOfBare(c.longName);
    TrimOfBare(c.shortName);
    TrimOfBare(c.effectiveFrom);
    if c.effectiveUntil.Some? {
      TrimOfBare(c.effectiveUntil.value);
    }
  }

  lemma TrimmedIsBare(o: Option<string>)
    ensures Bare(Trimmed(o))
  {
  }

  /** Cutting blanks off an upper-case code changes it exactly when it has some. */
  lemma TrimOfUpperIff(s: string)
    requires Upper(s) == s
    ensures Upper(Trim(s)) == s <==> Bare(s)
  {
  }

  /**
   * Cleansing is idempotent except in one case: a client code cut from the portfolio code is not trimmed, so a
   * portfolio code such as "AB 1" yields the code "AB ", which a second cleansing shortens.
   */
  lemma CleansingTwiceIff(raw: RawRecord, today: string)
    requires Bare(today)
    ensures Cleanse(raw, today).Some? ==>
              var c := Cleanse(raw, today).value;
              Cleanse(AsRaw(c), today) == Some(c) <==> raw.clientCode.Some? || Bare(FirstThree(Trimmed(raw.portfolioCode)))
  {
    if Cleanse(raw, today).None? {
      return;
    }
    var c := Cleanse(raw, today).value;
    var code := if raw.clientCode.Some? then Trim(raw.clientCode.value) else FirstThree(Trimmed(raw.portfolioCode));
    assert c.clientCode == Some(Upper(code));
    CleansedIsClean(raw, today);
    CleanseOfClean(c, today);
    TrimOfUpperIff(c.clientCode.value);
    UpperIsBareIff(code);
    if raw.clientCode.Some? {
      TrimIsBare(raw.clientCode.value);
    }
    hide *;
  }

  // ------------------------------------------------------------ deduplication

  /** lookupCodes: the first option with these two names. */
  function LookupCodes(options: seq<AssetOption>, assetClass: string, subAssetClass: string): Option<AssetOption> {
    if options == [] then None
    else if options[0].assetClass == assetClass && options[0].subAssetClass == subAssetClass then Some(options[0])
    else LookupCodes(options[1..], assetClass, subAssetClass)
  }

  function ClientCode(r: LegacyRecord): string {
    if r.clientCode.Some? then r.clientCode.value else FirstThree(r.portfolioCode)
  }

  /** The key records are deduplicated on. */
  function BusinessKey(options: seq<AssetOption>, r: LegacyRecord): string {
    var codes := LookupCodes(options, r.assetClassName, r.subAssetClassName);
    var assetClassCode := if codes.Some? then codes.value.assetClassCode else "??";
    var subAssetClassCode := if codes.Some? then codes.value.subAssetClassCode else "???";
    Upper(ClientCode(r) + "*" + assetClassCode + subAssetClassCode + "*" + r.managerCode)
  }

  ghost function KeyOf(options: seq<AssetOption>): LegacyRecord -> string {
    r => BusinessKey(options, r)
  }

  /** deduplicateRecords: the first record of every business key, in order. */
  method DeduplicateRecords(options: seq<AssetOption>, records: seq<LegacyRecord>) returns (unique: seq<LegacyRecord>)
    ensures unique == FirstPer(records, KeyOf(options))
  {
    var seen: set<string> := {};
    unique := [];
    for i := 0 to |records|
      invariant seen == Keys(records[..i], KeyOf(options))
      invariant unique == FirstPer(records[..i], KeyOf(options))
    {
      var key := BusinessKey(options, records[i]);
      assert records[..i + 1][..i] == records[..i];
      KeysStep(records[..i + 1], KeyOf(options));
      if key !in seen {
        seen := seen + {key};
        unique := unique + [records[i]];
      }
    }
    assert records[..|records|] == records;
  }

  // --------------------------------------------------------------- validation

  /** The last classification whose trimmed name is the key, ignoring case. */
  function LastNamed(all: seq<Classification>, key: string): Option<Classification> {
    if all == [] then None
    else if Lower(Trim(all[|all| - 1].classificationName)) == key then Some(all[|all| - 1])
    else LastNamed(all[..|all| - 1], key)
  }

  function ClassificationId(all: seq<Classification>, name: string): int {
    var c := LastNamed(all, Lower(name));
    if c.Some? then c.value.npcClassificationId else 0
  }

  /** safeDate: the parsed date, or now when the text is blank or no date. */
  function SafeDate(setting: Setting, text: string): int {
    if Trim(text) != "" && setting.parseDate(text).Some? then setting.parseDate(text).value else setting.now
  }

  function Payload(setting: Setting, all: seq<Classification>, r: LegacyRecord, codes: AssetOption): Configuration {
    Configuration(
      Ids.Generate(Ids.Codes(ClientCode(r), codes.assetClassCode, codes.subAssetClassCode, r.managerCode)),
      ClientCode(r), r.portfolioCode, codes.assetClassCode, codes.subAssetClassCode, r.managerCode, r.benchmarkCode,
      ClassificationId(all, r.classification), r.longName, r.shortName,
      r.active == Some(true),
      SafeDate(setting, r.effectiveFrom),
      if r.effectiveUntil.Some? && r.effectiveUntil.value != "" then Some(SafeDate(setting, r.effectiveUntil.value)) else None)
  }

  /** The configuration a record becomes, or none when it is dropped. */
  function Checked(setting: Setting, all: seq<Classification>, r: LegacyRecord): Option<Configuration> {
    var codes := LookupCodes(setting.options, r.assetClassName, r.subAssetClassName);
    if codes.None? || r.assetClassName !in setting.assetClassKeys then None
    else
      var payload := Payload(setting, all, r, codes.value);
      if setting.accepts(payload) then Some(payload) else None
  }

  function Survivors(setting: Setting, all: seq<Classification>, records: seq<LegacyRecord>): seq<Configuration> {
    if records == [] then []
    else
      var last := Checked(setting, all, records[|records| - 1]);
      Survivors(setting, all, records[..|records| - 1]) + if last.Some? then [last.value] else []
  }

  /** validateAndEnrich: no record is lost, it becomes a configuration or is counted as dropped. */
  method ValidateAndEnrich(setting: Setting, records: seq<LegacyRecord>, existing: seq<Classification>)
      returns (configurations: seq<Configuration>, dropped: nat)
    ensures configurations == Survivors(setting, existing + DEFAULT_CLASSIFICATIONS, records)
    ensures |configurations| + dropped == |records|
  {
    hide Lower, LastNamed, LookupCodes, SafeDate, FirstThree, Ids.Generate;
    var all := existing + DEFAULT_CLASSIFICATIONS;
    var byClassification := IndexClassifications(all);
    configurations, dropped := [], 0;
    for i := 0 to |records|
      invariant configurations == Survivors(setting, all, records[..i])
      invariant |configurations| + dropped == i
    {
      var r := records[i];
      assert records[..i + 1][..i] == records[..i];
      var codes := LookupCodes(setting.options, r.assetClassName, r.subAssetClassName);
      if codes.None? {
        dropped := dropped + 1;
        continue;
      }
      if r.assetClassName !in setting.assetClassKeys {
        dropped := dropped + 1;
        continue;
      }
      var key := Lower(r.classification);
      var npc := if key in byClassification then byClassification[key] else Classification(0, r.classification);
      var client := if r.clientCode.Some? then r.clientCode.value else FirstThree(r.portfolioCode);
      var id := Ids.Generate(Ids.Codes(client, codes.value.assetClassCode, codes.value.subAssetClassCode, r.managerCode));
      var effectiveFrom := SafeDate(setting, r.effectiveFrom);
      var effectiveUntil := match r.effectiveUntil
        case None => None
        case Some(text) => if text == "" then None else Some(SafeDate(setting, text));
      var payload := Configuration(
        id, client, r.portfolioCode, codes.value.assetClassCode, codes.value.subAssetClassCode, r.managerCode,
        r.benchmarkCode, npc.npcClassificationId, r.longName, r.shortName, r.active == Some(true), effectiveFrom, effectiveUntil);
      if !setting.accepts(payload) {
        dropped := dropped + 1;
        continue;
      }
      configurations := configurations + [payload];
    }
    assert records[..|records|] == records;
  }

  /** The map the classifications are looked up in: a later name overwrites an earlier one. */
  method IndexClassifications(all: seq<Classification>) returns (index: map<string, Classification>)
    ensures forall key :: key in index <==> LastNamed(all, key).Some?
    ensures forall key <- index :: Some(index[key]) == LastNamed(all, key)
  {
    index := map[];
    for i := 0 to |all|
      invariant forall key :: key in index <==> LastNamed(all[..i], key).Some?
      invariant forall key <- index :: Some(index[key]) == LastNamed(all[..i], key)
    {
      assert all[..i + 1][..i] == all[..i];
      index := index[Lower(Trim(all[i].classificationName)) := all[i]];
    }
    assert all[..|all|] == all;
  }

  // ----------------------------------------------------------- the whole run

  /** The configurations of a migration. */
  ghost function Migrated(setting: Setting, existing: seq<Classification>, records: seq<Option<RawRecord>>): seq<Configuration> {
    Survivors(setting, existing + DEFAULT_CLASSIFICATIONS, FirstPer(Cleansed(records, setting.today), KeyOf(setting.options)))
  }

  function IdOf(): Configuration -> string {
    (c: Configuration) => c.primaryAccountId
  }

  /** A record that is not dropped gets the key it was deduplicated on as its primary account id. */
  lemma CheckedIdIsTheKey(setting: Setting, all: seq<Classification>, r: LegacyRecord)
    requires Checked(setting, all, r).Some?
    ensures Checked(setting, all, r).value.primaryAccountId == BusinessKey(setting.options, r)
  {
  }

  /** The keys of the records that pass validation. */
  ghost function PassingKeys(setting: Setting, all: seq<Classification>, records: seq<LegacyRecord>): set<string> {
    set r <- records | Checked(setting, all, r).Some? :: BusinessKey(setting.options, r)
  }

  /** The ids of the survivors are the keys of the records that pass; */
  lemma {:induction false} SurvivorIds(setting: Setting, all: seq<Classification>, records: seq<LegacyRecord>)
    ensures Keys(Survivors(setting, all, records), IdOf()) == PassingKeys(setting, all, records)
  {
    if records != [] {
      hide *;
      SurvivorIds(setting, all, records[..|records| - 1]);
      SurvivorIdsStep(setting, all, records);
      PassingKeysStep(setting, all, records);
    }
  }

  lemma PassingKeysStep(setting: Setting, all: seq<Classification>, records: seq<LegacyRecord>)
    requires records != []
    ensures var n := |records| - 1; var last := records[n];
            PassingKeys(setting, all, records)
            == PassingKeys(setting, all, records[..n])
               + if Checked(setting, all, last).Some? then {BusinessKey(setting.options, last)} else {}
  {
  }

  lemma SurvivorIdsStep(setting: Setting, all: seq<Classification>, records: seq<LegacyRecord>)
    requires records != []
    ensures var n := |records| - 1; var last := records[n];
            Keys(Survivors(setting, all, records), IdOf())
            == Keys(Survivors(setting, all, records[..n]), IdOf())
               + if Checked(setting, all, last).Some? then {BusinessKey(setting.options, last)} else {}
  {
    var n := |records| - 1;
    var kept := Survivors(setting, all, records[..n]);
    if Checked(setting, all, records[n]).Some? {
      var c := Checked(setting, all, records[n]).value;
      CheckedIdIsTheKey(setting, all, records[n]);
      hide Checked, BusinessKey;
      assert (kept + [c])[..|kept|] == kept;
      KeysStep(kept + [c], IdOf());
    }
  }

  /** so records with distinct keys give configurations with distinct ids. */
  lemma {:induction false} SurvivorIdsAreDistinct(setting: Setting, all: seq<Classification>, records: seq<LegacyRecord>)
    requires DistinctKeys(records, KeyOf(setting.options))
    ensures DistinctKeys(Survivors(setting, all, records), IdOf())
  {
    if records != [] {
      var n := |records| - 1;
      SurvivorIdsAreDistinct(setting, all, records[..n]);
      var kept, last := Survivors(setting, all, records[..n]), Checked(setting, all, records[n]);
      SurvivorIds(setting, all, records[..n]);
      if last.Some? {
        CheckedIdIsTheKey(setting, all, records[n]);
        forall i | 0 <= i < |kept| ensures kept[i].primaryAccountId != last.value.primaryAccountId {
          assert IdOf()(kept[i]) in Keys(kept, IdOf());
          var r :| r in records[..n] && BusinessKey(setting.options, r) == kept[i].primaryAccountId;
          var j :| 0 <= j < n && records[j] == r;
          assert KeyOf(setting.options)(records[j]) != KeyOf(setting.options)(records[n]);
        }
      }
    }
  }
}
