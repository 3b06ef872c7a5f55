/** What the migration stores, column by column: from a legacy object to its configuration and its reference rows. */
module MigrationValues {
  import opened Wrappers
  import opened Text
  import opened FirstUse
  import opened Migration
  import opened MigrationRun
  import Ids = PrimaryAccountId

  // ---- Cleansing ----

  predicate IsGiven(text: Option<string>) {
    text.Some? && Trim(text.value) != ""
  }

  /** A given text is kept, trimmed; a missing or blank one becomes the default. */
  predicate KeptOr(given: Option<string>, text: string, default: string) {
    text == match given case Some(s) => if Trim(s) != "" then Trim(s) else default case None => default
  }

  /** An object is kept if and only if portfolio, asset class, sub asset class and manager are given; each column is as said. */
  ghost predicate Cleanses(raw: RawRecord, today: string, c: Option<LegacyRecord>) {
    && (c.Some? <==>
          && IsGiven(raw.portfolioCode) && IsGiven(raw.assetClassName) && IsGiven(raw.subAssetClassName)
          && IsGiven(raw.managerCode))
    && (c.Some? ==>
          var r := c.value;
          && raw.portfolioCode.Some? && r.portfolioCode == Trim(raw.portfolioCode.value)
          && raw.assetClassName.Some? && r.assetClassName == Trim(raw.assetClassName.value)
          && raw.subAssetClassName.Some? && r.subAssetClassName == Trim(raw.subAssetClassName.value)
          && raw.managerCode.Some? && r.managerCode == Upper(Trim(raw.managerCode.value))
          && r.clientCode.Some?
          && r.clientCode.value == (match raw.clientCode
                                    case Some(s) => Upper(Trim(s))
                                    case None => Upper(if |r.portfolioCode| <= 3 then r.portfolioCode else r.portfolioCode[..3]))
          && KeptOr(raw.managerName, r.managerName, r.managerCode + " migrated manager")
          && KeptOr(raw.benchmarkCode, r.benchmarkCode, "LEGACY_MIGRATION_BENCH")
          && KeptOr(raw.benchmarkName, r.benchmarkName, "LEGACY_MIGRATION_BENCH name")
          && KeptOr(raw.classification, r.classification, "Return")
          && KeptOr(raw.longName, r.longName, r.portfolioCode + " " + r.assetClassName + " " + r.managerCode)
          && KeptOr(raw.shortName, r.shortName, r.portfolioCode + " " + r.assetClassName + " " + r.managerCode)
          && r.effectiveFrom == (match raw.effectiveFrom case Some(s) => Trim(s) case None => today)
          && r.effectiveUntil == (match raw.effectiveUntil case Some(s) => Some(Trim(s)) case None => None)
          && r.active == Some(raw.active != Some(false)))
  }

  lemma CleanseCleanses(raw: RawRecord, today: string)
    ensures Cleanses(raw, today, Cleanse(raw, today))
  {
    hide Trim, Upper;
    assert "LEGACY_MIGRATION_BENCH" + " name" == "LEGACY_MIGRATION_BENCH name";
    if raw.managerCode.Some? { assert |Upper(Trim(raw.managerCode.value))| == |Trim(raw.managerCode.value)|; }
    assert |Upper("")| == 0;
  }

  // ---- Looking up codes and classifications ----

  /** The first option with the two names, or none when there is no such option. */
  lemma {:induction false} FirstOptionIsFound(options: seq<AssetOption>, assetClass: string, subAssetClass: string)
    ensures var found := LookupCodes(options, assetClass, subAssetClass);
            match found
            case None => forall o <- options :: !(o.assetClass == assetClass && o.subAssetClass == subAssetClass)
            case Some(option) =>
              exists k ::
                && 0 <= k < |options| && options[k] == option
                && option.assetClass == assetClass && option.subAssetClass == subAssetClass
                && forall j | 0 <= j < k :: !(options[j].assetClass == assetClass && options[j].subAssetClass == subAssetClass)
  {
    if options != [] && !(options[0].assetClass == assetClass && options[0].subAssetClass == subAssetClass) {
      var rest := options[1..];
      FirstOptionIsFound(rest, assetClass, subAssetClass);
      assert options == [options[0]] + rest;
      if LookupCodes(rest, assetClass, subAssetClass).Some? {
        var k :| && 0 <= k < |rest| && rest[k] == LookupCodes(rest, assetClass, subAssetClass).value
                 && forall j | 0 <= j < k :: !(rest[j].assetClass == assetClass && rest[j].subAssetClass == subAssetClass);
        assert options[k + 1] == rest[k];
        forall j | 0 <= j < k + 1 ensures !(options[j].assetClass == assetClass && options[j].subAssetClass == subAssetClass) {
          if j > 0 { assert options[j] == rest[j - 1]; }
        }
      }
    }
  }

  /** The id of the last classification of the name, trimmed and ignoring case, or 0 without one. */
  ghost predicate ClassifiedAs(all: seq<Classification>, name: string, id: int) {
    || (id == 0 && forall c <- all :: Lower(Trim(c.classificationName)) != Lower(name))
    || (exists k ::
          && 0 <= k < |all| && all[k].npcClassificationId == id && Lower(Trim(all[k].classificationName)) == Lower(name)
          && forall j | k < j < |all| :: Lower(Trim(all[j].classificationName)) != Lower(name))
  }

  lemma {:induction false} LastNamedIsClassified(all: seq<Classification>, name: string)
    ensures ClassifiedAs(all, name, ClassificationId(all, name))
  {
    hide Lower, Trim;
    if all != [] {
      var n := |all| - 1;
      if Lower(Trim(all[n].classificationName)) != Lower(name) {
        LastNamedIsClassified(all[..n], name);
        assert all == all[..n] + [all[n]];
        assert ClassificationId(all, name) == ClassificationId(all[..n], name);
      }
    }
  }

  // ---- The configuration a record becomes ----

  /** The date as parsed, or now when the text is blank or no date. */
  ghost predicate DatedBy(setting: Setting, text: string, date: int) {
    if Trim(text) != "" && setting.parseDate(text).Some? then setting.parseDate(text) == Some(date) else date == setting.now
  }

  /** Every column of the configuration, from the record, the option that gives its codes, and the classifications. */
  ghost predicate Becomes(setting: Setting, all: seq<Classification>, r: LegacyRecord, option: AssetOption, c: Configuration) {
    && (match r.clientCode
        case Some(code) => c.clientCode == code
        case None => c.clientCode == if |r.portfolioCode| <= 3 then r.portfolioCode else r.portfolioCode[..3])
    && c.assetClassCode == option.assetClassCode && c.subAssetClassCode == option.subAssetClassCode
    && c.portfolioCode == r.portfolioCode && c.managerCode == r.managerCode && c.benchmarkCode == r.benchmarkCode
    && ClassifiedAs(all, r.classification, c.npcClassificationId)
    && c.longName == r.longName && c.shortName == r.shortName && (c.activeInd <==> r.active == Some(true))
    && DatedBy(setting, r.effectiveFrom, c.effectiveFrom)
    && (if r.effectiveUntil.Some? && r.effectiveUntil.value != ""
        then c.effectiveUntil.Some? && DatedBy(setting, r.effectiveUntil.value, c.effectiveUntil.value)
        else c.effectiveUntil.None?)
    && Upper(c.primaryAccountId) == c.primaryAccountId
    && Ids.Validate(c.primaryAccountId, Ids.Codes(c.clientCode, c.assetClassCode, c.subAssetClassCode, c.managerCode))
  }

  lemma PayloadBecomes(setting: Setting, all: seq<Classification>, r: LegacyRecord, option: AssetOption)
    ensures Becomes(setting, all, r, option, Payload(setting, all, r, option))
  {
    var codes := Ids.Codes(ClientCode(r), option.assetClassCode, option.subAssetClassCode, r.managerCode);
    LastNamedIsClassified(all, r.classification);
    UpperIsIdempotent(Ids.Joined(codes));
    hide ClassifiedAs, ClassificationId, Upper, Trim, Ids.Joined;
  }

  /**
   A record survives if and only if some option has its two names, its asset class is a known
   key and the schema accepts what it becomes; the first such option gives the codes.
   */
  lemma RecordBecomes(setting: Setting, all: seq<Classification>, r: LegacyRecord)
    ensures var found := LookupCodes(setting.options, r.assetClassName, r.subAssetClassName);
            match Checked(setting, all, r)
            case None =>
              || found.None? || r.assetClassName !in setting.assetClassKeys
              || exists c :: Becomes(setting, all, r, found.value, c) && !setting.accepts(c)
            case Some(c) =>
              && found.Some? && r.assetClassName in setting.assetClassKeys
              && Becomes(setting, all, r, found.value, c) && setting.accepts(c)
  {
    hide Becomes, Payload, LookupCodes;
    var found := LookupCodes(setting.options, r.assetClassName, r.subAssetClassName);
    if found.Some? { PayloadBecomes(setting, all, r, found.value); }
  }

  // ---- The lists as a whole ----

  /** Cleansing goes object by object: what a list gives is what its parts give, one after the other. */
  lemma {:induction false} CleansingGoesInOrder(raws: seq<Option<RawRecord>>, more: seq<Option<RawRecord>>, today: string)
    ensures Cleansed(raws + more, today) == Cleansed(raws, today) + Cleansed(more, today)
    ensures |raws| == 1 ==>
              Cleansed(raws, today)
              == match raws[0]
                 case None => []
                 case Some(raw) => match Cleanse(raw, today) case Some(r) => [r] case None => []
    decreases |more|
  {
    hide Cleanse;
    if |raws| == 1 { assert raws[..0] == []; }
    if more == [] {
      assert raws + more == raws;
    } else {
      var n := |more| - 1;
      assert (raws + more)[..|raws + more| - 1] == raws + more[..n];
      CleansingGoesInOrder(raws, more[..n], today);
    }
  }

  /** So does validating. */
  lemma {:induction false} ValidatingGoesInOrder(setting: Setting, all: seq<Classification>,
                                                 records: seq<LegacyRecord>, more: seq<LegacyRecord>)
    ensures Survivors(setting, all, records + more) == Survivors(setting, all, records) + Survivors(setting, all, more)
    ensures |records| == 1 ==>
              Survivors(setting, all, records)
              == match Checked(setting, all, records[0]) case Some(c) => [c] case None => []
    decreases |more|
  {
    hide Checked;
    if |records| == 1 { assert records[..0] == []; }
    if more == [] {
      assert records + more == records;
    } else {
      var n := |more| - 1;
      assert (records + more)[..|records + more| - 1] == records + more[..n];
      ValidatingGoesInOrder(setting, all, records, more[..n]);
    }
  }

  /** Managers and benchmarks are named after their codes, portfolios have no parent, and asset classes are those of the index. */
  lemma ReferenceRowsCarry(r: References, meta: map<string, AssetMeta>, cs: seq<Configuration>)
    requires Collected(r, meta, cs)
    ensures forall p <- r.portfolios :: p.parentAccountId == None
    ensures forall m <- r.managers :: m.managerName == m.managerCode
    ensures forall b <- r.benchmarks :: b.benchmarkName == b.benchmarkCode
    ensures forall n <- r.npcClassifications :: n.classificationName == ""
    ensures forall a <- r.assetClasses ::
              && a.assetClassCode in meta && a.assetClassId == meta[a.assetClassCode].assetClassId
              && a.assetClassName == meta[a.assetClassCode].assetClassName
  {
    KnownKeys(meta, cs);
    FirstPerKeepsEachKeyOnce(Known(meta, cs), AssetClassOf());
    forall c | c in FirstPer(Known(meta, cs), AssetClassOf()) ensures c.assetClassCode in meta {
      assert AssetClassOf()(c) in Keys(FirstPer(Known(meta, cs), AssetClassOf()), AssetClassOf());
      var d :| d in Known(meta, cs) && AssetClassOf()(d) == AssetClassOf()(c);
    }
    hide FirstPer, Known;
  }
}
