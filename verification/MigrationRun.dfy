/** References, payload and rollback plan of lib/client-config-migration.ts, and what a whole migration guarantees. */
module MigrationRun {
  import opened Wrappers
  import opened Text
  import opened FirstUse
  import opened Migration
  import Ids = PrimaryAccountId

  datatype PortfolioRow = PortfolioRow(portfolioCode: string, parentAccountId: Option<int>)
  datatype AssetClassRow = AssetClassRow(assetClassId: int, assetClassCode: string, assetClassName: string)
  datatype ManagerRow = ManagerRow(managerId: int, managerCode: string, managerName: string)
  datatype BenchmarkRow = BenchmarkRow(benchmarkId: int, benchmarkCode: string, benchmarkName: string)
  datatype NpcRow = NpcRow(npcClassificationId: int, classificationName: string)

  datatype References = References(
    portfolios: seq<PortfolioRow>,
    assetClasses: seq<AssetClassRow>,
    managers: seq<ManagerRow>,
    benchmarks: seq<BenchmarkRow>,
    npcClassifications: seq<NpcRow>)

  /** The id and name of an asset class code. */
  datatype AssetMeta = AssetMeta(assetClassId: int, assetClassName: string)

  // The five keys a configuration refers to, and the row each key gets when it is listed at position k.
  ghost function PortfolioOf(): Configuration -> string { (c: Configuration) => c.portfolioCode }
  ghost function AssetClassOf(): Configuration -> string { (c: Configuration) => c.assetClassCode }
  ghost function ManagerOf(): Configuration -> string { (c: Configuration) => c.managerCode }
  ghost function BenchmarkOf(): Configuration -> string { (c: Configuration) => c.benchmarkCode }
  ghost function NpcOf(): Configuration -> int { (c: Configuration) => c.npcClassificationId }

  ghost function PortfolioAt(): (int, Configuration) -> PortfolioRow {
    (k, c: Configuration) => PortfolioRow(c.portfolioCode, None)
  }
  ghost function ManagerAt(): (int, Configuration) -> ManagerRow {
    (k, c: Configuration) => ManagerRow(k + 1, c.managerCode, c.managerCode)
  }
  ghost function BenchmarkAt(): (int, Configuration) -> BenchmarkRow {
    (k, c: Configuration) => BenchmarkRow(k + 1, c.benchmarkCode, c.benchmarkCode)
  }
  ghost function NpcAt(): (int, Configuration) -> NpcRow { (k, c: Configuration) => NpcRow(c.npcClassificationId, "") }
  ghost function AssetClassAt(meta: map<string, AssetMeta>): (int, Configuration) -> AssetClassRow {
    (k, c: Configuration) =>
      if c.assetClassCode in meta
      then AssetClassRow(meta[c.assetClassCode].assetClassId, c.assetClassCode, meta[c.assetClassCode].assetClassName)
      else AssetClassRow(0, c.assetClassCode, "")
  }

  /** The configurations whose asset class is known. */
  function Known(meta: map<string, AssetMeta>, configurations: seq<Configuration>): seq<Configuration> {
    if configurations == [] then []
    else
      var n := |configurations| - 1;
      Known(meta, configurations[..n]) + if configurations[n].assetClassCode in meta then [configurations[n]] else []
  }

  ghost predicate Lists<R(!new)>(rows: seq<R>, firsts: seq<Configuration>, row: (int, Configuration) -> R) {
    && |rows| == |firsts|
    && forall k | 0 <= k < |rows| :: rows[k] == row(k, firsts[k])
  }

  /** One more configuration: its key is seen already, or a row for it is added. */
  lemma ListsStep<R(!new), K(!new)>(cs: seq<Configuration>, key: Configuration -> K, rows: seq<R>, row: (int, Configuration) -> R)
    requires cs != [] && Lists(rows, FirstPer(cs[..|cs| - 1], key), row)
    ensures var n := |cs| - 1; Keys(cs, key) == Keys(cs[..n], key) + {key(cs[n])}
    ensures var n := |cs| - 1;
            if key(cs[n]) in Keys(cs[..n], key) then Lists(rows, FirstPer(cs, key), row)
            else Lists(rows + [row(|rows|, cs[n])], FirstPer(cs, key), row)
  {
    KeysStep(cs, key);
    hide Keys, IsFirst;
  }

  /** The id and name of every asset class code, numbered by the order of the keys. */
  method IndexAssetClasses(keys: seq<string>, codes: string -> string) returns (meta: map<string, AssetMeta>)
    ensures forall code :: code in meta <==> exists k <- keys :: codes(k) == code
    ensures forall code <- meta :: 1 <= meta[code].assetClassId <= |keys|
              && meta[code].assetClassName == keys[meta[code].assetClassId - 1] && codes(meta[code].assetClassName) == code
    ensures forall code <- meta, i | meta[code].assetClassId <= i < |keys| :: codes(keys[i]) != code
  {
    meta := map[];
    for i := 0 to |keys|
      invariant forall code :: code in meta <==> exists j | 0 <= j < i :: codes(keys[j]) == code
      invariant forall code <- meta :: 1 <= meta[code].assetClassId <= i
                  && meta[code].assetClassName == keys[meta[code].assetClassId - 1] && codes(meta[code].assetClassName) == code
      invariant forall code <- meta, j | meta[code].assetClassId <= j < i :: codes(keys[j]) != code
    {
      meta := meta[codes(keys[i]) := AssetMeta(i + 1, keys[i])];
    }
  }

  /** Every key of the configurations in first-use order, with managers and benchmarks numbered from 1. */
  ghost predicate Collected(r: References, meta: map<string, AssetMeta>, cs: seq<Configuration>) {
    && Lists(r.portfolios, FirstPer(cs, PortfolioOf()), PortfolioAt())
    && Lists(r.assetClasses, FirstPer(Known(meta, cs), AssetClassOf()), AssetClassAt(meta))
    && Lists(r.managers, FirstPer(cs, ManagerOf()), ManagerAt())
    && Lists(r.benchmarks, FirstPer(cs, BenchmarkOf()), BenchmarkAt())
    && Lists(r.npcClassifications, FirstPer(cs, NpcOf()), NpcAt())
  }

  /** collectReferenceData; a JavaScript Map is its rows in insertion order and the set of its keys. */
  method CollectReferenceData(meta: map<string, AssetMeta>, configurations: seq<Configuration>) returns (r: References)
    ensures Collected(r, meta, configurations)
  {
    hide FirstPer, Lists, Keys, IsFirst;
    var managerId, benchmarkId := 1, 1;
    var portfolios: seq<PortfolioRow> := [];
    var assetClasses: seq<AssetClassRow> := [];
    var managers: seq<ManagerRow> := [];
    var benchmarks: seq<BenchmarkRow> := [];
    var npcs: seq<NpcRow> := [];
    var portfolioKeys: set<string>, assetClassKeys: set<string> := {}, {};
    var managerKeys: set<string>, benchmarkKeys: set<string>, npcKeys: set<int> := {}, {}, {};
    NothingCollected(meta);
    for i := 0 to |configurations|
      invariant Collected(References(portfolios, assetClasses, managers, benchmarks, npcs), meta, configurations[..i])
      invariant portfolioKeys == Keys(configurations[..i], PortfolioOf())
      invariant assetClassKeys == Keys(Known(meta, configurations[..i]), AssetClassOf())
      invariant managerKeys == Keys(configurations[..i], ManagerOf()) && managerId == |managers| + 1
      invariant benchmarkKeys == Keys(configurations[..i], BenchmarkOf()) && benchmarkId == |benchmarks| + 1
      invariant npcKeys == Keys(configurations[..i], NpcOf())
    {
      var item := configurations[i];
      ghost var cs := configurations[..i + 1];
      assert cs[..i] == configurations[..i];
      ListsStep(cs, PortfolioOf(), portfolios, PortfolioAt());
      ListsStep(cs, ManagerOf(), managers, ManagerAt());
      ListsStep(cs, BenchmarkOf(), benchmarks, BenchmarkAt());
      ListsStep(cs, NpcOf(), npcs, NpcAt());
      if item.portfolioCode !in portfolioKeys {
        portfolios := portfolios + [PortfolioRow(item.portfolioCode, None)];
        portfolioKeys := portfolioKeys + {item.portfolioCode};
      }
      if item.assetClassCode in meta {
        ghost var known := Known(meta, cs);
        assert known == Known(meta, configurations[..i]) + [item];
        assert known[..|known| - 1] == Known(meta, configurations[..i]);
        ListsStep(known, AssetClassOf(), assetClasses, AssetClassAt(meta));
        if item.assetClassCode !in assetClassKeys {
          assetClasses := assetClasses
            + [AssetClassRow(meta[item.assetClassCode].assetClassId, item.assetClassCode, meta[item.assetClassCode].assetClassName)];
          assetClassKeys := assetClassKeys + {item.assetClassCode};
        }
      } else {
        assert Known(meta, cs) == Known(meta, configurations[..i]);
      }
      if item.managerCode !in managerKeys {
        managers := managers + [ManagerRow(managerId, item.managerCode, item.managerCode)];
        managerKeys := managerKeys + {item.managerCode};
        managerId := managerId + 1;
      }
      if item.benchmarkCode !in benchmarkKeys {
        benchmarks := benchmarks + [BenchmarkRow(benchmarkId, item.benchmarkCode, item.benchmarkCode)];
        benchmarkKeys := benchmarkKeys + {item.benchmarkCode};
        benchmarkId := benchmarkId + 1;
      }
      if item.npcClassificationId !in npcKeys {
        npcs := npcs + [NpcRow(item.npcClassificationId, "")];
        npcKeys := npcKeys + {item.npcClassificationId};
      }
    }
    assert configurations[..|configurations|] == configurations;
    r := References(portfolios, assetClasses, managers, benchmarks, npcs);
  }

  lemma NothingCollected(meta: map<string, AssetMeta>)
    ensures Collected(References([], [], [], [], []), meta, [])
    ensures Keys([], PortfolioOf()) == Keys([], ManagerOf()) == Keys([], BenchmarkOf()) == Keys([], AssetClassOf()) == {}
    ensures Keys([], NpcOf()) == {}
  {
  }

  /** These rows name each used key exactly once, and nothing else. */
  ghost predicate EachOnce<R, K>(rows: seq<R>, keyOf: R -> K, used: set<K>) {
    Keys(rows, keyOf) == used && DistinctKeys(rows, keyOf)
  }

  lemma ListedOnce<R(!new), K(!new)>(rows: seq<R>, cs: seq<Configuration>, key: Configuration -> K,
                                     row: (int, Configuration) -> R, keyOf: R -> K)
    requires Lists(rows, FirstPer(cs, key), row)
    requires forall k | 0 <= k < |rows| :: keyOf(row(k, FirstPer(cs, key)[k])) == key(FirstPer(cs, key)[k])
    ensures EachOnce(rows, keyOf, Keys(cs, key))
  {
    FirstPerKeepsEachKeyOnce(cs, key);
    var firsts := FirstPer(cs, key);
    hide FirstPer;
    assert forall k | 0 <= k < |rows| :: keyOf(rows[k]) == key(firsts[k]);
    forall x | x in Keys(rows, keyOf) ensures x in Keys(firsts, key) {
      var r :| r in rows && keyOf(r) == x;
      var k :| 0 <= k < |rows| && rows[k] == r;
      assert firsts[k] in firsts;
    }
    forall x | x in Keys(firsts, key) ensures x in Keys(rows, keyOf) {
      var c :| c in firsts && key(c) == x;
      var k :| 0 <= k < |firsts| && firsts[k] == c;
      assert rows[k] in rows;
    }
  }

  lemma {:induction false} KnownKeys(meta: map<string, AssetMeta>, cs: seq<Configuration>)
    ensures Keys(Known(meta, cs), AssetClassOf()) == Keys(cs, AssetClassOf()) * meta.Keys
    ensures forall c <- Known(meta, cs) :: c.assetClassCode in meta
  {
    if cs != [] {
      var n := |cs| - 1;
      KnownKeys(meta, cs[..n]);
      KeysStep(cs, AssetClassOf());
      var before := Known(meta, cs[..n]);
      if cs[n].assetClassCode in meta {
        KeysStep(before + [cs[n]], AssetClassOf());
        assert (before + [cs[n]])[..|before|] == before;
      } else {
        assert Known(meta, cs) == before;
      }
    }
  }

  /** Every reference a configuration uses is listed exactly once and nothing unused is; managers and benchmarks are 1..n. */
  lemma ReferencesAreClosed(r: References, meta: map<string, AssetMeta>, cs: seq<Configuration>)
    requires Collected(r, meta, cs)
    ensures EachOnce(r.portfolios, (p: PortfolioRow) => p.portfolioCode, set c <- cs :: c.portfolioCode)
    ensures EachOnce(r.assetClasses, (a: AssetClassRow) => a.assetClassCode, (set c <- cs :: c.assetClassCode) * meta.Keys)
    ensures EachOnce(r.managers, (m: ManagerRow) => m.managerCode, set c <- cs :: c.managerCode)
    ensures EachOnce(r.benchmarks, (b: BenchmarkRow) => b.benchmarkCode, set c <- cs :: c.benchmarkCode)
    ensures EachOnce(r.npcClassifications, (n: NpcRow) => n.npcClassificationId, set c <- cs :: c.npcClassificationId)
    ensures forall k | 0 <= k < |r.managers| :: r.managers[k].managerId == k + 1
    ensures forall k | 0 <= k < |r.benchmarks| :: r.benchmarks[k].benchmarkId == k + 1
  {
    KnownKeys(meta, cs);
    hide FirstPer, DistinctKeys;
    ListedOnce(r.portfolios, cs, PortfolioOf(), PortfolioAt(), (p: PortfolioRow) => p.portfolioCode);
    ListedOnce(r.assetClasses, Known(meta, cs), AssetClassOf(), AssetClassAt(meta), (a: AssetClassRow) => a.assetClassCode);
    ListedOnce(r.managers, cs, ManagerOf(), ManagerAt(), (m: ManagerRow) => m.managerCode);
    ListedOnce(r.benchmarks, cs, BenchmarkOf(), BenchmarkAt(), (b: BenchmarkRow) => b.benchmarkCode);
    ListedOnce(r.npcClassifications, cs, NpcOf(), NpcAt(), (n: NpcRow) => n.npcClassificationId);
  }

  /** The prepared migration. */
  datatype Prepared = Prepared(configurations: seq<Configuration>, dropped: nat, references: References)

  /** buildRollbackContract */
  function Rollback(cs: seq<Configuration>): seq<string> {
    seq(|cs|, i requires 0 <= i < |cs| => cs[i].primaryAccountId)
  }

  /** buildNormalizedPayload: cleanse, deduplicate, validate, collect. */
  method BuildNormalizedPayload(setting: Setting, meta: map<string, AssetMeta>, records: seq<Option<RawRecord>>,
                                existing: seq<Classification>)
      returns (p: Prepared)
    ensures p.configurations == Migrated(setting, existing, records)
    ensures |p.configurations| + p.dropped == |FirstPer(Cleansed(records, setting.today), KeyOf(setting.options))|
    ensures Collected(p.references, meta, p.configurations)
  {
    var cleaned := CleanseRecords(records, setting.today);
    var unique := DeduplicateRecords(setting.options, cleaned);
    var configurations, dropped := ValidateAndEnrich(setting, unique, existing);
    var references := CollectReferenceData(meta, configurations);
    p := Prepared(configurations, dropped, references);
  }

  /** The configurations of a migration have pairwise distinct ids, so its rollback names each of them exactly once. */
  lemma RollbackNamesEachOnce(setting: Setting, existing: seq<Classification>, records: seq<Option<RawRecord>>)
    ensures DistinctKeys(Migrated(setting, existing, records), IdOf())
    ensures EachOnce(Rollback(Migrated(setting, existing, records)), (id: string) => id,
                     Keys(Migrated(setting, existing, records), IdOf()))
  {
    var clean := Cleansed(records, setting.today);
    FirstPerKeepsEachKeyOnce(clean, KeyOf(setting.options));
    SurvivorIdsAreDistinct(setting, existing + DEFAULT_CLASSIFICATIONS, FirstPer(clean, KeyOf(setting.options)));
    var cs := Migrated(setting, existing, records);
    FirstPerOfDistinct(cs, IdOf());
    hide Migrated, Cleansed, FirstPer, Survivors;
    ListedOnce(Rollback(cs), cs, IdOf(), (k: int, c: Configuration) => c.primaryAccountId, (id: string) => id);
  }

  /** Record i is the first with the key id, and it passes validation. */
  ghost predicate FirstAndPasses(setting: Setting, all: seq<Classification>, clean: seq<LegacyRecord>, i: int, id: string) {
    && 0 <= i < |clean| && IsFirst(clean, KeyOf(setting.options), i)
    && BusinessKey(setting.options, clean[i]) == id && Checked(setting, all, clean[i]).Some?
  }

  /**
   * Which ids a migration produces: the keys whose first cleansed record passes validation. A valid record that
   * comes after an invalid one with the same key is lost with it.
   */
  lemma FirstRecordDecides(setting: Setting, existing: seq<Classification>, records: seq<Option<RawRecord>>, id: string)
    ensures id in Keys(Migrated(setting, existing, records), IdOf())
            <==> exists i :: FirstAndPasses(setting, existing + DEFAULT_CLASSIFICATIONS, Cleansed(records, setting.today), i, id)
  {
    hide *;
    MigratedIds(setting, existing, records);
    PassingKeysOfFirsts(setting, existing + DEFAULT_CLASSIFICATIONS, Cleansed(records, setting.today), id);
  }

  lemma MigratedIds(setting: Setting, existing: seq<Classification>, records: seq<Option<RawRecord>>)
    ensures Keys(Migrated(setting, existing, records), IdOf())
            == PassingKeys(setting, existing + DEFAULT_CLASSIFICATIONS,
                           FirstPer(Cleansed(records, setting.today), KeyOf(setting.options)))
  {
    hide Keys, PassingKeys;
    SurvivorIds(setting, existing + DEFAULT_CLASSIFICATIONS,
                FirstPer(Cleansed(records, setting.today), KeyOf(setting.options)));
  }

  lemma PassingKeysOfFirsts(setting: Setting, all: seq<Classification>, clean: seq<LegacyRecord>, id: string)
    ensures id in PassingKeys(setting, all, FirstPer(clean, KeyOf(setting.options)))
            <==> exists i :: FirstAndPasses(setting, all, clean, i, id)
  {
    hide FirstPer, Checked, BusinessKey, IsFirst;
    var key := KeyOf(setting.options);
    var p := r => BusinessKey(setting.options, r) == id && Checked(setting, all, r).Some?;
    FirstPerAny(clean, key, p);
    if i :| FirstAndPasses(setting, all, clean, i, id) {
      assert p(clean[i]);
    }
    if r :| r in FirstPer(clean, key) && p(r) {
      var i :| 0 <= i < |clean| && IsFirst(clean, key, i) && p(clean[i]);
      assert FirstAndPasses(setting, all, clean, i, id);
    }
  }

  /** Every id spells the codes of its own row. */
  lemma {:induction false} IdsSpellTheirCodes(setting: Setting, all: seq<Classification>, records: seq<LegacyRecord>, c: Configuration)
    requires c in Survivors(setting, all, records)
    ensures var codes := Ids.Codes(c.clientCode, c.assetClassCode, c.subAssetClassCode, c.managerCode);
            && Ids.Validate(c.primaryAccountId, codes)
            && (Ids.WellFormed(codes) ==> Ids.Parse(c.primaryAccountId) == Some(codes))
  {
    var n := |records| - 1;
    if c in Survivors(setting, all, records[..n]) {
      IdsSpellTheirCodes(setting, all, records[..n], c);
    } else {
      var codes := Ids.Codes(c.clientCode, c.assetClassCode, c.subAssetClassCode, c.managerCode);
      assert c.primaryAccountId == Ids.Generate(codes);
      hide Survivors, Checked, Payload, Ids.Parse;
      UpperIsIdempotent(Ids.Joined(codes));
      if Ids.WellFormed(codes) {
        Ids.ParseGenerate(codes);
      }
    }
  }

  /** Existing classifications cannot rename the three defaults: whatever they say, these names keep their ids. */
  lemma DefaultsWin(existing: seq<Classification>, name: string)
    ensures var all := existing + DEFAULT_CLASSIFICATIONS;
            && (Lower(name) == "match" ==> ClassificationId(all, name) == 1)
            && (Lower(name) == "return" ==> ClassificationId(all, name) == 2)
            && (Lower(name) == "opbouw" ==> ClassificationId(all, name) == 3)
  {
    var all, key := existing + DEFAULT_CLASSIFICATIONS, Lower(name);
    var n := |existing|;
    DefaultKeys();
    hide Lower, Trim;
    assert all[..n + 2][..n + 1] == all[..n + 1];
    assert LastNamed(all, key) == if key == "opbouw" then Some(all[n + 2]) else LastNamed(all[..n + 2], key);
    assert LastNamed(all[..n + 2], key) == if key == "return" then Some(all[n + 1]) else LastNamed(all[..n + 1], key);
  }

  lemma DefaultKeys()
    ensures Lower(Trim("Match")) == "match" && Lower(Trim("Return")) == "return" && Lower(Trim("Opbouw")) == "opbouw"
  {
    hide Trim, Lower;
    KeyOfName("Match", "match");
    KeyOfName("Return", "return");
    KeyOfName("Opbouw", "opbouw");
  }

  lemma KeyOfName(name: string, key: string)
    requires |name| == |key| && Bare(name)
    requires forall k | 0 <= k < |name| :: LowerChar(name[k]) == key[k]
    ensures Lower(Trim(name)) == key
  {
  }
}
