/** The primary account id {client}*{asset class}{sub asset class}*{manager} of lib/portfolio-config.ts. */
module PrimaryAccountId {
  import opened Text
  import opened Wrappers

  datatype Codes = Codes(client: string, assetClass: string, subAssetClass: string, manager: string)

  /** The formats the lookup tables enforce on the four codes. */
  predicate WellFormed(c: Codes) {
    && 1 <= |c.client| <= 3 && AllAlnum(c.client)
    && |c.assetClass| == 2 && AllLetters(c.assetClass)
    && |c.subAssetClass| == 3 && AllLetters(c.subAssetClass)
    && |c.manager| == 3 && AllAlnum(c.manager)
  }

  function Joined(c: Codes): string {
    c.client + "*" + c.assetClass + c.subAssetClass + "*" + c.manager
  }

  /** generatePrimaryAccountId */
  function Generate(c: Codes): string {
    Upper(Joined(c))
  }

  /** validatePrimaryAccountId */
  predicate Validate(id: string, c: Codes) {
    Generate(c) == Upper(id)
  }

  /** buildPrimaryAccountId: none when a code is blank. */
  function Build(c: Codes): Option<string> {
    if Trim(c.client) == "" || Trim(c.assetClass) == "" || Trim(c.subAssetClass) == "" || Trim(c.manager) == "" then None
    else Some(Generate(c))
  }

  /** Reads an id by the pattern the column enforces: [A-Z0-9]{1,3}*[A-Z]{2}[A-Z]{3}*[A-Z0-9]{3} */
  function Parse(id: string): Option<Codes> {
    if 11 <= |id| <= 13 then
      var k := |id| - 10;
      var c := Codes(id[..k], id[k + 1..k + 3], id[k + 3..k + 6], id[k + 7..]);
      if id[k] == '*' && id[k + 6] == '*' && WellFormed(c) then Some(c) else None
    else None
  }

  lemma WellFormedIsUpper(c: Codes)
    requires WellFormed(c)
    ensures Generate(c) == Joined(c)
  {
    forall x | x in Joined(c) ensures IsUpperAlnum(x) || x == '*' {
    }
    UpperOfAlnum(Joined(c));
  }

  /** The four codes can be read back from the id. */
  lemma ParseGenerate(c: Codes)
    requires WellFormed(c)
    ensures Parse(Generate(c)) == Some(c)
    ensures |Generate(c)| == |c.client| + 10 <= 13
  {
    WellFormedIsUpper(c);
    var id := Joined(c);
    var k := |c.client|;
    assert id[..k] == c.client && id[k + 1..k + 3] == c.assetClass;
    assert id[k + 3..k + 6] == c.subAssetClass && id[k + 7..] == c.manager;
  }

  /** Only ids that generation produces are read. */
  lemma GenerateParse(id: string)
    requires Parse(id).Some?
    ensures WellFormed(Parse(id).value) && Generate(Parse(id).value) == id
  {
    var c := Parse(id).value;
    WellFormedIsUpper(c);
    var k := |id| - 10;
    assert id == id[..k] + [id[k]] + id[k + 1..k + 3] + id[k + 3..k + 6] + [id[k + 6]] + id[k + 7..];
  }

  lemma GenerateIsInjective(c: Codes, d: Codes)
    requires WellFormed(c) && WellFormed(d) && Generate(c) == Generate(d)
    ensures c == d
  {
    ParseGenerate(c);
    ParseGenerate(d);
  }

  /** Validation accepts an id, whatever its case, exactly when these four codes are the ones it spells. */
  lemma ValidateReadsTheCodes(id: string, c: Codes)
    requires WellFormed(c)
    ensures Validate(id, c) <==> Parse(Upper(id)) == Some(c)
  {
    ParseGenerate(c);
    if Parse(Upper(id)) == Some(c) {
      GenerateParse(Upper(id));
    }
  }

  /** Well-formed codes are never blank. */
  lemma BuildOfWellFormed(c: Codes)
    requires WellFormed(c)
    ensures Build(c) == Some(Generate(c))
  {
    hide Trim, Generate;
    TrimOfAlnum(c.client);
    TrimOfAlnum(c.assetClass);
    TrimOfAlnum(c.subAssetClass);
    TrimOfAlnum(c.manager);
  }

  lemma TrimOfAlnum(s: string)
    requires AllAlnum(s)
    ensures Trim(s) == s
  {
    assert s != "" ==> s[0] in s && s[|s| - 1] in s;
    TrimOfBare(s);
  }
}
