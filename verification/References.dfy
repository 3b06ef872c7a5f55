/** The change-reference generator of lib/change-form-utils.ts: clock, same-millisecond counter, last six decimal digits. */
module References {
  import opened Wrappers

  const SUFFIXES := 1_000_000

  function Digit(n: nat): char {
    '0' + (n % 10) as char
  }

  /** String(n) */
  function Decimal(n: nat): (s: string)
    ensures forall c <- s :: '0' <= c <= '9'
  {
    if n < 10 then [Digit(n)] else Decimal(n / 10) + [Digit(n)]
  }

  /** slice(-6) */
  function LastSix(s: string): (r: string)
    ensures forall c <- r :: c in s
  {
    if |s| <= 6 then s else s[|s| - 6..]
  }

  function Suffix(stamp: nat): (s: string)
    ensures '-' !in s
  {
    LastSix(Decimal(stamp))
  }

  /** The lowest k digits of n, with leading zeros. */
  function LowDigits(n: nat, k: nat): (s: string)
    ensures |s| == k
  {
    if k == 0 then "" else LowDigits(n / 10, k - 1) + [Digit(n)]
  }

  function Power10(k: nat): (p: nat)
    ensures p >= 1
  {
    if k == 0 then 1 else 10 * Power10(k - 1)
  }

  lemma {:induction false} DecimalEndsInLowDigits(n: nat, k: nat)
    requires k == 0 || n >= Power10(k - 1)
    ensures |Decimal(n)| >= k && Decimal(n)[|Decimal(n)| - k..] == LowDigits(n, k)
  {
    if k > 1 {
      DecimalEndsInLowDigits(n / 10, k - 1);
      var d := Decimal(n / 10);
      assert Decimal(n) == d + [Digit(n)];
      assert Decimal(n)[|d| + 1 - k..] == d[|d| - (k - 1)..] + [Digit(n)];
    }
  }

  lemma {:induction false} DecimalLength(n: nat, k: nat)
    requires 1 <= k && n < Power10(k)
    ensures |Decimal(n)| <= k
  {
    if n >= 10 {
      DecimalLength(n / 10, k - 1);
    }
  }

  lemma {:induction false} DecimalIsInjective(a: nat, b: nat)
    requires Decimal(a) == Decimal(b)
    ensures a == b
  {
    if a >= 10 && b >= 10 {
      var s := Decimal(a);
      assert Decimal(a / 10) == s[..|s| - 1] == Decimal(b / 10);
      DecimalIsInjective(a / 10, b / 10);
    } else {
      assert |Decimal(a)| == |Decimal(b)|;
      assert Decimal(a)[|Decimal(a)| - 1] == Decimal(b)[|Decimal(b)| - 1];
    }
  }

  lemma SplitRemainder(n: nat, p: nat)
    requires p > 0
    ensures n % (10 * p) == 10 * (n / 10 % p) + n % 10
  {
    var q, r := n / 10 / p, n / 10 % p;
    assert n / 10 == q * p + r;
    assert n == q * (10 * p) + (10 * r + n % 10) by {
      assert q * (10 * p) == 10 * (q * p);
    }
    RemainderIsUnique(n, 10 * p, q, 10 * r + n % 10);
  }

  lemma RemainderIsUnique(n: nat, m: nat, q: nat, r: nat)
    requires r < m && n == q * m + r
    ensures n % m == r
  {
    var d := n / m - q;
    assert n % m == n - (n / m) * m;
    assert (n / m) * m == q * m + d * m;
    assert n % m == r - d * m;
    assert d >= 1 ==> d * m >= m;
    assert d <= -1 ==> d * m <= 0 - m;
  }

  lemma {:induction false} LowDigitsAgreeIff(a: nat, b: nat, k: nat)
    ensures LowDigits(a, k) == LowDigits(b, k) <==> a % Power10(k) == b % Power10(k)
  {
    if k > 0 {
      LowDigitsAgreeIff(a / 10, b / 10, k - 1);
      SplitRemainder(a, Power10(k - 1));
      SplitRemainder(b, Power10(k - 1));
      var s, t := LowDigits(a / 10, k - 1), LowDigits(b / 10, k - 1);
      assert s + [Digit(a)] == t + [Digit(b)] <==> s == t && Digit(a) == Digit(b) by {
        assert (s + [Digit(a)])[..k - 1] == s && (t + [Digit(b)])[..k - 1] == t;
        assert (s + [Digit(a)])[k - 1] == Digit(a) && (t + [Digit(b)])[k - 1] == Digit(b);
      }
    }
  }

  /** Two stamps share their suffix exactly when they are equal, or both have six digits or more and agree modulo 10^6. */
  lemma SuffixesCoincideIff(a: nat, b: nat)
    ensures Suffix(a) == Suffix(b) <==> a == b || (a >= 100_000 && b >= 100_000 && a % SUFFIXES == b % SUFFIXES)
  {
    assert Power10(3) == 1000 && Power10(5) == 100_000 && Power10(6) == SUFFIXES;
    hide Power10;
    SuffixLength(a);
    SuffixLength(b);
    if a >= 100_000 && b >= 100_000 {
      LowDigitsAgreeIff(a, b, 6);
    } else if Suffix(a) == Suffix(b) {
      DecimalIsInjective(a, b);
    }
  }

  lemma SuffixLength(n: nat)
    ensures n >= 100_000 ==> |Suffix(n)| == 6 && Suffix(n) == LowDigits(n, 6)
    ensures n < 100_000 ==> |Suffix(n)| <= 5 && Suffix(n) == Decimal(n)
  {
    assert Power10(3) == 1000 && Power10(5) == 100_000;
    if n >= 100_000 {
      DecimalEndsInLowDigits(n, 6);
    } else {
      DecimalLength(n, 5);
    }
  }

  /** lastReferenceMs and sameMsReferenceCounter. */
  datatype Generator = Generator(lastMs: int, counter: nat)

  function Tick(g: Generator, now: nat): Generator {
    if now == g.lastMs then g.(counter := g.counter + 1) else Generator(now, 0)
  }

  /** BCM-{year}-{prefix}-{suffix} */
  function Reference(year: nat, prefix: string, stamp: nat): string {
    "BCM-" + Decimal(year) + "-" + prefix + "-" + Suffix(stamp)
  }

  lemma LastSixOfDecimal(stamp: nat)
    ensures LastSix(Decimal(stamp)) == Suffix(stamp)
  {
  }

  // ---- Reading a reference ----

  /** The number its decimal digits stand for. */
  function ValueOf(digits: string): int {
    if digits == "" then 0
    else 10 * ValueOf(digits[..|digits| - 1]) + (digits[|digits| - 1] as int - '0' as int)
  }

  /** The part before the first dash. */
  function FirstPart(s: string): string {
    if s == "" || s[0] == '-' then "" else [s[0]] + FirstPart(s[1..])
  }

  /** The part of a reference after its last dash. */
  function LastPart(s: string): string {
    if s == "" || s[|s| - 1] == '-' then "" else LastPart(s[..|s| - 1]) + [s[|s| - 1]]
  }

  lemma {:induction false} LastPartOf(front: string, s: string)
    requires '-' !in s
    ensures LastPart(front + "-" + s) == s
  {
    if s != "" {
      var n := |s| - 1;
      LastPartOf(front, s[..n]);
      assert (front + "-" + s)[..|front| + |s|] == front + "-" + s[..n];
      assert s == s[..n] + [s[n]];
    }
  }

  /** The year up to the first dash after BCM-, the number after the last dash, and the prefix between them. */
  function ReadReference(s: string): Option<(int, string, int)> {
    if |s| < 4 || s[..4] != "BCM-" then None
    else
      var rest := s[4..];
      var digits, suffix := FirstPart(rest), LastPart(rest);
      if |digits| + |suffix| + 2 > |rest| then None
      else Some((ValueOf(digits), rest[|digits| + 1..|rest| - |suffix| - 1], ValueOf(suffix)))
  }

  lemma {:induction false} ValueOfDecimal(n: nat)
    ensures ValueOf(Decimal(n)) == n
  {
    if n >= 10 {
      ValueOfDecimal(n / 10);
      assert Decimal(n)[..|Decimal(n)| - 1] == Decimal(n / 10);
    } else {
      assert Decimal(n)[..0] == "";
    }
  }

  lemma {:induction false} ValueOfLowDigits(n: nat, k: nat)
    ensures ValueOf(LowDigits(n, k)) == n % Power10(k)
  {
    if k > 0 {
      ValueOfLowDigits(n / 10, k - 1);
      SplitRemainder(n, Power10(k - 1));
      assert LowDigits(n, k)[..k - 1] == LowDigits(n / 10, k - 1);
    }
  }

  lemma ValueOfSuffix(stamp: nat)
    ensures ValueOf(Suffix(stamp)) == stamp % 1_000_000
  {
    SuffixLength(stamp);
    assert Power10(3) == 1000 && Power10(6) == 1_000_000;
    hide Power10, Suffix;
    if stamp >= 100_000 { ValueOfLowDigits(stamp, 6); } else { ValueOfDecimal(stamp); }
  }

  lemma {:induction false} FirstPartOf(s: string, tail: string)
    requires '-' !in s
    ensures FirstPart(s + "-" + tail) == s
  {
    if s != "" {
      FirstPartOf(s[1..], tail);
      assert (s + "-" + tail)[1..] == s[1..] + "-" + tail;
      assert s == [s[0]] + s[1..];
    }
  }

  lemma Middle(front: string, middle: string, back: string)
    ensures (front + middle + back)[|front|..|front| + |middle|] == middle
  {
  }

  lemma Regrouped(digits: string, prefix: string, suffix: string)
    ensures digits + "-" + (prefix + "-" + suffix) == digits + "-" + prefix + "-" + suffix
    ensures digits + "-" + prefix + "-" + suffix == (digits + "-") + prefix + ("-" + suffix)
    ensures "BCM-" + digits + "-" + prefix + "-" + suffix == "BCM-" + (digits + "-" + prefix + "-" + suffix)
  {
  }

  lemma HeadAndRest(head: string, rest: string)
    ensures (head + rest)[..|head|] == head && (head + rest)[|head|..] == rest
  {
  }

  lemma PartsAreRead(digits: string, prefix: string, suffix: string)
    requires '-' !in digits && '-' !in suffix
    ensures ReadReference("BCM-" + digits + "-" + prefix + "-" + suffix) == Some((ValueOf(digits), prefix, ValueOf(suffix)))
  {
    hide ValueOf, FirstPart, LastPart;
    var rest := digits + "-" + prefix + "-" + suffix;
    FirstPartOf(digits, prefix + "-" + suffix);
    LastPartOf(digits + "-" + prefix, suffix);
    Regrouped(digits, prefix, suffix);
    HeadAndRest("BCM-", rest);
    Middle(digits + "-", prefix, "-" + suffix);
  }

  /** The year, the prefix, whatever it holds, and the stamp modulo 10^6 are read back. */
  lemma ReferenceReads(year: nat, prefix: string, stamp: nat)
    ensures ReadReference(Reference(year, prefix, stamp)) == Some((year, prefix, stamp % 1_000_000))
  {
    ValueOfDecimal(year);
    ValueOfSuffix(stamp);
    hide ValueOf, Decimal, Suffix, ReadReference;
    PartsAreRead(Decimal(year), prefix, Suffix(stamp));
  }

  class ReferenceGenerator {
    var lastReferenceMs: int
    var sameMsReferenceCounter: nat
    /** The type prefixes; a type without one gets CR. */
    const prefixes: map<string, string>

    constructor (prefixes: map<string, string>)
      ensures this.prefixes == prefixes && State() == Generator(0, 0)
    {
      this.prefixes := prefixes;
      lastReferenceMs, sameMsReferenceCounter := 0, 0;
    }

    function State(): Generator
      reads this
    {
      Generator(lastReferenceMs, sameMsReferenceCounter)
    }

    /** generateReference, when the clock reads now and the year is year. */
    method Generate(slug: string, year: nat, now: nat) returns (reference: string)
      modifies this
      ensures State() == Tick(old(State()), now)
      ensures lastReferenceMs == now
      ensures sameMsReferenceCounter == if now == old(lastReferenceMs) then old(sameMsReferenceCounter) + 1 else 0
      ensures ReadReference(reference)
              == Some((year, if slug in prefixes then prefixes[slug] else "CR", (now + sameMsReferenceCounter) % 1_000_000))
      ensures reference == Reference(year, if slug in prefixes then prefixes[slug] else "CR", now + State().counter)
    {
      hide Suffix, Decimal, LastSix, ReadReference;
      if now == lastReferenceMs {
        sameMsReferenceCounter := sameMsReferenceCounter + 1;
      } else {
        lastReferenceMs := now;
        sameMsReferenceCounter := 0;
      }
      var suffix := LastSix(Decimal(now + sameMsReferenceCounter));
      var prefix := if slug in prefixes then prefixes[slug] else "CR";
      reference := "BCM-" + Decimal(year) + "-" + prefix + "-" + suffix;
      LastSixOfDecimal(now + sameMsReferenceCounter);
      ReferenceReads(year, prefix, now + sameMsReferenceCounter);
    }
  }

  /** The state after calls at these clock readings. */
  function After(times: seq<nat>): Generator {
    if times == [] then Generator(0, 0) else Tick(After(times[..|times| - 1]), times[|times| - 1])
  }

  /** The number whose digits make the reference of call i. */
  function Stamp(times: seq<nat>, i: nat): nat
    requires i < |times|
  {
    times[i] + After(times[..i + 1]).counter
  }

  ghost predicate Nondecreasing(times: seq<nat>) {
    forall i, j | 0 <= i < j < |times| :: times[i] <= times[j]
  }

  /** Within one millisecond the stamps count up by one a call. */
  lemma {:induction false} StampsCountUp(times: seq<nat>, i: nat, j: nat)
    requires i <= j < |times| && Nondecreasing(times) && times[i] == times[j]
    ensures Stamp(times, j) == Stamp(times, i) + (j - i)
    ensures After(times[..j + 1]).lastMs == times[j]
  {
    assert times[..j + 1][..j] == times[..j];
    if i < j {
      assert times[i] <= times[j - 1] <= times[j];
      StampsCountUp(times, i, j - 1);
    }
  }

  /** Two calls in one millisecond share a suffix exactly when they are a multiple of 10^6 calls apart; */
  lemma SameMillisecondSuffixesCoincideIff(times: seq<nat>, i: nat, j: nat)
    requires i < j < |times| && Nondecreasing(times) && times[i] == times[j]
    ensures Suffix(Stamp(times, i)) == Suffix(Stamp(times, j))
            <==> (j - i) % SUFFIXES == 0 && Stamp(times, i) >= 100_000
  {
    hide Suffix, Stamp, After, Nondecreasing;
    StampsCountUp(times, i, j);
    SuffixesCoincideIff(Stamp(times, i), Stamp(times, j));
    RemaindersAgreeIff(Stamp(times, i), j - i);
  }

  lemma RemaindersAgreeIff(a: nat, d: nat)
    ensures a % SUFFIXES == (a + d) % SUFFIXES <==> d % SUFFIXES == 0
  {
  }

  /** so the first 1,000,000 calls of a millisecond yield pairwise distinct references, whatever their types and years. */
  lemma FirstMillionReferencesDiffer(times: seq<nat>, i: nat, j: nat, y: nat, z: nat, p: string, q: string)
    requires i < j < |times| && Nondecreasing(times) && times[i] == times[j] && j - i < SUFFIXES
    ensures Suffix(Stamp(times, i)) != Suffix(Stamp(times, j))
    ensures Reference(y, p, Stamp(times, i)) != Reference(z, q, Stamp(times, j))
  {
    SameMillisecondSuffixesCoincideIff(times, i, j);
    LastPartOf("BCM-" + Decimal(y) + "-" + p, Suffix(Stamp(times, i)));
    LastPartOf("BCM-" + Decimal(z) + "-" + q, Suffix(Stamp(times, j)));
  }

  /** Across milliseconds nothing is promised: two calls in one and a third in the next repeat a suffix, at every time. */
  lemma NextMillisecondRepeats(now: nat)
    requires now > 0
    ensures var times := [now, now, now + 1]; Suffix(Stamp(times, 1)) == Suffix(Stamp(times, 2))
  {
    var times := [now, now, now + 1];
    assert times[..1] == [now] && times[..2] == [now, now] && times[..3] == times;
    assert times[..2][..1] == [now] && times[..3][..2] == [now, now] && [now][..0] == [];
    assert After([now]) == Generator(now, 0);
    assert After([now, now]) == Generator(now, 1);
  }
}
