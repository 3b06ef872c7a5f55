/** The deduplication caches of lib/error-reporter.ts and lib/github-issue-reporter.ts, against one that never forgets. */
module ErrorDedup {

  /** One hour, in milliseconds. */
  const WINDOW := 3_600_000

  /** A fingerprint reported when the clock reads now. */
  datatype Report = Report(fingerprint: string, now: int)

  type Cache = map<string, int>

  predicate Duplicate(cache: Cache, r: Report) {
    r.fingerprint in cache && r.now - cache[r.fingerprint] < WINDOW
  }

  /** The entries that are at most two windows old. */
  function Purged(cache: Cache, now: int): Cache {
    map f | f in cache && now - cache[f] <= 2 * WINDOW :: cache[f]
  }

  function Remember(cache: Cache, r: Report): Cache {
    if Duplicate(cache, r) then cache else cache[r.fingerprint := r.now]
  }

  function RememberAndPurge(cache: Cache, r: Report): Cache {
    if Duplicate(cache, r) then cache else Purged(cache[r.fingerprint := r.now], r.now)
  }

  class DedupCache {
    var recent: Cache

    constructor ()
      ensures recent == map[]
    {
      recent := map[];
    }

    /** isDuplicate: a report within the window is refused, any other is stored and old entries are purged. */
    method IsDuplicate(fingerprint: string, now: int) returns (duplicate: bool)
      modifies this
      ensures duplicate <==> Duplicate(old(recent), Report(fingerprint, now))
      ensures recent == RememberAndPurge(old(recent), Report(fingerprint, now))
      ensures duplicate <==> fingerprint in old(recent) && now - old(recent)[fingerprint] < 3_600_000
      ensures duplicate ==> recent == old(recent)
      ensures !duplicate ==> fingerprint in recent && recent[fingerprint] == now
      ensures !duplicate ==> forall f | f != fingerprint ::
                && (f in recent <==> f in old(recent) && now - old(recent)[f] <= 7_200_000)
                && (f in recent ==> recent[f] == old(recent)[f])
    {
      if fingerprint in recent && now - recent[fingerprint] < WINDOW {
        return true;
      }
      recent := recent[fingerprint := now];
      ghost var stored := recent;
      var keys := recent.Keys;
      while keys != {}
        invariant keys <= stored.Keys
        invariant recent == map f | f in stored && (f in keys || now - stored[f] <= 2 * WINDOW) :: stored[f]
        decreases |keys|
      {
        var key :| key in keys;
        if now - recent[key] > 2 * WINDOW {
          recent := recent - {key};
        }
        keys := keys - {key};
      }
      return false;
    }
  }

  /** The cache of the source after a run of reports. */
  function CacheAfter(run: seq<Report>): Cache {
    if run == [] then map[] else RememberAndPurge(CacheAfter(run[..|run| - 1]), run[|run| - 1])
  }

  /** A cache that never forgets, after the same run. */
  function MemoryAfter(run: seq<Report>): Cache {
    if run == [] then map[] else Remember(MemoryAfter(run[..|run| - 1]), run[|run| - 1])
  }

  /** The answer the source gives to report i of a run. */
  predicate Suppressed(run: seq<Report>, i: nat)
    requires i < |run|
  {
    Duplicate(CacheAfter(run[..i]), run[i])
  }

  /** No reading of the clock is more than drop below an earlier one; 0 is a nondecreasing clock. */
  ghost predicate Steady(run: seq<Report>, drop: nat) {
    forall i, j | 0 <= i < j < |run| :: run[j].now >= run[i].now - drop
  }

  /** What purging has lost: entries more than two windows behind some report. */
  lemma {:induction false} CacheForgetsOnlyTheExpired(run: seq<Report>, drop: nat)
    requires Steady(run, drop) && drop <= WINDOW + 1
    ensures forall f <- CacheAfter(run) :: f in MemoryAfter(run) && MemoryAfter(run)[f] == CacheAfter(run)[f]
    ensures forall f <- MemoryAfter(run) :: f in CacheAfter(run)
                || exists i | 0 <= i < |run| :: run[i].now - MemoryAfter(run)[f] > 2 * WINDOW
    decreases |run|, 1
  {
    if run != [] {
      var before, last := run[..|run| - 1], run[|run| - 1];
      CacheForgetsOnlyTheExpired(before, drop);
      PurgingAnswersAlike(run, |run| - 1, drop);
      forall f | f in MemoryAfter(run) && f !in CacheAfter(run)
        ensures exists i | 0 <= i < |run| :: run[i].now - MemoryAfter(run)[f] > 2 * WINDOW
      {
        if f in CacheAfter(before) || f == last.fingerprint {
          assert run[|run| - 1].now - MemoryAfter(run)[f] > 2 * WINDOW;
        } else {
          var i :| 0 <= i < |before| && before[i].now - MemoryAfter(before)[f] > 2 * WINDOW;
          assert run[i].now - MemoryAfter(run)[f] > 2 * WINDOW;
        }
      }
    }
  }

  /** While the clock never falls back by more than a window, every report is answered as if nothing were ever purged. */
  lemma {:induction false} PurgingAnswersAlike(run: seq<Report>, i: nat, drop: nat)
    requires i < |run| && Steady(run, drop) && drop <= WINDOW + 1
    ensures Suppressed(run, i) <==> Duplicate(MemoryAfter(run[..i]), run[i])
    decreases i, 2
  {
    CacheForgetsOnlyTheExpired(run[..i], drop);
    var f := run[i].fingerprint;
    if f in MemoryAfter(run[..i]) && f !in CacheAfter(run[..i]) {
      var k :| 0 <= k < i && run[..i][k].now - MemoryAfter(run[..i])[f] > 2 * WINDOW;
      assert run[i].now >= run[k].now - drop;
    }
  }

  /** A clock that falls back further can make the purging cache answer differently: report, purge, report again. */
  lemma LargerDropsCanShow(f: string, g: string, drop: nat) returns (run: seq<Report>)
    requires f != g && drop > WINDOW + 1
    ensures |run| == 3 && Steady(run, drop)
    ensures Suppressed(run, 2) <==> !Duplicate(MemoryAfter(run[..2]), run[2])
  {
    run := [Report(f, 0), Report(g, 2 * WINDOW + 1), Report(f, 2 * WINDOW + 1 - drop)];
    assert run[..1] == [run[0]] && run[..2] == [run[0], run[1]] && run[..2][..1] == [run[0]] && run[..1][..0] == [];
    assert CacheAfter(run[..1]) == map[f := 0] == MemoryAfter(run[..1]);
    assert CacheAfter(run[..2]) == map[g := 2 * WINDOW + 1];
    assert MemoryAfter(run[..2]) == map[f := 0, g := 2 * WINDOW + 1];
  }

  /** Report i is the latest of its fingerprint that was not refused among the first n. */
  predicate LatestAccepted(run: seq<Report>, n: nat, f: string, i: int)
    requires n <= |run|
  {
    && 0 <= i < n && run[i].fingerprint == f && !Suppressed(run, i)
    && forall j | i < j < n && run[j].fingerprint == f :: Suppressed(run, j)
  }

  lemma LatestStays(run: seq<Report>, n: nat, f: string, i: int)
    requires 0 < n <= |run| && LatestAccepted(run, n - 1, f, i)
    requires run[n - 1].fingerprint == f ==> Suppressed(run, n - 1)
    ensures LatestAccepted(run, n, f, i)
  {
    hide Suppressed;
  }

  lemma LatestIsNew(run: seq<Report>, n: nat)
    requires 0 < n <= |run| && !Suppressed(run, n - 1)
    ensures LatestAccepted(run, n, run[n - 1].fingerprint, n - 1)
  {
    hide Suppressed;
  }

  /** Every entry is the time of its fingerprint's latest accepted report among the first n. */
  ghost predicate HoldsLatest(run: seq<Report>, n: nat, cache: Cache)
    requires n <= |run|
  {
    forall f <- cache :: exists i :: LatestAccepted(run, n, f, i) && run[i].now == cache[f]
  }

  lemma RememberHoldsLatest(run: seq<Report>, n: nat, before: Cache)
    requires 0 < n <= |run| && HoldsLatest(run, n - 1, before)
    requires Suppressed(run, n - 1) <==> Duplicate(before, run[n - 1])
    ensures HoldsLatest(run, n, Remember(before, run[n - 1]))
  {
    hide Suppressed, Duplicate;
    var r, after := run[n - 1], Remember(before, run[n - 1]);
    forall f | f in after ensures exists i :: LatestAccepted(run, n, f, i) && run[i].now == after[f] {
      if f == r.fingerprint && !Suppressed(run, n - 1) {
        LatestIsNew(run, n);
      } else {
        var i :| LatestAccepted(run, n - 1, f, i) && run[i].now == before[f];
        LatestStays(run, n, f, i);
      }
    }
  }

  /** What the never-forgetting cache holds: for every fingerprint reported, the time of its latest accepted report. */
  lemma {:induction false} MemoryHoldsLatestAccepted(run: seq<Report>, n: nat, drop: nat)
    requires n <= |run| && Steady(run, drop) && drop <= WINDOW + 1
    ensures HoldsLatest(run, n, MemoryAfter(run[..n]))
    ensures forall i | 0 <= i < n :: run[i].fingerprint in MemoryAfter(run[..n])
  {
    hide Suppressed, Steady, CacheAfter, RememberAndPurge, LatestAccepted;
    if n > 0 {
      hide HoldsLatest;
      MemoryHoldsLatestAccepted(run, n - 1, drop);
      assert run[..n][..n - 1] == run[..n - 1];
      PurgingAnswersAlike(run, n - 1, drop);
      RememberHoldsLatest(run, n, MemoryAfter(run[..n - 1]));
    }
  }

  /** Two accepted reports of one fingerprint are at least a window apart. */
  lemma {:induction false} AcceptedReportsAreSpaced(run: seq<Report>, i: nat, j: nat, drop: nat)
    requires i < j < |run| && Steady(run, drop) && drop <= WINDOW + 1
    requires run[i].fingerprint == run[j].fingerprint && !Suppressed(run, i) && !Suppressed(run, j)
    ensures run[j].now - run[i].now >= 3_600_000
    decreases j
  {
    hide Suppressed, Steady, CacheAfter, MemoryAfter;
    var f := run[j].fingerprint;
    MemoryHoldsLatestAccepted(run, j, drop);
    var k :| LatestAccepted(run, j, f, k) && run[k].now == MemoryAfter(run[..j])[f];
    PurgingAnswersAlike(run, j, drop);
    if i < k {
      AcceptedReportsAreSpaced(run, i, k, drop);
    }
  }

  /** Every refused report comes less than a window after an accepted one of its fingerprint. */
  lemma RefusedReportsFollowAnAccepted(run: seq<Report>, j: nat, drop: nat)
    requires j < |run| && Steady(run, drop) && drop <= WINDOW + 1 && Suppressed(run, j)
    ensures exists i :: LatestAccepted(run, j, run[j].fingerprint, i) && run[i].now - drop <= run[j].now < run[i].now + 3_600_000
  {
    MemoryHoldsLatestAccepted(run, j, drop);
    PurgingAnswersAlike(run, j, drop);
    var i :| LatestAccepted(run, j, run[j].fingerprint, i) && run[i].now == MemoryAfter(run[..j])[run[j].fingerprint];
  }
}
