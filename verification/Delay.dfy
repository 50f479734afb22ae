/** The delay histories of a uTP socket (section 2.4.2 of RFC 6817), against the full log of the samples. */
module Delay {
  import opened Bytes

  const BASE_HISTORY: nat := 10
  const MAX_BASE_DELAY_AGE: int := 60_000_000

  /** A delay that was measured, and when. */
  datatype Sample = Sample(at: u32, delay: int)

  // ---------- the full log, cut into rollover groups ----------

  /** A group goes on for MAX_BASE_DELAY_AGE after its first sample; the next sample begins the next group. */
  ghost function Groups(log: seq<Sample>): (gs: seq<seq<Sample>>)
    ensures forall i :: 0 <= i < |gs| ==> gs[i] != []
    ensures log != [] ==> gs != []
  {
    if log == [] then [] else Grouped(Groups(log[..|log| - 1]), log[|log| - 1])
  }

  ghost function Grouped(gs: seq<seq<Sample>>, s: Sample): (gs': seq<seq<Sample>>)
    requires forall i :: 0 <= i < |gs| ==> gs[i] != []
    ensures gs' != [] && forall i :: 0 <= i < |gs'| ==> gs'[i] != []
  {
    if gs == [] || s.at - gs[|gs| - 1][0].at > MAX_BASE_DELAY_AGE then gs + [[s]]
    else gs[..|gs| - 1] + [gs[|gs| - 1] + [s]]
  }

  ghost function Concat(gs: seq<seq<Sample>>): seq<Sample> {
    if gs == [] then [] else Concat(gs[..|gs| - 1]) + gs[|gs| - 1]
  }

  /** Every sample is in exactly one group, in order. */
  lemma {:induction false} GroupsPartition(log: seq<Sample>)
    ensures Concat(Groups(log)) == log
  {
    if log != [] {
      var gs: seq<seq<Sample>>, s := Groups(log[..|log| - 1]), log[|log| - 1];
      GroupsPartition(log[..|log| - 1]);
      if gs == [] || s.at - gs[|gs| - 1][0].at > MAX_BASE_DELAY_AGE {
        assert (gs + [[s]])[..|gs|] == gs;
      } else {
        assert Groups(log)[..|gs| - 1] == gs[..|gs| - 1];
      }
      assert log == log[..|log| - 1] + [s];
    }
  }

  /** The last ten groups, or all if there are fewer. */
  ghost function Recent(gs: seq<seq<Sample>>): seq<seq<Sample>> {
    if |gs| <= BASE_HISTORY then gs else gs[|gs| - BASE_HISTORY..]
  }

  ghost predicate IsMinimum(m: int, g: seq<Sample>) {
    (exists s :: s in g && s.delay == m) && forall s :: s in g ==> m <= s.delay
  }

  /** One minimum for each group. */
  ghost predicate AreMinima(ms: seq<int>, gs: seq<seq<Sample>>) {
    |ms| == |gs| && forall i :: 0 <= i < |ms| ==> IsMinimum(ms[i], gs[i])
  }

  /** A new group: the oldest minimum goes if there are ten. */
  lemma MinimaAfterRollover(ms: seq<int>, gs: seq<seq<Sample>>, s: Sample)
    requires AreMinima(ms, Recent(gs))
    ensures AreMinima((if |ms| == BASE_HISTORY then ms[1..] else ms) + [s.delay], Recent(gs + [[s]]))
  {
    MinimumOfOne(s);
    var before, after := Recent(gs), Recent(gs + [[s]]);
    assert after == (if |ms| == BASE_HISTORY then before[1..] else before) + [[s]];
  }

  /** Another sample in the latest group. */
  lemma MinimaAfterSample(ms: seq<int>, gs: seq<seq<Sample>>, s: Sample)
    requires AreMinima(ms, Recent(gs)) && gs != []
    ensures var n := |ms| - 1;
            ms != [] && AreMinima(ms[n := Min(ms[n], s.delay)], Recent(gs[..|gs| - 1] + [gs[|gs| - 1] + [s]]))
  {
    var n, last := |ms| - 1, gs[|gs| - 1];
    assert Recent(gs)[n] == last && IsMinimum(ms[n], last);
    OneMoreSample(ms[n], last, s);
    assert Recent(gs[..|gs| - 1] + [last + [s]]) == Recent(gs)[..n] + [last + [s]];
  }

  /** When the first sample of the latest group was taken. */
  ghost function Rollover(log: seq<Sample>): u32 {
    if log == [] then 0 else Groups(log)[|Groups(log)| - 1][0].at
  }

  /** The base delays, and the time of the rollover, after another sample. */
  function Rolled(ms: seq<int>, rollover: u32, s: Sample): (seq<int>, u32) {
    if ms == [] || s.at - rollover > MAX_BASE_DELAY_AGE then
      ((if |ms| == BASE_HISTORY then ms[1..] else ms) + [s.delay], s.at)
    else
      (ms[|ms| - 1 := Min(ms[|ms| - 1], s.delay)], rollover)
  }

  /** Base delays that are minima of the last ten groups stay so. */
  lemma RolledMinima(ms: seq<int>, log: seq<Sample>, s: Sample)
    requires AreMinima(ms, Recent(Groups(log)))
    ensures AreMinima(Rolled(ms, Rollover(log), s).0, Recent(Groups(log + [s])))
    ensures Rolled(ms, Rollover(log), s).1 == Rollover(log + [s])
  {
    assert (log + [s])[..|log|] == log;
    var gs := Groups(log);
    assert ms == [] <==> log == [];
    if ms == [] || s.at - Rollover(log) > MAX_BASE_DELAY_AGE {
      MinimaAfterRollover(ms, gs, s);
    } else {
      MinimaAfterSample(ms, gs, s);
    }
  }

  lemma OneMoreSample(m: int, g: seq<Sample>, s: Sample)
    requires IsMinimum(m, g)
    ensures IsMinimum(Min(m, s.delay), g + [s])
  {
    var w :| w in g && w.delay == m;
    assert w in g + [s] && s in g + [s];
  }

  lemma MinimumOfOne(s: Sample)
    ensures IsMinimum(s.delay, [s])
  {
    assert s in [s];
  }

  lemma {:induction false} InConcat(gs: seq<seq<Sample>>, s: Sample)
    ensures s in Concat(gs) <==> exists i :: 0 <= i < |gs| && s in gs[i]
  {
    if gs != [] {
      InConcat(gs[..|gs| - 1], s);
      assert gs[..|gs| - 1] + [gs[|gs| - 1]] == gs;
    }
  }

  /** A lower bound of the minima is the minimum of everything exactly if it is one of the minima. */
  lemma MinimumOfMinima(ms: seq<int>, gs: seq<seq<Sample>>, m: int)
    requires AreMinima(ms, gs) && forall d :: d in ms ==> m <= d
    ensures IsMinimum(m, Concat(gs)) <==> m in ms
  {
    forall s | s in Concat(gs) ensures m <= s.delay && (s.delay == m ==> m in ms) {
      InConcat(gs, s);
      var i :| 0 <= i < |gs| && s in gs[i];
      assert IsMinimum(ms[i], gs[i]) && ms[i] in ms;
    }
    if m in ms {
      var i :| 0 <= i < |ms| && ms[i] == m;
      assert IsMinimum(ms[i], gs[i]);
      var s :| s in gs[i] && s.delay == m;
      InConcat(gs, s);
    }
  }

  // ---------- samples by age ----------

  /** The samples that are no older than limit at the time now. */
  ghost function Young(ss: seq<Sample>, now: int, limit: int): seq<Sample> {
    if ss == [] then []
    else Young(ss[..|ss| - 1], now, limit) + if now - ss[|ss| - 1].at > limit then [] else [ss[|ss| - 1]]
  }

  /** What is left when the samples that are too old are taken from the front, up to the first one that is not. */
  ghost function Popped(ss: seq<Sample>, now: int, limit: int): seq<Sample> {
    if ss == [] || now - ss[0].at <= limit then ss else Popped(ss[1..], now, limit)
  }

  ghost predicate InOrder(ss: seq<Sample>) {
    forall i, j :: 0 <= i < j < |ss| ==> ss[i].at <= ss[j].at
  }

  /** Is no sample that is too old behind one that is not? */
  ghost predicate OldFirst(ss: seq<Sample>, now: int, limit: int) {
    forall i, j :: 0 <= i < j < |ss| && now - ss[j].at > limit ==> now - ss[i].at > limit
  }

  lemma {:induction false} YoungFirst(ss: seq<Sample>, now: int, limit: int)
    requires ss != []
    ensures Young(ss, now, limit) == (if now - ss[0].at > limit then [] else [ss[0]]) + Young(ss[1..], now, limit)
  {
    if |ss| > 1 {
      YoungFirst(ss[..|ss| - 1], now, limit);
      assert ss[..|ss| - 1][1..] == ss[1..][..|ss| - 2];
    }
  }

  lemma {:induction false} AllYoung(ss: seq<Sample>, now: int, limit: int)
    ensures |Young(ss, now, limit)| <= |ss|
    ensures |Young(ss, now, limit)| == |ss| <==> forall i :: 0 <= i < |ss| ==> now - ss[i].at <= limit
    ensures |Young(ss, now, limit)| == |ss| ==> Young(ss, now, limit) == ss
  {
    if ss != [] {
      AllYoung(ss[..|ss| - 1], now, limit);
      assert ss == ss[..|ss| - 1] + [ss[|ss| - 1]];
    }
  }

  /** Popping from the front is the same as filtering by age exactly when no old sample is behind a young one. */
  lemma {:induction false} PoppingIsFiltering(ss: seq<Sample>, now: int, limit: int)
    ensures Popped(ss, now, limit) == Young(ss, now, limit) <==> OldFirst(ss, now, limit)
  {
    if ss != [] {
      if now - ss[0].at <= limit {
        AllYoung(ss, now, limit);
      } else {
        PoppingIsFiltering(ss[1..], now, limit);
        YoungFirst(ss, now, limit);
        assert OldFirst(ss, now, limit) <==> OldFirst(ss[1..], now, limit) by {
          if OldFirst(ss[1..], now, limit) {
            forall i, j | 0 <= i < j < |ss| && now - ss[j].at > limit ensures now - ss[i].at > limit {
              assert i > 0 ==> now - ss[1..][j - 1].at > limit && now - ss[1..][i - 1].at > limit;
            }
          }
        }
      }
    }
  }

  /** The current delays after the samples of the log, where limits holds the age limit in force at each sample. */
  ghost function Current(log: seq<Sample>, limits: seq<int>): seq<Sample>
    requires |limits| == |log|
  {
    if log == [] then []
    else
      var n := |log| - 1;
      Popped(Current(log[..n], limits[..n]), log[n].at, limits[n]) + [log[n]]
  }

  lemma CurrentNext(log: seq<Sample>, limits: seq<int>, s: Sample, limit: int)
    requires |limits| == |log|
    ensures Current(log + [s], limits + [limit]) == Popped(Current(log, limits), s.at, limit) + [s]
  {
    assert (log + [s])[..|log|] == log && (limits + [limit])[..|log|] == limits;
  }

  /** Sample i is not too old at any later sample, going by the limit in force then. */
  ghost predicate Survives(log: seq<Sample>, limits: seq<int>, i: nat)
    requires |limits| == |log|
  {
    forall j :: i < j < |log| ==> log[j].at - log[i].at <= limits[j]
  }

  /** Those of the first k samples that survive. */
  ghost function Survivors(log: seq<Sample>, limits: seq<int>, k: nat): seq<Sample>
    requires |limits| == |log| && k <= |log|
  {
    if k == 0 then [] else Survivors(log, limits, k - 1) + if Survives(log, limits, k - 1) then [log[k - 1]] else []
  }

  /** One more sample: of the earlier survivors, the young ones survive. */
  lemma {:induction false} SurvivorsAreYoung(log: seq<Sample>, limits: seq<int>, k: nat)
    requires |limits| == |log| && k < |log|
    ensures var n := |log| - 1;
            Survivors(log, limits, k) == Young(Survivors(log[..n], limits[..n], k), log[n].at, limits[n])
  {
    var n := |log| - 1;
    var front, young := log[..n], Young(Survivors(log[..n], limits[..n], k), log[n].at, limits[n]);
    if k > 0 {
      SurvivorsAreYoung(log, limits, k - 1);
      SurvivesOneMore(log, limits, k - 1);
      var was := Survivors(front, limits[..n], k - 1);
      if Survives(front, limits[..n], k - 1) {
        assert (was + [log[k - 1]])[..|was|] == was;
      } else {
        assert was + [] == was;
      }
    }
  }

  lemma SurvivesOneMore(log: seq<Sample>, limits: seq<int>, i: nat)
    requires |limits| == |log| && i < |log| - 1
    ensures var n := |log| - 1;
            Survives(log, limits, i) <==> Survives(log[..n], limits[..n], i) && log[n].at - log[i].at <= limits[n]
  {
    var n := |log| - 1;
    if Survives(log[..n], limits[..n], i) && log[n].at - log[i].at <= limits[n] {
      forall j | i < j < |log| ensures log[j].at - log[i].at <= limits[j] {
        assert j < n ==> log[..n][j].at - log[..n][i].at <= limits[..n][j];
      }
    }
    if Survives(log, limits, i) {
      forall j | i < j < n ensures log[..n][j].at - log[..n][i].at <= limits[..n][j] {
        assert log[j].at - log[i].at <= limits[j];
      }
    }
  }

  lemma {:induction false} SurvivorsInOrder(log: seq<Sample>, limits: seq<int>, k: nat)
    requires |limits| == |log| && k <= |log| && InOrder(log)
    ensures InOrder(Survivors(log, limits, k))
    ensures forall s :: s in Survivors(log, limits, k) ==> k > 0 && s.at <= log[k - 1].at
  {
    if k > 0 {
      SurvivorsInOrder(log, limits, k - 1);
      var was := Survivors(log, limits, k - 1);
      assert forall i :: 0 <= i < |was| ==> was[i] in was;
    }
  }

  /** If time does not go back, the current delays are the samples of the whole log that have not been too old at any
      later sample, whatever limit was in force then. */
  lemma {:induction false} CurrentSurvives(log: seq<Sample>, limits: seq<int>)
    requires |limits| == |log| && InOrder(log)
    ensures Current(log, limits) == Survivors(log, limits, |log|)
    decreases |log|
  {
    if log != [] {
      var n := |log| - 1;
      var was := Survivors(log[..n], limits[..n], n);
      CurrentSurvives(log[..n], limits[..n]);
      SurvivorsInOrder(log[..n], limits[..n], n);
      PoppingIsFiltering(was, log[n].at, limits[n]);
      SurvivorsAreYoung(log, limits, n);
    }
  }

  // ---------- the histories ----------

  class DelayHistory {
    var baseDelays: seq<int>
    var currentDelays: seq<Sample>
    var lastRollover: u32

    ghost var log: seq<Sample> // every sample, oldest first
    ghost var limits: seq<int> // the age limit at each sample

    /** The base delays are the minima of the last ten groups of the log. */
    ghost predicate BaseValid()
      reads this`baseDelays, this`lastRollover, this`log
    {
      AreMinima(baseDelays, Recent(Groups(log))) && lastRollover == Rollover(log)
    }

    /** And the current delays are those of the log, under the limits that were in force. */
    ghost predicate Valid()
      reads this
    {
      BaseValid() && |limits| == |log| && currentDelays == Current(log, limits)
    }

    constructor ()
      ensures Valid() && log == [] && currentDelays == []
    {
      baseDelays, currentDelays, lastRollover, log, limits := [], [], 0, [], [];
    }

    /** Enters a sample into the base delays: a new minimum after a rollover, and otherwise the minimum of this
        group. */
    method UpdateBaseDelay(delay: int, now: u32)
      modifies this`baseDelays, this`lastRollover
      ensures (baseDelays, lastRollover) == Rolled(old(baseDelays), old(lastRollover), Sample(now, delay))
    {
      if baseDelays == [] || now - lastRollover > MAX_BASE_DELAY_AGE {
        lastRollover := now;
        if |baseDelays| == BASE_HISTORY {
          baseDelays := baseDelays[1..];
        }
        baseDelays := baseDelays + [delay];
      } else {
        var lastIdx := |baseDelays| - 1;
        assert baseDelays[lastIdx := baseDelays[lastIdx]] == baseDelays;
        if delay < baseDelays[lastIdx] {
          baseDelays := baseDelays[lastIdx := delay];
        }
      }
    }

    /** Takes the samples that are older than limit from the front, and enters a new one. */
    method UpdateCurrDelay(delay: int, now: u32, limit: int)
      modifies this`currentDelays
      ensures currentDelays == Popped(old(currentDelays), now, limit) + [Sample(now, delay)]
    {
      while currentDelays != [] && now - currentDelays[0].at > limit
        invariant Popped(currentDelays, now, limit) == Popped(old(currentDelays), now, limit)
        decreases |currentDelays|
      {
        currentDelays := currentDelays[1..];
      }
      currentDelays := currentDelays + [Sample(now, delay)];
    }

    /** Both histories take a sample; rtt is the current round-trip time in milliseconds. */
    method Update(delay: int, now: u32, rtt: int)
      requires Valid()
      modifies this
      ensures Valid() && log == old(log) + [Sample(now, delay)] && limits == old(limits) + [rtt * 100]
    {
      RolledMinima(baseDelays, log, Sample(now, delay));
      CurrentNext(log, limits, Sample(now, delay), rtt * 100);
      UpdateBaseDelay(delay, now);
      UpdateCurrDelay(delay, now, rtt * 100);
      log, limits := log + [Sample(now, delay)], limits + [rtt * 100];
    }

    /** The lowest base delay, which is the minimum of all samples of the last ten groups. As written the search starts
        at zero, and finds it exactly if some base delay is not positive. */
    method MinBaseDelay(b: Build) returns (m: int)
      requires BaseValid()
      ensures baseDelays != [] ==>
                (IsMinimum(m, Concat(Recent(Groups(log)))) <==> b.AsCommented? || exists d :: d in baseDelays && d <= 0)
      ensures b.AsWritten? && (forall d :: d in baseDelays ==> d > 0) ==> m == 0
    {
      m := if b.AsWritten? || baseDelays == [] then 0 else baseDelays[0];
      for i := 0 to |baseDelays|
        invariant forall k :: 0 <= k < i ==> m <= baseDelays[k]
        invariant b.AsWritten? ==> m <= 0
        invariant m in baseDelays || (m == 0 && (b.AsWritten? || baseDelays == []))
      {
        if baseDelays[i] < m {
          m := baseDelays[i];
        }
      }
      MinimumOfMinima(baseDelays, Recent(Groups(log)), m);
    }
  }
}
