/**
 * The pod feed's transformer (src/utils/podTransform.ts): derives status, uptime
 * percentage, performance and reputation from one pod record, and reduces a list
 * of pods to one node per public key. The wall clock is the parameter `now`, in
 * whole seconds (`Math.floor(Date.now() / 1000)`).
 */
module PodTransform {
  import opened Common
  import opened Text
  import opened Node

  /** One record of the `get-pods-with-stats` reply; absent fields are `None`. */
  datatype Pod = Pod(
    address: Option<string>,
    isPublic: Option<bool>,
    lastSeen: int,
    pubkey: Option<string>,
    version: Option<string>,
    rpcPort: Option<int>,
    storageCommitted: Option<real>,
    storageUsagePercent: Option<real>,
    storageUsed: Option<real>,
    uptime: Option<real>)

  // ------------------------------------------------------------ JavaScript truthiness

  /** A number is truthy when present and non-zero. */
  predicate TruthyNumber(x: Option<real>) {
    x.Some? && x.value != 0.0
  }

  /** A string is truthy when present and non-empty. */
  predicate TruthyString(x: Option<string>) {
    x.Some? && x.value != ""
  }

  /** `x || 0` on an optional number. */
  function NumberOrZero(x: Option<real>): (r: real)
    ensures TruthyNumber(x) ==> r == x.value
    ensures !TruthyNumber(x) ==> r == 0.0
  {
    if TruthyNumber(x) then x.value else 0.0
  }

  /** `x || fallback` on an optional string. */
  function StringOr(x: Option<string>, fallback: string): string {
    if TruthyString(x) then x.value else fallback
  }

  /** `pod.is_public` is truthy. */
  predicate IsPublic(pod: Pod) {
    pod.isPublic == Some(true)
  }

  /** `pod.uptime && pod.uptime > 0`. */
  predicate HasUptime(pod: Pod) {
    pod.uptime.Some? && pod.uptime.value > 0.0
  }

  // ------------------------------------------------------------ constants

  const SecondsPerDay: real := 86400.0
  const SecondsPerHour: real := 3600.0
  const BytesPerGB: real := 1073741824.0
  /** A node counts as active when seen less than this many seconds ago (5 minutes). */
  const ActiveWindow: int := 300

  // ------------------------------------------------------------ status and uptime

  /** `calculateStatus`: active iff seen within the last five minutes. */
  function CalculateStatus(lastSeen: int, now: int): (r: Status)
    ensures r == Active <==> now - lastSeen < ActiveWindow
    ensures r != Syncing
  {
    var minutesSinceLastSeen := (now - lastSeen) as real / 60.0;
    if minutesSinceLastSeen < 5.0 then Active else Inactive
  }

  /** `calculateUptimePercentage`: uptime as a share of one day, capped at 100. */
  function UptimePercentage(seconds: real): (r: real)
    ensures seconds == 0.0 ==> r == 0.0
    ensures seconds >= 0.0 ==> 0.0 <= r <= 100.0
    ensures seconds >= SecondsPerDay ==> r == 100.0
    ensures 0.0 <= seconds <= SecondsPerDay ==> r * SecondsPerDay == seconds * 100.0
  {
    if seconds == 0.0 then 0.0
    else
      var uptimeDays := seconds / SecondsPerDay;
      MinReal(100.0, (uptimeDays / 1.0) * 100.0)
  }

  // ------------------------------------------------------------ performance

  /** Storage-usage factor: 100 at 50 % usage, 2 points lost per point of deviation, 0 outside (0, 100). */
  function StorageScore(usage: real): (r: real)
    ensures 0.0 <= r <= 100.0
    ensures r == 100.0 <==> usage == 50.0
    ensures !(0.0 < usage < 100.0) ==> r == 0.0
  {
    var raw := if 0.0 < usage < 100.0 then 100.0 - AbsReal(usage - 50.0) * 2.0 else 0.0;
    MaxReal(0.0, raw)
  }

  /** Uptime factor: uptime as a share of one day, capped at 100. */
  function UptimeScore(uptime: real): (r: real)
    requires uptime > 0.0
    ensures 0.0 < r <= 100.0
  {
    MinReal(100.0, (uptime / SecondsPerDay) * 100.0)
  }

  /** Recency factor: 2 points lost per minute since last seen, kept within [0, 100]. */
  function RecencyScore(lastSeen: int, now: int): (r: real)
    ensures 0.0 <= r <= 100.0
    ensures now - lastSeen <= 0 ==> r == 100.0
    ensures now - lastSeen >= 3000 ==> r == 0.0
  {
    var timeSinceLastSeen := (now - lastSeen) as real;
    var recency := MaxReal(0.0, 100.0 - (timeSinceLastSeen / 60.0) * 2.0);
    MinReal(100.0, recency)
  }

  /** A running total of factor scores and of how many factors were counted. */
  datatype Tally = Tally(score: real, factors: nat)

  /** The factors `calculatePerformance` adds up, before dividing. */
  function PerformanceTally(pod: Pod, now: int): (t: Tally)
    ensures t.factors >= 1
    ensures t.factors == 1 + (if pod.storageUsagePercent.Some? then 1 else 0)
                           + (if HasUptime(pod) then 1 else 0)
                           + (if IsPublic(pod) then 1 else 0)
    ensures 0.0 <= t.score <= 100.0 * t.factors as real
  {
    var storage :=
      if pod.storageUsagePercent.Some? then Tally(StorageScore(pod.storageUsagePercent.value), 1)
      else Tally(0.0, 0);
    var uptime := if HasUptime(pod) then Tally(UptimeScore(pod.uptime.value), 1) else Tally(0.0, 0);
    var recency := Tally(RecencyScore(pod.lastSeen, now), 1);
    var public := if IsPublic(pod) then Tally(100.0, 1) else Tally(0.0, 0);
    Tally(storage.score + uptime.score + recency.score + public.score,
          storage.factors + uptime.factors + recency.factors + public.factors)
  }

  /** A mean of scores in [0, 100] stays in [0, 100]. */
  lemma MeanBounds(score: real, factors: nat)
    requires factors >= 1
    requires 0.0 <= score <= 100.0 * factors as real
    ensures 0.0 <= score / factors as real <= 100.0
  {
    var f := factors as real;
    var m := score / f;
    assert m * f == score;
  }

  /** `calculatePerformance`: the mean of the counted factors. */
  function Performance(pod: Pod, now: int): (r: real)
    ensures 0.0 <= r <= 100.0
  {
    var t := PerformanceTally(pod, now);
    MeanBounds(t.score, t.factors);
    if t.factors > 0 then t.score / t.factors as real else 0.0
  }

  /**
   * A defined storage usage outside (0, 100) still counts as a factor, contributing 0:
   * such a node scores strictly less than the same node with no usage reported,
   * unless every other factor is already 0.
   */
  lemma StorageFactorCountsWhenDefined(pod: Pod, now: int, usage: real)
    requires pod.storageUsagePercent.None?
    requires !(0.0 < usage < 100.0)
    ensures var with := pod.(storageUsagePercent := Some(usage));
            PerformanceTally(with, now).factors == PerformanceTally(pod, now).factors + 1
            && PerformanceTally(with, now).score == PerformanceTally(pod, now).score
            && (Performance(pod, now) > 0.0 ==> Performance(with, now) < Performance(pod, now))
  {
    var t := PerformanceTally(pod, now);
    var w := PerformanceTally(pod.(storageUsagePercent := Some(usage)), now);
    var f := t.factors as real;
    assert w.factors as real == f + 1.0;
    if t.score / f > 0.0 {
      assert t.score > 0.0;
      assert t.score / (f + 1.0) < t.score / f by {
        assert t.score * f < t.score * (f + 1.0);
      }
    }
  }

  /** The public bonus is a factor of its own worth 100, not a 10-point addition. */
  lemma PublicBonusIsAFactor(pod: Pod, now: int)
    requires !IsPublic(pod)
    ensures var with := pod.(isPublic := Some(true));
            PerformanceTally(with, now) ==
              Tally(PerformanceTally(pod, now).score + 100.0, PerformanceTally(pod, now).factors + 1)
  {
  }

  // ------------------------------------------------------------ reputation

  /** Up to 10 points for uptime, 0.1 point per day, counted only for positive uptime. */
  function UptimePoints(pod: Pod): (r: real)
    ensures 0.0 <= r <= 10.0
    ensures !HasUptime(pod) ==> r == 0.0
  {
    if HasUptime(pod) then MinReal(10.0, (pod.uptime.value / SecondsPerDay) * 0.1) else 0.0
  }

  /** Up to 5 points for committed storage, one per 20 GB, counted only when non-zero. */
  function StoragePoints(pod: Pod): (r: real)
    ensures r <= 5.0
    ensures (pod.storageCommitted.None? || pod.storageCommitted.value >= 0.0) ==> r >= 0.0
  {
    if TruthyNumber(pod.storageCommitted) then
      var storageGB := pod.storageCommitted.value / BytesPerGB;
      MinReal(5.0, storageGB / 20.0)
    else 0.0
  }

  /** Up to 5 points (more for a future timestamp) for recency, half a point lost per hour. */
  function RecencyPoints(lastSeen: int, now: int): (r: real)
    ensures r >= 0.0
    ensures now - lastSeen >= 0 ==> r <= 5.0
    ensures now - lastSeen >= 36000 ==> r == 0.0
  {
    var hoursSinceLastSeen := (now - lastSeen) as real / SecondsPerHour;
    MaxReal(0.0, 5.0 - hoursSinceLastSeen * 0.5)
  }

  /** The uncapped sum of the reputation terms. */
  function ReputationSum(pod: Pod, now: int): (r: real)
    ensures (pod.storageCommitted.None? || pod.storageCommitted.value >= 0.0) ==> r >= 0.0
    ensures now - pod.lastSeen >= 0 ==> r <= 23.0
    ensures now - pod.lastSeen >= 36000 && !HasUptime(pod) && !IsPublic(pod) ==> r <= 6.0
  {
    UptimePoints(pod) + StoragePoints(pod) + RecencyPoints(pod.lastSeen, now)
      + (if IsPublic(pod) then 2.0 else 0.0)
      + (if TruthyString(pod.version) then 1.0 else 0.0)
  }

  /** `calculateReputation`: the sum of the terms, capped at 10. */
  function Reputation(pod: Pod, now: int): (r: real)
    ensures r <= 10.0
    ensures (pod.storageCommitted.None? || pod.storageCommitted.value >= 0.0) ==> r >= 0.0
    ensures r == 10.0 <==> ReputationSum(pod, now) >= 10.0
  {
    MinReal(10.0, ReputationSum(pod, now))
  }

  // ------------------------------------------------------------ one pod

  /** `Math.round`: the nearest integer, halves rounded towards +infinity. */
  function JsRound(x: real): (r: int)
    ensures x - 0.5 < r as real <= x + 0.5
  {
    (x + 0.5).Floor
  }

  /** `Math.round(x * 10) / 10`: `x` to one decimal place. */
  function OneDecimal(x: real): (r: real)
    ensures AbsReal(r - x) <= 0.05
    ensures x - 0.05 < r <= x + 0.05
    ensures (r * 10.0).Floor as real == r * 10.0
  {
    JsRound(x * 10.0) as real / 10.0
  }

  /**
   * Exactly one whole number of tenths lies in `(x - 0.05, x + 0.05]`, so the two
   * properties above determine `OneDecimal`: a half rounds up.
   */
  lemma OneDecimalUnique(x: real, r: real)
    requires (r * 10.0).Floor as real == r * 10.0
    requires x - 0.05 < r <= x + 0.05
    ensures r == OneDecimal(x)
  {
    var k := (r * 10.0).Floor;
    var j := JsRound(x * 10.0);
    assert x * 10.0 - 0.5 < k as real <= x * 10.0 + 0.5;
    assert x * 10.0 - 0.5 < j as real <= x * 10.0 + 0.5;
    assert k == j;
  }

  /** A byte count in GB rounded to one decimal place, halves up. */
  function RoundedGB(bytes: real): (r: real)
    ensures AbsReal(r - bytes / BytesPerGB) <= 0.05
    ensures bytes / BytesPerGB - 0.05 < r <= bytes / BytesPerGB + 0.05
    ensures (r * 10.0).Floor as real == r * 10.0
  {
    OneDecimal(bytes / BytesPerGB)
  }

  /** `transformPodToPNode`. */
  function TransformPod(pod: Pod, now: int): (n: PNode)
    ensures n.identity == StringOr(pod.pubkey, "unknown")
    ensures n.peerId == StringOr(pod.address, n.identity)
    ensures n.version == StringOr(pod.version, "unknown")
    ensures n.slotsProduced == 0 && n.slotsSkipped == 0
    ensures n.lastHeartbeat == pod.lastSeen * 1000
    ensures n.status == Active <==> now - pod.lastSeen < ActiveWindow
    ensures n.status != Syncing
    ensures n.storageCap == OneDecimal(NumberOrZero(pod.storageCommitted) / BytesPerGB)
    ensures n.storageUsed == OneDecimal(NumberOrZero(pod.storageUsed) / BytesPerGB)
    ensures AbsReal(n.storageCap - NumberOrZero(pod.storageCommitted) / BytesPerGB) <= 0.05
    ensures AbsReal(n.storageUsed - NumberOrZero(pod.storageUsed) / BytesPerGB) <= 0.05
    ensures n.uptime == UptimePercentage(NumberOrZero(pod.uptime))
    ensures n.performance == Performance(pod, now) && n.reputation == Reputation(pod, now)
    ensures (pod.uptime.None? || pod.uptime.value >= 0.0) ==> 0.0 <= n.uptime <= 100.0
    ensures 0.0 <= n.performance <= 100.0
    ensures n.reputation <= 10.0
    ensures (pod.storageCommitted.None? || pod.storageCommitted.value >= 0.0) ==> n.reputation >= 0.0
  {
    var pubkey := StringOr(pod.pubkey, "unknown");
    PNode(
      identity := pubkey,
      status := CalculateStatus(pod.lastSeen, now),
      uptime := UptimePercentage(NumberOrZero(pod.uptime)),
      performance := Performance(pod, now),
      lastHeartbeat := pod.lastSeen * 1000,
      storageUsed := RoundedGB(NumberOrZero(pod.storageUsed)),
      storageCap := RoundedGB(NumberOrZero(pod.storageCommitted)),
      slotsProduced := 0,
      slotsSkipped := 0,
      peerId := StringOr(pod.address, pubkey),
      version := StringOr(pod.version, "unknown"),
      reputation := Reputation(pod, now))
  }

  /** The node from a pod seen 60 s ago with 12 h uptime, 50 % usage and public access. */
  lemma WorkedExample(now: int)
    ensures var pod := Pod(None, Some(true), now - 60, Some("N1"), None, None, None, Some(50.0), None, Some(43200.0));
            var n := TransformPod(pod, now);
            n.status == Active && n.uptime == 50.0 && n.performance == 87.0
  {
    var pod := Pod(None, Some(true), now - 60, Some("N1"), None, None, None, Some(50.0), None, Some(43200.0));
    assert RecencyScore(pod.lastSeen, now) == 98.0;
    assert UptimeScore(43200.0) == 50.0;
    assert StorageScore(50.0) == 100.0;
    assert PerformanceTally(pod, now) == Tally(348.0, 4);
  }

  // ------------------------------------------------------------ deduplication

  /** The Map key a pod is filed under. */
  function Key(p: Pod): string {
    p.pubkey.GetOr("")
  }

  /** `pod.pubkey && pod.pubkey.trim() !== ""`. */
  predicate HasKey(p: Pod) {
    p.pubkey.Some? && !IsBlank(p.pubkey.value)
  }

  function KeysOf(s: seq<Pod>): (r: seq<string>)
    ensures |r| == |s|
    ensures forall i :: 0 <= i < |s| ==> r[i] == Key(s[i])
  {
    seq(|s|, i requires 0 <= i < |s| => Key(s[i]))
  }

  /** No key occurs twice. */
  predicate Distinct(ks: seq<string>) {
    forall i, j :: 0 <= i < j < |ks| ==> ks[i] != ks[j]
  }

  /**
   * The distinct keys of `ks` in the order of their first appearance: the key order
   * of a JavaScript `Map` filled from `ks`.
   */
  function FirstAppearances(ks: seq<string>): (r: seq<string>)
    ensures Distinct(r)
    ensures forall k :: k in r <==> k in ks
  {
    if |ks| == 0 then []
    else
      var prev := FirstAppearances(ks[..|ks| - 1]);
      var last := ks[|ks| - 1];
      assert ks == ks[..|ks| - 1] + [last];
      if last in prev then prev else prev + [last]
  }

  /**
   * `w` is the pod a `Map` keeps for its key after seeing `pods`: the one at some index
   * `idx` whose `last_seen_timestamp` no pod with the same key exceeds, and that every
   * earlier pod with that key falls strictly short of (ties keep the first).
   */
  predicate WinsAt(pods: seq<Pod>, w: Pod, idx: int) {
    && 0 <= idx < |pods|
    && pods[idx] == w
    && (forall j :: 0 <= j < |pods| && Key(pods[j]) == Key(w) ==> pods[j].lastSeen <= w.lastSeen)
    && (forall j :: 0 <= j < idx && Key(pods[j]) == Key(w) ==> pods[j].lastSeen < w.lastSeen)
  }

  ghost predicate IsLatest(pods: seq<Pod>, w: Pod) {
    exists idx :: WinsAt(pods, w, idx)
  }

  /** Where `held` files key `k`, or -1. */
  function IndexOfKey(held: seq<Pod>, k: string): (i: int)
    ensures -1 <= i < |held|
    ensures i >= 0 ==> Key(held[i]) == k
    ensures i < 0 <==> k !in KeysOf(held)
  {
    if |held| == 0 then -1
    else if Key(held[0]) == k then 0
    else
      var j := IndexOfKey(held[1..], k);
      assert KeysOf(held) == [Key(held[0])] + KeysOf(held[1..]);
      if j < 0 then -1 else j + 1
  }

  /** One step of the loop: file `p` under its key, replacing the held pod only if `p` is strictly newer. */
  function Hold(held: seq<Pod>, p: Pod): seq<Pod> {
    var i := IndexOfKey(held, Key(p));
    if i < 0 then held + [p]
    else if p.lastSeen > held[i].lastSeen then held[i := p]
    else held
  }

  /** `Hold` keeps the deduplication invariant when one more pod arrives. */
  lemma HoldStep(pods: seq<Pod>, held: seq<Pod>, p: Pod)
    requires KeysOf(held) == FirstAppearances(KeysOf(pods))
    requires forall i :: 0 <= i < |held| ==> IsLatest(pods, held[i])
    ensures KeysOf(Hold(held, p)) == FirstAppearances(KeysOf(pods + [p]))
    ensures forall i :: 0 <= i < |Hold(held, p)| ==> IsLatest(pods + [p], Hold(held, p)[i])
  {
    var k := Key(p);
    var pods' := pods + [p];
    var n := |pods|;
    assert KeysOf(pods') == KeysOf(pods) + [k];
    assert KeysOf(pods')[..|KeysOf(pods')| - 1] == KeysOf(pods);
    var i := IndexOfKey(held, k);
    var held' := Hold(held, p);
    // A pod that won among `pods` and has another key still wins among `pods'`.
    forall w | w in held && Key(w) != k && IsLatest(pods, w)
      ensures IsLatest(pods', w)
    {
      var idx :| WinsAt(pods, w, idx);
      assert WinsAt(pods', w, idx);
    }
    if i < 0 {
      assert KeysOf(held') == KeysOf(held) + [k];
      forall j | 0 <= j < n
        ensures Key(pods[j]) != k
      {
        assert KeysOf(pods)[j] == Key(pods[j]);
      }
      assert WinsAt(pods', p, n);
      forall m | 0 <= m < |held'|
        ensures IsLatest(pods', held'[m])
      {
        if m < |held| {
          assert KeysOf(held)[m] == Key(held[m]);
        }
      }
    } else {
      var w := held[i];
      var idx :| WinsAt(pods, w, idx);
      assert Distinct(KeysOf(held));
      forall m | 0 <= m < |held| && m != i
        ensures Key(held[m]) != k
      {
        assert KeysOf(held)[m] != KeysOf(held)[i];
      }
      if p.lastSeen > w.lastSeen {
        assert KeysOf(held') == KeysOf(held);
        assert WinsAt(pods', p, n);
      } else {
        assert WinsAt(pods', w, idx);
      }
      forall m | 0 <= m < |held'|
        ensures IsLatest(pods', held'[m])
      {
        if m != i {
          assert held'[m] == held[m];
        }
      }
    }
  }

  /**
   * The reduction `transformPodsToPNodes` performs with a `Map`: one pod per key, in
   * first-appearance order, each the latest pod for its key.
   */
  function Dedup(pods: seq<Pod>): (r: seq<Pod>)
    ensures KeysOf(r) == FirstAppearances(KeysOf(pods))
    ensures forall i :: 0 <= i < |r| ==> IsLatest(pods, r[i])
  {
    if |pods| == 0 then []
    else
      var init := pods[..|pods| - 1];
      var last := pods[|pods| - 1];
      var held := Dedup(init);
      HoldStep(init, held, last);
      assert init + [last] == pods;
      Hold(held, last)
  }

  /** The pods with a usable key. */
  function Keyed(pods: seq<Pod>): seq<Pod> {
    Filter(pods, HasKey)
  }

  /** `n` is the transform of a pod that is the latest for its key in `pods`. */
  ghost predicate FromLatest(pods: seq<Pod>, n: PNode, now: int) {
    exists w :: IsLatest(pods, w) && n == TransformPod(w, now)
  }

  /** Transforming the pods `Dedup` keeps gives one node per key, each built from that key's latest pod. */
  lemma NodesOfLatest(kept: seq<Pod>, held: seq<Pod>, r: seq<PNode>, now: int)
    requires KeysOf(held) == FirstAppearances(KeysOf(kept))
    requires forall i :: 0 <= i < |held| ==> IsLatest(kept, held[i]) && HasKey(held[i])
    requires |r| == |held| && forall i :: 0 <= i < |r| ==> r[i] == TransformPod(held[i], now)
    ensures |r| == |FirstAppearances(KeysOf(kept))|
    ensures forall i :: 0 <= i < |r| ==> r[i].identity == FirstAppearances(KeysOf(kept))[i]
    ensures forall i :: 0 <= i < |r| ==> FromLatest(kept, r[i], now)
  {
    forall i | 0 <= i < |r|
      ensures r[i].identity == FirstAppearances(KeysOf(kept))[i]
    {
      assert KeysOf(held)[i] == Key(held[i]);
    }
    forall i | 0 <= i < |r|
      ensures FromLatest(kept, r[i], now)
    {
      assert IsLatest(kept, held[i]) && r[i] == TransformPod(held[i], now);
    }
  }

  /** `transformPodsToPNodes`: drop keyless pods, keep the latest per key, transform each. */
  function TransformPods(pods: seq<Pod>, now: int): (r: seq<PNode>)
    ensures |r| == |FirstAppearances(KeysOf(Keyed(pods)))|
    ensures forall i :: 0 <= i < |r| ==> r[i].identity == FirstAppearances(KeysOf(Keyed(pods)))[i]
    ensures forall i :: 0 <= i < |r| ==> FromLatest(Keyed(pods), r[i], now)
  {
    var kept := Keyed(pods);
    var held := Dedup(kept);
    forall i | 0 <= i < |held|
      ensures HasKey(held[i])
    {
      var idx :| WinsAt(kept, held[i], idx);
    }
    var r := seq(|held|, i requires 0 <= i < |held| => TransformPod(held[i], now));
    NodesOfLatest(kept, held, r, now);
    r
  }

  /** Every node of one refresh has its own identity. */
  lemma IdentitiesUnique(pods: seq<Pod>, now: int)
    ensures var r := TransformPods(pods, now);
            forall i, j :: 0 <= i < j < |r| ==> r[i].identity != r[j].identity
  {
  }

  /** The keys that survive the first filter are exactly the usable pubkeys. */
  lemma KeyedKeys(pods: seq<Pod>, k: string)
    ensures k in KeysOf(Keyed(pods)) <==>
            exists j :: 0 <= j < |pods| && HasKey(pods[j]) && pods[j].pubkey.value == k
  {
    var kept := Keyed(pods);
    FilterCounts(pods, HasKey);
    if k in KeysOf(kept) {
      var m :| 0 <= m < |kept| && KeysOf(kept)[m] == k;
      assert multiset(kept)[kept[m]] > 0;
      assert kept[m] in pods;
      var j :| 0 <= j < |pods| && pods[j] == kept[m];
      assert HasKey(pods[j]) && pods[j].pubkey.value == k;
    }
    if exists j :: 0 <= j < |pods| && HasKey(pods[j]) && pods[j].pubkey.value == k {
      var j :| 0 <= j < |pods| && HasKey(pods[j]) && pods[j].pubkey.value == k;
      assert multiset(kept)[pods[j]] > 0;
      assert pods[j] in kept;
      var m :| 0 <= m < |kept| && kept[m] == pods[j];
      assert KeysOf(kept)[m] == k;
    }
  }

  /** A pod without a usable key yields no node, and every usable key yields exactly one. */
  lemma OneNodePerKey(pods: seq<Pod>, now: int, k: string)
    ensures var r := TransformPods(pods, now);
            (exists i :: 0 <= i < |r| && r[i].identity == k) <==>
            (exists j :: 0 <= j < |pods| && HasKey(pods[j]) && pods[j].pubkey.value == k)
  {
    var r := TransformPods(pods, now);
    var fa := FirstAppearances(KeysOf(Keyed(pods)));
    KeyedKeys(pods, k);
    assert (exists i :: 0 <= i < |r| && r[i].identity == k) <==> k in fa by {
      if k in fa {
        var i :| 0 <= i < |fa| && fa[i] == k;
        assert r[i].identity == k;
      }
    }
  }

  /** Two reports of node "X" seen at 100 and at 200 give one node, built from the later one. */
  lemma LaterReportWins(a: Pod, b: Pod)
    requires a.pubkey == Some("X") && b.pubkey == Some("X")
    requires a.lastSeen == 100 && b.lastSeen == 200
    ensures Dedup([a, b]) == [b]
  {
    assert [a, b][..1] == [a];
    assert Dedup([a]) == [a] by {
      assert [a][..0] == [];
    }
  }

  /** Equal timestamps keep the pod reported first. */
  lemma TieKeepsFirst(a: Pod, b: Pod)
    requires Key(a) == Key(b) && a.lastSeen == b.lastSeen
    ensures Dedup([a, b]) == [a]
  {
    assert [a, b][..1] == [a];
    assert Dedup([a]) == [a] by {
      assert [a][..0] == [];
    }
  }
}
