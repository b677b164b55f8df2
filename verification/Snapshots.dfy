/** Freshness policies and immutable successful discovery snapshots. */
module Snapshots {
  import opened Basics
  import opened Models

  const HOUR_MS: i64 := 60 * 60 * 1000
  const DAY_MS: i64 := 24 * HOUR_MS

  /** The durations in milliseconds. */
  lemma Durations()
    ensures DAY_MS == 86_400_000
    ensures DEFAULT_POLICY == FreshnessPolicy(21_600_000, 86_400_000, 259_200_000)
  {
  }

  datatype Target = Target(endpointId: string, credentialId: string)

  datatype SnapshotError =
    | FreshDurationNotPositive
    | RefreshDueBeforeFresh
    | ExpiryNotAfterRefreshDue
    | SnapshotVersionZero
    | SnapshotVersionOverflow
    | TimestampBeforeUnixEpoch
    | TimestampOverflow
    | ClockBeforeSnapshot
    | TimestampNotMonotonic

  datatype FreshnessPolicy = FreshnessPolicy(freshFor: i64, refreshDueAfter: i64, expiresAfter: i64) {
    predicate Ordered() {
      0 < freshFor <= refreshDueAfter < expiresAfter
    }
  }

  const DEFAULT_POLICY := FreshnessPolicy(6 * HOUR_MS, 24 * HOUR_MS, 72 * HOUR_MS)

  function TryNewPolicy(freshFor: i64, refreshDueAfter: i64, expiresAfter: i64): (r: Result<FreshnessPolicy, SnapshotError>)
    ensures r.Ok? <==> 0 < freshFor <= refreshDueAfter < expiresAfter
    ensures r.Ok? ==> r.value.Ordered()
    ensures r.Ok? ==> r.value.freshFor == freshFor && r.value.refreshDueAfter == refreshDueAfter && r.value.expiresAfter == expiresAfter
    ensures r == Err(FreshDurationNotPositive) <==> freshFor <= 0
    ensures r == Err(RefreshDueBeforeFresh) <==> refreshDueAfter < freshFor && 0 < freshFor
    ensures r == Err(ExpiryNotAfterRefreshDue) <==> expiresAfter <= refreshDueAfter && 0 < freshFor <= refreshDueAfter
  {
    if freshFor <= 0 then Err(FreshDurationNotPositive)
    else if refreshDueAfter < freshFor then Err(RefreshDueBeforeFresh)
    else if expiresAfter <= refreshDueAfter then Err(ExpiryNotAfterRefreshDue)
    else Ok(FreshnessPolicy(freshFor, refreshDueAfter, expiresAfter))
  }

  datatype Snapshot = Snapshot(
    target: Target,
    models: seq<Model>,
    version: u64,
    observedAt: i64,
    staleAt: i64,
    refreshDueAt: i64,
    expiresAt: i64
  )

  function TryNewSnapshot(target: Target, models: seq<Model>, version: u64, observedAt: i64, policy: FreshnessPolicy)
    : Result<Snapshot, SnapshotError>
  {
    if version == 0 then Err(SnapshotVersionZero)
    else if observedAt < 0 then Err(TimestampBeforeUnixEpoch)
    else
      match (CheckedAdd(observedAt, policy.freshFor),
             CheckedAdd(observedAt, policy.refreshDueAfter),
             CheckedAdd(observedAt, policy.expiresAfter))
      case (Some(stale), Some(due), Some(expires)) =>
        Ok(Snapshot(target, Normalized(models), version, observedAt, stale, due, expires))
      case _ => Err(TimestampOverflow)
  }

  /** The snapshot records exactly this answer under this policy. */
  ghost predicate Records(s: Snapshot, target: Target, models: seq<Model>, version: int, observedAt: int, policy: FreshnessPolicy) {
    && s.target == target
    && StrictlySorted(s.models)
    && (forall m :: m in s.models <==> m in models)
    && s.version == version
    && s.observedAt == observedAt
    && s.staleAt == observedAt + policy.freshFor
    && s.refreshDueAt == observedAt + policy.refreshDueAfter
    && s.expiresAt == observedAt + policy.expiresAfter
  }

  predicate DeadlinesFit(observedAt: i64, policy: FreshnessPolicy) {
    && observedAt + policy.freshFor <= I64_MAX
    && observedAt + policy.refreshDueAfter <= I64_MAX
    && observedAt + policy.expiresAfter <= I64_MAX
  }

  /** What construction yields, field by field, and which error it reports otherwise. */
  lemma SnapshotMeans(target: Target, models: seq<Model>, version: u64, observedAt: i64, policy: FreshnessPolicy)
    ensures var r := TryNewSnapshot(target, models, version, observedAt, policy);
            && (r.Ok? ==> Records(r.value, target, models, version, observedAt, policy))
            && (r.Ok? <==> 1 <= version && 0 <= observedAt && DeadlinesFit(observedAt, policy))
            && (r == Err(SnapshotVersionZero) <==> version == 0)
            && (r == Err(TimestampBeforeUnixEpoch) <==> 1 <= version && observedAt < 0)
            && (r == Err(TimestampOverflow) <==> 1 <= version && 0 <= observedAt && !DeadlinesFit(observedAt, policy))
  {
    var normal := Normalized(models);
    forall m
      ensures m in normal <==> m in models
    {
      assert m in ModelSet(normal) <==> m in ModelSet(models);
    }
  }

  lemma RecordsOnce(a: Snapshot, b: Snapshot, target: Target, models: seq<Model>, version: int, observedAt: int, policy: FreshnessPolicy)
    requires Records(a, target, models, version, observedAt, policy) && Records(b, target, models, version, observedAt, policy)
    ensures a == b
  {
    assert ModelSet(a.models) == ModelSet(b.models);
    StrictlySortedUnique(a.models, b.models);
  }

  /** Builds a snapshot, sorting and deduplicating the answer only after every check has passed. */
  method NewSnapshot(target: Target, models: seq<Model>, version: u64, observedAt: i64, policy: FreshnessPolicy)
    returns (r: Result<Snapshot, SnapshotError>)
    ensures r == TryNewSnapshot(target, models, version, observedAt, policy)
    ensures r.Ok? ==> Records(r.value, target, models, version, observedAt, policy)
  {
    SnapshotMeans(target, models, version, observedAt, policy);
    if version == 0 {
      return Err(SnapshotVersionZero);
    }
    if observedAt < 0 {
      return Err(TimestampBeforeUnixEpoch);
    }
    var stale := CheckedAdd(observedAt, policy.freshFor);
    if stale.None? {
      return Err(TimestampOverflow);
    }
    var due := CheckedAdd(observedAt, policy.refreshDueAfter);
    if due.None? {
      return Err(TimestampOverflow);
    }
    var expires := CheckedAdd(observedAt, policy.expiresAfter);
    if expires.None? {
      return Err(TimestampOverflow);
    }
    var normalized := NormalizeModels(models);
    return Ok(Snapshot(target, normalized, version, observedAt, stale.value, due.value, expires.value));
  }

  /** Some caller can obtain this snapshot from the validated constructors. */
  ghost predicate Constructible(s: Snapshot) {
    exists models: seq<Model>, p: FreshnessPolicy ::
      p.Ordered() && TryNewSnapshot(s.target, models, s.version, s.observedAt, p) == Ok(s)
  }

  predicate OrderedDeadlines(s: Snapshot) {
    0 <= s.observedAt < s.staleAt <= s.refreshDueAt < s.expiresAt
  }

  /** The constructible snapshots are exactly those with a version, ordered deadlines and a normal model list. */
  lemma ConstructibleExactly(s: Snapshot)
    ensures Constructible(s) <==> 1 <= s.version && OrderedDeadlines(s) && StrictlySorted(s.models)
  {
    if 1 <= s.version && OrderedDeadlines(s) && StrictlySorted(s.models) {
      var p := FreshnessPolicy(s.staleAt - s.observedAt, s.refreshDueAt - s.observedAt, s.expiresAt - s.observedAt);
      StrictlySortedUnique(s.models, Normalized(s.models));
      assert TryNewSnapshot(s.target, s.models, s.version, s.observedAt, p) == Ok(s);
    }
  }

  /** Under an ordered policy only the latest deadline can overflow, so expiry alone decides construction. */
  lemma SnapshotBuildsIffExpiryFits(target: Target, models: seq<Model>, version: u64, observedAt: i64, policy: FreshnessPolicy)
    requires policy.Ordered()
    ensures TryNewSnapshot(target, models, version, observedAt, policy).Ok? <==>
            1 <= version && 0 <= observedAt && observedAt + policy.expiresAfter <= I64_MAX
  {
  }

  datatype Freshness = Fresh | Stale | Expired {
    function Rank(): nat {
      match this case Fresh => 0 case Stale => 1 case Expired => 2
    }
    predicate HardEligible() {
      Fresh? || Stale?
    }
  }

  function FreshnessAt(s: Snapshot, now: i64): Result<Freshness, SnapshotError> {
    if now < s.observedAt then Err(ClockBeforeSnapshot)
    else if now < s.staleAt then Ok(Fresh)
    else if now < s.expiresAt then Ok(Stale)
    else Ok(Expired)
  }

  function RefreshDueAt(s: Snapshot, now: i64): Result<bool, SnapshotError> {
    if now < s.observedAt then Err(ClockBeforeSnapshot) else Ok(now >= s.refreshDueAt)
  }

  /** Freshness only moves Fresh, Stale, Expired; refresh is never due while Fresh and always due once Expired. */
  lemma FreshnessOnlyAges(s: Snapshot, now: i64, later: i64)
    requires Constructible(s) && s.observedAt <= now <= later
    ensures FreshnessAt(s, now).Ok? && FreshnessAt(s, later).Ok?
    ensures FreshnessAt(s, now).value.Rank() <= FreshnessAt(s, later).value.Rank()
    ensures FreshnessAt(s, s.observedAt) == Ok(Fresh)
    ensures RefreshDueAt(s, now).value ==> RefreshDueAt(s, later).value
    ensures FreshnessAt(s, now).value.Fresh? ==> RefreshDueAt(s, now) == Ok(false)
    ensures FreshnessAt(s, now).value.Expired? ==> RefreshDueAt(s, now) == Ok(true)
    ensures FreshnessAt(s, now).value.HardEligible() <==> now < s.expiresAt
    ensures FreshnessAt(s, now).value.Fresh? <==> now < s.staleAt
    ensures RefreshDueAt(s, now) == Ok(now >= s.refreshDueAt)
  {
    ConstructibleExactly(s);
  }
}
