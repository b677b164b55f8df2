/** The last-success registry and what every sequence of calls on it retains. */
module SnapshotStore {
  import opened Basics
  import opened Models
  import opened Snapshots

  type Contents = map<Target, Snapshot>

  function NextVersion(retained: Contents, target: Target, observedAt: i64): Result<u64, SnapshotError> {
    if target !in retained then Ok(1)
    else if observedAt < retained[target].observedAt then Err(TimestampNotMonotonic)
    else if retained[target].version == U64_MAX then Err(SnapshotVersionOverflow)
    else Ok(retained[target].version + 1)
  }

  /** The snapshot one successful discovery would be recorded as. */
  function Recorded(policy: FreshnessPolicy, retained: Contents, target: Target, models: seq<Model>, observedAt: i64)
    : Result<Snapshot, SnapshotError>
  {
    match NextVersion(retained, target, observedAt)
    case Err(e) => Err(e)
    case Ok(version) => TryNewSnapshot(target, models, version, observedAt, policy)
  }

  /** What recording yields and which error it reports, against the snapshot retained so far. */
  lemma RecordedMeans(policy: FreshnessPolicy, retained: Contents, target: Target, models: seq<Model>, observedAt: i64)
    ensures var r := Recorded(policy, retained, target, models, observedAt);
            var version := if target in retained then retained[target].version + 1 else 1;
            var earlier := target in retained && observedAt < retained[target].observedAt;
            var exhausted := version > U64_MAX;
            && (r.Ok? ==> Records(r.value, target, models, version, observedAt, policy))
            && (r.Ok? <==> !earlier && !exhausted && 0 <= observedAt && DeadlinesFit(observedAt, policy))
            && (r == Err(TimestampNotMonotonic) <==> earlier)
            && (r == Err(SnapshotVersionOverflow) <==> !earlier && exhausted)
            && (r == Err(TimestampBeforeUnixEpoch) <==> !earlier && !exhausted && observedAt < 0)
            && (r == Err(TimestampOverflow) <==> !earlier && !exhausted && 0 <= observedAt && !DeadlinesFit(observedAt, policy))
  {
    hide TryNewSnapshot, Records, DeadlinesFit;
    var next := NextVersion(retained, target, observedAt);
    if next.Ok? { SnapshotMeans(target, models, next.value, observedAt, policy); }
  }

  datatype Status = Status(snapshot: Snapshot, freshness: Freshness, refreshDue: bool)

  class CatalogSnapshotStore {
    const policy: FreshnessPolicy
    var snapshots: Contents
    ghost var calls: seq<Call>

    /** The policy is one that can be built, and the snapshots are those the recording calls so far have left. */
    ghost predicate Valid()
      reads this
    {
      policy.Ordered() && snapshots == Retained(policy, calls)
    }

    constructor (policy: FreshnessPolicy)
      requires policy.Ordered()
      ensures Valid() && this.policy == policy && calls == []
    {
      this.policy := policy;
      snapshots := map[];
      calls := [];
    }

    method RecordSuccess(target: Target, models: seq<Model>, observedAt: i64) returns (r: Result<Snapshot, SnapshotError>)
      requires Valid()
      modifies this
      ensures Valid() && calls == old(calls) + [Call.RecordSuccess(target, models, observedAt)]
      ensures r == Recorded(policy, old(snapshots), target, models, observedAt)
      ensures r.Ok? ==>
                var version := if target in old(snapshots) then old(snapshots)[target].version + 1 else 1;
                Records(r.value, target, models, version, observedAt, policy)
      ensures snapshots == if r.Ok? then old(snapshots)[target := r.value] else old(snapshots)
    {
      calls := calls + [Call.RecordSuccess(target, models, observedAt)];
      assert calls[..|calls| - 1] == old(calls);
      var version: u64 := 1;
      if target in snapshots {
        var previous := snapshots[target];
        if observedAt < previous.observedAt {
          return Err(TimestampNotMonotonic);
        }
        if previous.version == U64_MAX {
          return Err(SnapshotVersionOverflow);
        }
        version := previous.version + 1;
      }
      r := NewSnapshot(target, models, version, observedAt, policy);
      if r.Ok? {
        snapshots := snapshots[target := r.value];
      }
    }

    method RetainLastSuccessOnFailure(target: Target) returns (r: Option<Snapshot>)
      requires Valid()
      ensures IsLastAccepted(policy, calls, target, r)
    {
      RetainsLastAccepted(policy, calls, target);
      r := Lookup(snapshots, target);
    }

    method LastSuccess(target: Target) returns (r: Option<Snapshot>)
      requires Valid()
      ensures IsLastAccepted(policy, calls, target, r)
      ensures r.Some? ==> target in snapshots && r.value == snapshots[target]
    {
      RetainsLastAccepted(policy, calls, target);
      r := Lookup(snapshots, target);
    }

    method StatusAt(target: Target, now: i64) returns (r: Result<Option<Status>, SnapshotError>)
      requires Valid()
      ensures r == Ok(None) <==> target !in snapshots
      ensures r.Err? <==> target in snapshots && now < snapshots[target].observedAt
      ensures r.Err? ==> r.error == ClockBeforeSnapshot
      ensures r.Ok? && r.value.Some? ==>
              && r.value.value.snapshot == snapshots[target]
              && (r.value.value.freshness.Fresh? <==> now < snapshots[target].staleAt)
              && (r.value.value.freshness.Expired? <==> now >= snapshots[target].expiresAt)
              && (r.value.value.refreshDue <==> now >= snapshots[target].refreshDueAt)
    {
      RetainsLastAccepted(policy, calls, target);
      AcceptedHistoryIsMonotone(policy, calls, target);
      if target in snapshots { ConstructibleExactly(snapshots[target]); }
      var found := LastSuccess(target);
      if found.None? {
        return Ok(None);
      }
      var freshness := FreshnessAt(found.value, now);
      if freshness.Err? {
        return Err(freshness.error);
      }
      var due := RefreshDueAt(found.value, now);
      return Ok(Some(Status(found.value, freshness.value, due.value)));
    }
  }

  // ---- Every sequence of calls ----

  datatype Call =
    | RecordSuccess(target: Target, models: seq<Model>, observedAt: i64)
    | RetainOnFailure(target: Target)
    | StatusAt(target: Target, now: i64)

  function After(policy: FreshnessPolicy, retained: Contents, call: Call): Contents {
    match call
    case RecordSuccess(target, models, observedAt) =>
      var r := Recorded(policy, retained, target, models, observedAt);
      if r.Ok? then retained[target := r.value] else retained
    case _ => retained
  }

  /** The store's contents after the calls, oldest first, on an empty store. */
  function Retained(policy: FreshnessPolicy, calls: seq<Call>): Contents {
    if calls == [] then map[]
    else After(policy, Retained(policy, calls[..|calls| - 1]), calls[|calls| - 1])
  }

  datatype Success = Success(models: seq<Model>, observedAt: i64)

  /** Reference rule, stated without versions or snapshots: a success joins its target's history when it is
      not before the epoch, does not precede the history's last entry and its expiry is representable. */
  function Accepted(policy: FreshnessPolicy, calls: seq<Call>, target: Target): seq<Success> {
    if calls == [] then []
    else
      var earlier := Accepted(policy, calls[..|calls| - 1], target);
      var call := calls[|calls| - 1];
      if && call.RecordSuccess?
         && call.target == target
         && 0 <= call.observedAt
         && (earlier != [] ==> earlier[|earlier| - 1].observedAt <= call.observedAt)
         && call.observedAt + policy.expiresAfter <= I64_MAX
         && |earlier| < U64_MAX
      then earlier + [Success(call.models, call.observedAt)]
      else earlier
  }

  /** The last accepted success of the target, as the snapshot numbered by how many were accepted. */
  ghost predicate IsLastAccepted(policy: FreshnessPolicy, calls: seq<Call>, target: Target, r: Option<Snapshot>) {
    var h := Accepted(policy, calls, target);
    && (r.None? <==> h == [])
    && |h| <= U64_MAX
    && (r.Some? ==> Records(r.value, target, h[|h| - 1].models, |h|, h[|h| - 1].observedAt, policy))
  }

  /** A target retains its last accepted success, numbered by how many were accepted; calls for other
      targets, rejected calls and read-only calls leave no trace. */
  lemma {:induction false} RetainsLastAccepted(policy: FreshnessPolicy, calls: seq<Call>, target: Target)
    requires policy.Ordered()
    ensures IsLastAccepted(policy, calls, target, Lookup(Retained(policy, calls), target))
  {
    hide Recorded;
    if calls != [] {
      var call, before := calls[|calls| - 1], Retained(policy, calls[..|calls| - 1]);
      RetainsLastAccepted(policy, calls[..|calls| - 1], target);
      if call.RecordSuccess? { RecordedMeans(policy, before, call.target, call.models, call.observedAt); }
    }
  }

  ghost predicate MonotoneHistory(policy: FreshnessPolicy, h: seq<Success>) {
    && (forall i, j :: 0 <= i <= j < |h| ==> h[i].observedAt <= h[j].observedAt)
    && (forall i :: 0 <= i < |h| ==> 0 <= h[i].observedAt && h[i].observedAt + policy.expiresAfter <= I64_MAX)
  }

  /** Accepted observation times never decrease, and what is retained is always a constructible snapshot. */
  lemma {:induction false} AcceptedHistoryIsMonotone(policy: FreshnessPolicy, calls: seq<Call>, target: Target)
    requires policy.Ordered()
    ensures MonotoneHistory(policy, Accepted(policy, calls, target))
    ensures target in Retained(policy, calls) ==> Constructible(Retained(policy, calls)[target])
  {
    hide Retained;
    if calls != [] {
      var earlier := Accepted(policy, calls[..|calls| - 1], target);
      AcceptedHistoryIsMonotone(policy, calls[..|calls| - 1], target);
      assert earlier != [] ==> forall i :: 0 <= i < |earlier| ==> earlier[i].observedAt <= earlier[|earlier| - 1].observedAt;
      assert MonotoneHistory(policy, Accepted(policy, calls, target));
    }
    RetainsLastAccepted(policy, calls, target);
    if target in Retained(policy, calls) { ConstructibleExactly(Retained(policy, calls)[target]); }
  }

  /** Targets do not interact: a target retains what its own calls alone would have left. */
  lemma {:induction false} TargetsAreIsolated(policy: FreshnessPolicy, calls: seq<Call>, target: Target)
    requires policy.Ordered()
    ensures Accepted(policy, calls, target) == Accepted(policy, OwnCalls(calls, target), target)
    ensures Lookup(Retained(policy, calls), target) == Lookup(Retained(policy, OwnCalls(calls, target)), target)
  {
    hide Retained, Records;
    OwnCallsAccepted(policy, calls, target);
    RetainsLastAccepted(policy, calls, target);
    RetainsLastAccepted(policy, OwnCalls(calls, target), target);
    var a, b := Lookup(Retained(policy, calls), target), Lookup(Retained(policy, OwnCalls(calls, target)), target);
    var h := Accepted(policy, calls, target);
    if h != [] { RecordsOnce(a.value, b.value, target, h[|h| - 1].models, |h|, h[|h| - 1].observedAt, policy); }
  }

  function OwnCalls(calls: seq<Call>, target: Target): seq<Call> {
    if calls == [] then []
    else
      var earlier := OwnCalls(calls[..|calls| - 1], target);
      if calls[|calls| - 1].target == target then earlier + [calls[|calls| - 1]] else earlier
  }

  lemma {:induction false} OwnCallsAccepted(policy: FreshnessPolicy, calls: seq<Call>, target: Target)
    ensures Accepted(policy, calls, target) == Accepted(policy, OwnCalls(calls, target), target)
  {
    if calls != [] {
      OwnCallsAccepted(policy, calls[..|calls| - 1], target);
      var own := OwnCalls(calls, target);
      if calls[|calls| - 1].target == target {
        assert own[..|own| - 1] == OwnCalls(calls[..|calls| - 1], target);
      }
    }
  }
}
