/** One store feeding one registry: what becomes of a recorded success that is previewed and applied in turn. */
module CatalogCycle {
  import opened Basics
  import opened Models
  import opened Snapshots
  import opened CatalogDiff
  import opened DiffHistory
  import opened DiffRegistry
  import Store = SnapshotStore

  datatype Action =
    | Record(target: Target, models: seq<Model>, observedAt: i64)
    | PreviewRecorded(j: nat)
    | Apply(k: nat)

  /** The store's contents, every success it ever recorded, and the registry steps taken so far. */
  datatype Catalog = Catalog(store: Store.Contents, recorded: seq<Snapshot>, steps: seq<Step>)

  function Act(policy: FreshnessPolicy, c: Catalog, action: Action): Catalog {
    match action
    case Record(target, models, observedAt) =>
      var r := Store.Recorded(policy, c.store, target, models, observedAt);
      if r.Err? then c else c.(store := c.store[target := r.value], recorded := c.recorded + [r.value])
    case PreviewRecorded(j) =>
      if j >= |c.recorded| then c else c.(steps := c.steps + [PreviewSnapshot(c.recorded[j])])
    case Apply(k) => c.(steps := c.steps + [ApplyPreview(k)])
  }

  function Go(policy: FreshnessPolicy, actions: seq<Action>): Catalog {
    if actions == [] then Catalog(map[], [], []) else Act(policy, Go(policy, Front(actions)), Last(actions))
  }

  function OwnLog(policy: FreshnessPolicy, actions: seq<Action>, t: Target): seq<Snapshot> {
    Own(Run(Go(policy, actions).steps).log, t)
  }

  /** A snapshot this store recorded, no newer than what the store now retains for its target. */
  ghost predicate FromStore(policy: FreshnessPolicy, store: Store.Contents, s: Snapshot) {
    && s.target in store
    && 1 <= s.version <= store[s.target].version
    && s.observedAt <= store[s.target].observedAt
    && s.observedAt + policy.expiresAfter <= I64_MAX
  }

  ghost predicate Linked(policy: FreshnessPolicy, c: Catalog) {
    && (forall i :: 0 <= i < |c.recorded| ==> FromStore(policy, c.store, c.recorded[i]))
    && (forall i :: 0 <= i < |c.steps| && c.steps[i].PreviewSnapshot? ==> FromStore(policy, c.store, c.steps[i].snapshot))
  }

  lemma {:induction false} GoLinks(policy: FreshnessPolicy, actions: seq<Action>)
    requires policy.Ordered()
    ensures Linked(policy, Go(policy, actions))
  {
    if actions != [] {
      var c := Go(policy, Front(actions));
      GoLinks(policy, Front(actions));
      match Last(actions)
      case Record(target, models, observedAt) => RecordedIsNewest(policy, c, target, models, observedAt);
      case _ =>
    }
  }

  /** A recorded success has a larger version than, and is not older than, everything recorded before it. */
  lemma RecordedIsNewest(policy: FreshnessPolicy, c: Catalog, t: Target, models: seq<Model>, observedAt: i64)
    requires policy.Ordered() && Linked(policy, c)
    ensures var r := Store.Recorded(policy, c.store, t, models, observedAt);
            r.Ok? ==>
              && FromStore(policy, c.store[t := r.value], r.value)
              && r.value.target == t
              && (forall s :: FromStore(policy, c.store, s) && s.target == t ==>
                    s.version < r.value.version && s.observedAt <= r.value.observedAt)
              && (forall s :: FromStore(policy, c.store, s) ==> FromStore(policy, c.store[t := r.value], s))
  {
  }

  lemma {:induction false} GoGrows(policy: FreshnessPolicy, a: seq<Action>, b: seq<Action>)
    requires a <= b
    ensures Go(policy, a).recorded <= Go(policy, b).recorded && Go(policy, a).steps <= Go(policy, b).steps
  {
    if a != b {
      assert a <= Front(b);
      GoGrows(policy, a, Front(b));
    }
  }

  lemma {:induction false} LogFromStore(policy: FreshnessPolicy, store: Store.Contents, steps: seq<Step>)
    requires forall i :: 0 <= i < |steps| && steps[i].PreviewSnapshot? ==> FromStore(policy, store, steps[i].snapshot)
    ensures forall s :: s in Run(steps).sources || s in Run(steps).log ==> FromStore(policy, store, s)
  {
    hide PreviewOf, ApplyTo, FromStore;
    if steps != [] {
      LogFromStore(policy, store, Front(steps));
    }
  }

  lemma {:induction false} OwnIsOwn(log: seq<Snapshot>, t: Target)
    ensures forall s :: s in Own(log, t) ==> s in log && s.target == t
  {
    if log != [] { OwnIsOwn(Front(log), t); }
  }

  lemma StepsNumbered(policy: FreshnessPolicy, actions: seq<Action>)
    requires policy.Ordered()
    ensures NumberedSteps(Go(policy, actions).steps)
  {
    GoLinks(policy, actions);
  }

  /** Previewing a just-recorded success while its target's applied history is unchanged: the version and clock
      checks pass, and only the end of time can refuse it. */
  lemma RecordedPreviews(policy: FreshnessPolicy, before: seq<Action>, t: Target, models: seq<Model>, at: i64, now: seq<Action>)
    requires policy.Ordered()
    requires Store.Recorded(policy, Go(policy, before).store, t, models, at).Ok?
    requires before + [Record(t, models, at)] <= now && OwnLog(policy, now, t) == OwnLog(policy, before, t)
    ensures var s := Store.Recorded(policy, Go(policy, before).store, t, models, at).value;
            var own := OwnLog(policy, now, t);
            var r := PreviewOf(Lookup(Run(Go(policy, now).steps).targets, t), s);
            && s.target == t && 1 <= s.version
            && (r.Err? <==> own != [] && Vanishes(Last(own), s) && s.observedAt + DAY_MS > I64_MAX)
            && (r.Err? ==> r.error == RemovalDeadlineOverflow)
            && (policy.expiresAfter >= DAY_MS ==> r.Ok?)
  {
    hide PreviewOf, FromStore, Run, Own, Next, Go;
    var c := Go(policy, before);
    var s := Store.Recorded(policy, c.store, t, models, at).value;
    GoLinks(policy, before);
    RecordedIsNewest(policy, c, t, models, at);
    NewestIsNumbered(policy, c.store[t := s], s);
    LogFromStore(policy, c.store, c.steps);
    var own := OwnLog(policy, before, t);
    OwnIsOwn(Run(c.steps).log, t);
    StepsNumbered(policy, now);
    SourcesNumbered(Go(policy, now).steps);
    OwnNumbered(Run(Go(policy, now).steps).log, t);
    Serializable(Go(policy, now).steps, t);
    if own != [] { assert Last(own) in own; }
    RefusedExactlyWhen(own, s);
  }

  lemma NewestIsNumbered(policy: FreshnessPolicy, store: Store.Contents, s: Snapshot)
    requires FromStore(policy, store, s)
    ensures 1 <= s.version && s.observedAt + policy.expiresAfter <= I64_MAX
  {
  }

  /** The whole cycle: record a success, later preview it, later apply it, with no other apply for that target
      accepted in between. Whatever happens on other targets, the preview is issued and its apply accepted exactly
      unless a model vanishes within a day of the end of time; no stale, version or clock error is ever reported. */
  lemma RecordedSuccessApplies(policy: FreshnessPolicy, before: seq<Action>, t: Target, models: seq<Model>, at: i64,
                               previewed: seq<Action>, applied: seq<Action>)
    requires policy.Ordered()
    requires Store.Recorded(policy, Go(policy, before).store, t, models, at).Ok?
    requires before + [Record(t, models, at)] <= previewed
    requires previewed + [PreviewRecorded(|Go(policy, before).recorded|)] <= applied
    requires OwnLog(policy, before, t) == OwnLog(policy, previewed, t) == OwnLog(policy, applied, t)
    ensures var s := Store.Recorded(policy, Go(policy, before).store, t, models, at).value;
            var k := |Run(Go(policy, previewed).steps).previews|;
            var w := Run(Go(policy, applied).steps);
            var own := OwnLog(policy, before, t);
            var issued := PreviewOf(Lookup(Run(Go(policy, previewed).steps).targets, t), s);
            && (issued.Err? <==> own != [] && Vanishes(Last(own), s) && s.observedAt + DAY_MS > I64_MAX)
            && (issued.Err? ==> issued.error == RemovalDeadlineOverflow)
            && (policy.expiresAfter >= DAY_MS ==> issued.Ok?)
            && (issued.Ok? ==> && k < |w.previews| && w.sources[k] == s && w.previews[k] == issued.value
                               && ApplyTo(Lookup(w.targets, t), w.previews[k]).Ok?
                               && Do(w, ApplyPreview(k)).log == w.log + [s])
  {
    hide PreviewOf, Store.Recorded, Go, Run, Own;
    var s := Store.Recorded(policy, Go(policy, before).store, t, models, at).value;
    CycleSteps(policy, before, t, models, at, previewed, applied);
    RecordedPreviews(policy, before, t, models, at, previewed);
    StepsNumbered(policy, applied);
    if PreviewOf(Lookup(Run(Go(policy, previewed).steps).targets, t), s).Ok? {
      AppliesIffUndisturbed(Go(policy, previewed).steps, s, Go(policy, applied).steps);
      IssuedTargets(Go(policy, applied).steps, |Run(Go(policy, previewed).steps).previews|);
    }
  }

  lemma CycleSteps(policy: FreshnessPolicy, before: seq<Action>, t: Target, models: seq<Model>, at: i64,
                   previewed: seq<Action>, applied: seq<Action>)
    requires Store.Recorded(policy, Go(policy, before).store, t, models, at).Ok?
    requires before + [Record(t, models, at)] <= previewed
    requires previewed + [PreviewRecorded(|Go(policy, before).recorded|)] <= applied
    ensures var s := Store.Recorded(policy, Go(policy, before).store, t, models, at).value;
            Go(policy, previewed).steps + [PreviewSnapshot(s)] <= Go(policy, applied).steps
  {
    hide Store.Recorded;
    var j := |Go(policy, before).recorded|;
    var recorded := before + [Record(t, models, at)];
    var s := Store.Recorded(policy, Go(policy, before).store, t, models, at).value;
    assert Front(recorded) == before && Last(recorded) == Record(t, models, at);
    assert Go(policy, recorded).recorded[j] == s;
    GoGrows(policy, recorded, previewed);
    var issued := previewed + [PreviewRecorded(j)];
    assert Front(issued) == previewed && Last(issued) == PreviewRecorded(j);
    assert Go(policy, issued).steps == Go(policy, previewed).steps + [PreviewSnapshot(s)];
    GoGrows(policy, issued, applied);
  }

  lemma IssuedTargets(steps: seq<Step>, k: nat)
    requires k < |Run(steps).previews|
    ensures Run(steps).previews[k].target == Run(steps).sources[k].target
  {
    RunKeepsInv(steps);
    assert MadeFrom(Run(steps).previews[k], Run(steps).sources[k], Own(Run(steps).log, Run(steps).sources[k].target));
  }
}
