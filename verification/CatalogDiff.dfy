/** Comparing one successful snapshot with the state applied so far for its target. */
module CatalogDiff {
  import opened Basics
  import opened Models
  import opened Snapshots

  const MIN_MISSES_FOR_REMOVAL: u64 := 3
  const REMOVAL_ISOLATION_MS: i64 := DAY_MS

  datatype DiffError =
    | SnapshotVersionNotNewer
    | SnapshotObservedAtNotMonotonic
    | StalePreview
    | GenerationOverflow
    | ConsecutiveMissingOverflow
    | RemovalDeadlineOverflow

  datatype ModelState =
    | Present
    | SuspectedRemoved(misses: nat, firstMissingAt: int, removalEligibleAt: int)

  datatype DiffEvent =
    | Added(model: Model)
    | Suspected(model: Model, misses: nat, firstMissingAt: int, removalEligibleAt: int)
    | Removed(model: Model, misses: nat, firstMissingAt: int)

  datatype TargetState = TargetState(
    generation: u64,
    lastVersion: u64,
    lastObservedAt: i64,
    models: map<Model, ModelState>
  )

  datatype Diff = Diff(models: map<Model, ModelState>, events: seq<DiffEvent>)

  function PreviousModels(previous: Option<TargetState>): map<Model, ModelState> {
    if previous.Some? then previous.value.models else map[]
  }

  // ---- One model, absent from one snapshot ----

  /** A retained model that a successful snapshot omits: its next state, if it stays retained. */
  function Miss(state: ModelState, now: i64): Result<Option<ModelState>, DiffError> {
    match state
    case Present =>
      if now + REMOVAL_ISOLATION_MS > I64_MAX then Err(RemovalDeadlineOverflow)
      else Ok(Some(SuspectedRemoved(1, now, now + REMOVAL_ISOLATION_MS)))
    case SuspectedRemoved(misses, first, eligible) =>
      if misses >= U64_MAX then Err(ConsecutiveMissingOverflow)
      else if misses + 1 >= MIN_MISSES_FOR_REMOVAL && now >= eligible then Ok(None)
      else Ok(Some(SuspectedRemoved(misses + 1, first, eligible)))
  }

  function MissError(state: ModelState, now: i64): Option<DiffError> {
    if Miss(state, now).Err? then Some(Miss(state, now).error) else None
  }

  function MissEvent(model: Model, state: ModelState, now: i64): DiffEvent
    requires Miss(state, now).Ok?
  {
    match Miss(state, now).value
    case Some(s) => Suspected(model, s.misses, s.firstMissingAt, s.removalEligibleAt)
    case None => Removed(model, state.misses + 1, state.firstMissingAt)
  }

  // ---- The whole comparison, stated without loops ----

  function MissErrors(models: map<Model, ModelState>, missing: seq<Model>, now: i64): (r: seq<Option<DiffError>>)
    requires forall m :: m in missing ==> m in models
    ensures |r| == |missing|
    ensures forall i :: 0 <= i < |r| ==> r[i] == MissError(models[missing[i]], now)
  {
    if missing == [] then []
    else MissErrors(models, missing[..|missing| - 1], now) + [MissError(models[missing[|missing| - 1]], now)]
  }

  function AddedEvents(added: seq<Model>): seq<DiffEvent> {
    if added == [] then [] else AddedEvents(added[..|added| - 1]) + [Added(added[|added| - 1])]
  }

  function MissEvents(models: map<Model, ModelState>, missing: seq<Model>, now: i64): seq<DiffEvent>
    requires forall m :: m in missing ==> m in models && Miss(models[m], now).Ok?
  {
    if missing == [] then []
    else
      var last := missing[|missing| - 1];
      MissEvents(models, missing[..|missing| - 1], now) + [MissEvent(last, models[last], now)]
  }

  /** What one model becomes: the pointwise content of a comparison. */
  function NextModel(models: map<Model, ModelState>, seen: set<Model>, now: i64, m: Model): Option<ModelState> {
    if m in seen then Some(Present)
    else if m !in models || Miss(models[m], now).Err? then None
    else Miss(models[m], now).value
  }

  function NextModels(models: map<Model, ModelState>, seen: set<Model>, now: i64): map<Model, ModelState> {
    map m | m in models.Keys + seen && NextModel(models, seen, now, m).Some? :: NextModel(models, seen, now, m).value
  }

  lemma AscendingMembers(s: set<Model>, m: Model)
    ensures m in Ascending(s) <==> m in s
  {
    assert m in Ascending(s) <==> m in ModelSet(Ascending(s));
  }

  /** The comparison: the first failing missing model in model order decides the error; otherwise every
      model steps on its own and the additions are reported before the absences, each in model order. */
  function BuildDiff(previous: Option<TargetState>, snapshot: Snapshot): Result<Diff, DiffError>
  {
    var models := PreviousModels(previous);
    var seen := ModelSet(snapshot.models);
    var missing := Ascending(models.Keys - seen);
    var now := snapshot.observedAt;
    assert forall m :: m in missing ==> m in models by {
      forall m | m in missing ensures m in models { AscendingMembers(models.Keys - seen, m); }
    }
    var errors := MissErrors(models, missing, now);
    match FirstSome(errors)
    case Some(e) => Err(e)
    case None =>
      assert forall i :: 0 <= i < |missing| ==> errors[i] == MissError(models[missing[i]], now);
      Ok(Diff(NextModels(models, seen, now),
              AddedEvents(Ascending(seen - models.Keys)) + MissEvents(models, missing, now)))
  }

  /** A comparison succeeds exactly when no missing model overflows a counter or a deadline. */
  lemma BuildDiffSucceedsIff(previous: Option<TargetState>, snapshot: Snapshot)
    ensures BuildDiff(previous, snapshot).Ok? <==>
            forall m :: m in PreviousModels(previous) && m !in snapshot.models ==>
              Miss(PreviousModels(previous)[m], snapshot.observedAt).Ok?
    ensures BuildDiff(previous, snapshot).Err? ==>
            exists m :: m in PreviousModels(previous) && m !in snapshot.models &&
              MissError(PreviousModels(previous)[m], snapshot.observedAt) == Some(BuildDiff(previous, snapshot).error)
  {
    var models := PreviousModels(previous);
    var missing := Ascending(models.Keys - ModelSet(snapshot.models));
    forall m
      ensures m in missing <==> m in models && m !in snapshot.models
    {
      AscendingMembers(models.Keys - ModelSet(snapshot.models), m);
    }
    var errors := MissErrors(models, missing, snapshot.observedAt);
    assert forall i :: 0 <= i < |missing| ==> errors[i] == MissError(models[missing[i]], snapshot.observedAt);
    if FirstSome(errors).Some? {
      var i :| 0 <= i < |errors| && errors[i] == FirstSome(errors);
      assert missing[i] in missing;
    } else {
      forall m | m in models && m !in snapshot.models
        ensures Miss(models[m], snapshot.observedAt).Ok?
      {
        var i :| 0 <= i < |missing| && missing[i] == m;
        assert errors[i].None?;
      }
    }
  }

  lemma {:induction false} AddedEventAt(added: seq<Model>, i: nat)
    requires i < |added|
    ensures |AddedEvents(added)| == |added| && AddedEvents(added)[i] == Added(added[i])
  {
    var front := added[..|added| - 1];
    if front != [] { AddedEventAt(front, if i < |front| then i else 0); }
  }

  lemma {:induction false} MissEventAt(models: map<Model, ModelState>, missing: seq<Model>, now: i64, i: nat)
    requires forall m :: m in missing ==> m in models && Miss(models[m], now).Ok?
    requires i < |missing|
    ensures |MissEvents(models, missing, now)| == |missing|
    ensures MissEvents(models, missing, now)[i] == MissEvent(missing[i], models[missing[i]], now)
  {
    hide Miss, MissEvent;
    var front := missing[..|missing| - 1];
    if front != [] { MissEventAt(models, front, now, if i < |front| then i else 0); }
  }

  /** One addition for each name of one list, then one absence for each name of another, and nothing else. */
  ghost predicate Reports(events: seq<DiffEvent>, models: map<Model, ModelState>, now: i64, added: seq<Model>, missing: seq<Model>)
    requires forall m :: m in missing ==> m in models && Miss(models[m], now).Ok?
  {
    && |events| == |added| + |missing|
    && (forall i :: 0 <= i < |added| ==> events[i] == Added(added[i]))
    && (forall i :: 0 <= i < |missing| ==> events[|added| + i] == MissEvent(missing[i], models[missing[i]], now))
  }

  lemma ReportsInOrder(models: map<Model, ModelState>, now: i64, added: seq<Model>, missing: seq<Model>)
    requires forall m :: m in missing ==> m in models && Miss(models[m], now).Ok?
    ensures Reports(AddedEvents(added) + MissEvents(models, missing, now), models, now, added, missing)
  {
    var first, second := AddedEvents(added), MissEvents(models, missing, now);
    assert |first| == |added| by { if added != [] { AddedEventAt(added, 0); } }
    assert |second| == |missing| by { if missing != [] { MissEventAt(models, missing, now, 0); } }
    hide Miss, MissEvent, AddedEvents, MissEvents;
    forall i | 0 <= i < |added|
      ensures first[i] == Added(added[i])
    {
      AddedEventAt(added, i);
    }
    forall i | 0 <= i < |missing|
      ensures (first + second)[|added| + i] == MissEvent(missing[i], models[missing[i]], now)
    {
      MissEventAt(models, missing, now, i);
      assert (first + second)[|added| + i] == second[i];
    }
  }

  /** The events of a comparison: the new models, then the missing ones, each in strictly increasing model order. */
  lemma EventOrder(previous: Option<TargetState>, snapshot: Snapshot) returns (added: seq<Model>, missing: seq<Model>)
    requires BuildDiff(previous, snapshot).Ok?
    ensures StrictlySorted(added) && StrictlySorted(missing)
    ensures forall m :: m in added <==> m in snapshot.models && m !in PreviousModels(previous)
    ensures forall m :: m in missing <==> m in PreviousModels(previous) && m !in snapshot.models
    ensures forall m :: m in missing ==> Miss(PreviousModels(previous)[m], snapshot.observedAt).Ok?
    ensures Reports(BuildDiff(previous, snapshot).value.events, PreviousModels(previous), snapshot.observedAt, added, missing)
  {
    hide Miss, Reports, Ascending;
    var models, seen := PreviousModels(previous), ModelSet(snapshot.models);
    added, missing := Ascending(seen - models.Keys), Ascending(models.Keys - seen);
    forall m
      ensures m in added <==> m in snapshot.models && m !in models
      ensures m in missing <==> m in models && m !in snapshot.models
    {
      AscendingMembers(seen - models.Keys, m);
      AscendingMembers(models.Keys - seen, m);
    }
    BuildDiffSucceedsIff(previous, snapshot);
    ReportsInOrder(models, snapshot.observedAt, added, missing);
  }

  ghost predicate InModelOrder(events: seq<DiffEvent>) {
    forall i, j :: 0 <= i < j < |events| ==> Less(events[i].model, events[j].model)
  }

  /** The two blocks form one list in model order exactly when every new model precedes every missing one. */
  lemma InModelOrderIff(previous: Option<TargetState>, snapshot: Snapshot)
    requires BuildDiff(previous, snapshot).Ok?
    ensures InModelOrder(BuildDiff(previous, snapshot).value.events) <==>
            var models := PreviousModels(previous);
            forall a, m :: a in snapshot.models && a !in models && m in models && m !in snapshot.models ==> Less(a, m)
  {
    var added, missing := EventOrder(previous, snapshot);
    BlocksInOrder(BuildDiff(previous, snapshot).value.events, PreviousModels(previous), snapshot.observedAt, added, missing);
  }

  lemma BlocksInOrder(events: seq<DiffEvent>, models: map<Model, ModelState>, now: i64, added: seq<Model>, missing: seq<Model>)
    requires forall m :: m in missing ==> m in models && Miss(models[m], now).Ok?
    requires Reports(events, models, now, added, missing) && StrictlySorted(added) && StrictlySorted(missing)
    ensures InModelOrder(events) <==> forall a, m :: a in added && m in missing ==> Less(a, m)
  {
    hide Miss, Less;
    forall i | 0 <= i < |events|
      ensures events[i].model == if i < |added| then added[i] else missing[i - |added|]
    {
      if i >= |added| { assert events[|added| + (i - |added|)] == events[i]; }
    }
    if InModelOrder(events) {
      forall a, m | a in added && m in missing
        ensures Less(a, m)
      {
        var i :| 0 <= i < |added| && added[i] == a;
        var j :| 0 <= j < |missing| && missing[j] == m;
        assert Less(events[i].model, events[|added| + j].model);
      }
    }
  }

  // ---- The loops that compute it ----

  /** The names of a list that are not in `out`, in order: what a scan with `continue` visits. */
  function Keep(all: seq<Model>, out: set<Model>): seq<Model>
  {
    if all == [] then []
    else
      var last := all[|all| - 1];
      var kept := Keep(all[..|all| - 1], out);
      if last in out then kept else kept + [last]
  }

  lemma {:induction false} KeepMembers(all: seq<Model>, out: set<Model>, m: Model)
    ensures m in Keep(all, out) <==> m in all && m !in out
  {
    if all != [] {
      KeepMembers(all[..|all| - 1], out, m);
      assert all == all[..|all| - 1] + [all[|all| - 1]];
    }
  }

  lemma KeepNothing(all: seq<Model>, out: set<Model>)
    ensures Keep(all[..0], out) == []
  {
  }

  lemma KeepNext(all: seq<Model>, i: nat, out: set<Model>)
    requires i < |all|
    ensures Keep(all[..i + 1], out) == if all[i] in out then Keep(all[..i], out) else Keep(all[..i], out) + [all[i]]
  {
    assert all[..i + 1][..i] == all[..i];
  }

  lemma {:induction false} KeepPrefix(all: seq<Model>, i: nat, out: set<Model>)
    requires i <= |all|
    ensures Keep(all[..i], out) <= Keep(all, out)
    decreases |all| - i
  {
    if i < |all| {
      KeepNext(all, i, out);
      KeepPrefix(all, i + 1, out);
    } else {
      assert all[..i] == all;
    }
  }

  lemma {:induction false} KeepSorted(all: seq<Model>, out: set<Model>)
    requires StrictlySorted(all)
    ensures StrictlySorted(Keep(all, out))
  {
    if all != [] {
      var kept := Keep(all[..|all| - 1], out);
      KeepSorted(all[..|all| - 1], out);
      forall k | 0 <= k < |kept|
        ensures Less(kept[k], all[|all| - 1])
      {
        KeepMembers(all[..|all| - 1], out, kept[k]);
      }
    }
  }

  lemma KeepIsAscending(all: set<Model>, out: set<Model>)
    ensures Keep(Ascending(all), out) == Ascending(all - out)
  {
    KeepSorted(Ascending(all), out);
    forall m
      ensures m in Keep(Ascending(all), out) <==> m in all - out
    {
      KeepMembers(Ascending(all), out, m);
      AscendingMembers(all, m);
    }
    StrictlySortedUnique(Keep(Ascending(all), out), Ascending(all - out));
  }

  ghost predicate Distinct(s: seq<Model>) {
    forall i, j :: 0 <= i < j < |s| ==> s[i] != s[j]
  }

  function Marked(before: map<Model, ModelState>, source: seq<Model>): map<Model, ModelState> {
    if source == [] then before
    else Marked(before, source[..|source| - 1])[source[|source| - 1] := Present]
  }

  lemma {:induction false} MarkedGet(before: map<Model, ModelState>, source: seq<Model>, m: Model)
    ensures Lookup(Marked(before, source), m) == if m in source then Some(Present) else Lookup(before, m)
  {
    if source != [] {
      MarkedGet(before, source[..|source| - 1], m);
      assert source == source[..|source| - 1] + [source[|source| - 1]];
    }
  }

  /** Marks every listed model present and reports those that were not retained before. */
  method MarkPresent(before: map<Model, ModelState>, source: seq<Model>)
    returns (models: map<Model, ModelState>, events: seq<DiffEvent>)
    requires Distinct(source)
    ensures models == Marked(before, source)
    ensures events == AddedEvents(Keep(source, before.Keys))
  {
    models := before;
    events := [];
    for i := 0 to |source|
      invariant models == Marked(before, source[..i])
      invariant events == AddedEvents(Keep(source[..i], before.Keys))
    {
      var model := source[i];
      KeepNext(source, i, before.Keys);
      MarkedGet(before, source[..i], model);
      assert source[..i + 1][..i] == source[..i];
      if model !in models {
        events := events + [Added(model)];
      }
      models := models[model := Present];
    }
    assert source[..|source|] == source;
  }

  function Stepped(before: map<Model, ModelState>, now: i64, missing: seq<Model>, start: map<Model, ModelState>)
    : map<Model, ModelState>
    requires forall m :: m in missing ==> m in before && Miss(before[m], now).Ok?
  {
    if missing == [] then start
    else
      var last := missing[|missing| - 1];
      var rest := Stepped(before, now, missing[..|missing| - 1], start);
      match Miss(before[last], now).value
      case Some(state) => rest[last := state]
      case None => rest - {last}
  }

  lemma {:induction false} SteppedGet(before: map<Model, ModelState>, now: i64, missing: seq<Model>, start: map<Model, ModelState>, m: Model)
    requires forall m :: m in missing ==> m in before && Miss(before[m], now).Ok?
    ensures Lookup(Stepped(before, now, missing, start), m) ==
            if m in missing then Miss(before[m], now).value else Lookup(start, m)
  {
    if missing != [] {
      SteppedGet(before, now, missing[..|missing| - 1], start, m);
      assert missing == missing[..|missing| - 1] + [missing[|missing| - 1]];
    }
  }

  ghost predicate AllStep(before: map<Model, ModelState>, now: i64, missing: seq<Model>) {
    forall m :: m in missing ==> m in before && Miss(before[m], now).Ok?
  }

  lemma SteppedNext(before: map<Model, ModelState>, now: i64, missing: seq<Model>, start: map<Model, ModelState>, m: Model)
    requires AllStep(before, now, missing) && m in before && Miss(before[m], now).Ok?
    ensures AllStep(before, now, missing + [m])
    ensures MissEvents(before, missing + [m], now) == MissEvents(before, missing, now) + [MissEvent(m, before[m], now)]
    ensures Stepped(before, now, missing + [m], start) ==
            match Miss(before[m], now).value
            case Some(state) => Stepped(before, now, missing, start)[m := state]
            case None => Stepped(before, now, missing, start) - {m}
  {
    assert (missing + [m])[..|missing|] == missing;
  }

  /** Steps every listed model the snapshot omits, stopping at the first overflow. */
  method MarkMissing(before: map<Model, ModelState>, seen: set<Model>, now: i64, keys: seq<Model>,
                     start: map<Model, ModelState>, ghost missing: seq<Model>)
    returns (r: Result<Diff, DiffError>)
    requires forall m :: m in keys ==> m in before
    requires missing == Keep(keys, seen) && forall m :: m in missing ==> m in before
    ensures r.Err? ==> FirstSome(MissErrors(before, missing, now)) == Some(r.error)
    ensures r.Ok? ==>
            && AllStep(before, now, missing)
            && r.value == Diff(Stepped(before, now, missing, start), MissEvents(before, missing, now))
  {
    hide FirstSome, MissErrors, Keep;
    var models, events := start, [];
    ghost var done: seq<Model> := [];
    KeepNothing(keys, seen);
    for i := 0 to |keys|
      invariant done == Keep(keys[..i], seen) && AllStep(before, now, done)
      invariant events == MissEvents(before, done, now)
      invariant models == Stepped(before, now, done, start)
    {
      var model := keys[i];
      KeepNext(keys, i, seen);
      if model in seen {
        continue;
      }
      match Miss(before[model], now) {
        case Err(e) =>
          KeepPrefix(keys, i + 1, seen);
          FirstErrorAt(before, now, missing, |done|);
          return Err(e);
        case Ok(Some(state)) =>
          SteppedNext(before, now, done, start, model);
          models := models[model := state];
          events := events + [Suspected(model, state.misses, state.firstMissingAt, state.removalEligibleAt)];
        case Ok(None) =>
          SteppedNext(before, now, done, start, model);
          models := models - {model};
          events := events + [Removed(model, before[model].misses + 1, before[model].firstMissingAt)];
      }
      done := done + [model];
    }
    assert keys[..|keys|] == keys;
    r := Ok(Diff(models, events));
  }

  lemma FirstErrorAt(models: map<Model, ModelState>, now: i64, missing: seq<Model>, i: nat)
    requires i < |missing| && forall m :: m in missing ==> m in models
    requires forall j :: 0 <= j < i ==> Miss(models[missing[j]], now).Ok?
    requires Miss(models[missing[i]], now).Err?
    ensures FirstSome(MissErrors(models, missing, now)) == Some(Miss(models[missing[i]], now).error)
  {
    FirstSomeAt(MissErrors(models, missing, now), i);
  }

  lemma AscendingDistinct(s: set<Model>)
    ensures Distinct(Ascending(s))
  {
    forall m: Model ensures !Less(m, m) { LessIrreflexive(m); }
  }

  method BuildCatalogDiff(previous: Option<TargetState>, snapshot: Snapshot) returns (r: Result<Diff, DiffError>)
    ensures r == BuildDiff(previous, snapshot)
  {
    var before := PreviousModels(previous);
    var seen := ModelSet(snapshot.models);
    var now := snapshot.observedAt;
    var source, keys := Ascending(seen), Ascending(before.Keys);
    ScanOrders(before, seen, source, keys);
    var marked, added := MarkPresent(before, source);
    r := MarkMissing(before, seen, now, keys, marked, Ascending(before.Keys - seen));
    BuildDiffSucceedsIff(previous, snapshot);
    if r.Ok? {
      StepsPointwise(before, seen, now, source, keys);
      r := Ok(Diff(r.value.models, added + r.value.events));
    }
  }

  lemma ScanOrders(before: map<Model, ModelState>, seen: set<Model>, source: seq<Model>, keys: seq<Model>)
    requires source == Ascending(seen) && keys == Ascending(before.Keys)
    ensures Distinct(source) && Distinct(keys)
    ensures forall m :: m in source <==> m in seen
    ensures forall m :: m in keys <==> m in before
    ensures Keep(source, before.Keys) == Ascending(seen - before.Keys)
    ensures Keep(keys, seen) == Ascending(before.Keys - seen)
    ensures forall m :: m in Ascending(before.Keys - seen) ==> m in before
  {
    AscendingDistinct(seen);
    AscendingDistinct(before.Keys);
    forall m
      ensures m in source <==> m in seen
      ensures m in keys <==> m in before
    {
      AscendingMembers(seen, m);
      AscendingMembers(before.Keys, m);
    }
    forall m | m in Ascending(before.Keys - seen)
      ensures m in before
    {
      AscendingMembers(before.Keys - seen, m);
    }
    KeepIsAscending(seen, before.Keys);
    KeepIsAscending(before.Keys, seen);
  }

  /** Marking and then stepping, one model at a time, is the pointwise comparison. */
  lemma StepsPointwise(before: map<Model, ModelState>, seen: set<Model>, now: i64, source: seq<Model>, keys: seq<Model>)
    requires forall m :: m in source <==> m in seen
    requires forall m :: m in keys <==> m in before
    requires AllStep(before, now, Keep(keys, seen))
    ensures Stepped(before, now, Keep(keys, seen), Marked(before, source)) == NextModels(before, seen, now)
  {
    var stepped := Stepped(before, now, Keep(keys, seen), Marked(before, source));
    forall m
      ensures Lookup(stepped, m) == NextModel(before, seen, now, m)
    {
      MarkedGet(before, source, m);
      KeepMembers(keys, seen, m);
      SteppedGet(before, now, Keep(keys, seen), Marked(before, source), m);
    }
    assert forall m :: m in stepped <==> Lookup(stepped, m).Some?;
  }
}
