/** The events that accepted applies return for one target, read as a log, under every interleaving. */
module DiffLog {
  import opened Basics
  import opened Models
  import opened Snapshots
  import opened CatalogDiff
  import opened DiffHistory
  import opened DiffRegistry

  /** The events of every applied snapshot, oldest first. */
  function Log(h: seq<Snapshot>): seq<DiffEvent>
    requires Serial(h).Ok?
  {
    if h == [] then []
    else Log(Front(h)) + PreviewOf(Serial(Front(h)).value, Last(h)).value.events
  }

  function Mine(log: seq<DiffEvent>, m: Model): seq<DiffEvent> {
    if log == [] then []
    else if Last(log).model == m then Mine(Front(log), m) + [Last(log)]
    else Mine(Front(log), m)
  }

  lemma {:induction false} MineConcat(a: seq<DiffEvent>, b: seq<DiffEvent>, m: Model)
    ensures Mine(a + b, m) == Mine(a, m) + Mine(b, m)
  {
    if b == [] {
      assert a + b == a;
    } else {
      MineConcat(a, Front(b), m);
      assert Front(a + b) == a + Front(b);
    }
  }

  // ---- One comparison reports a model at most once ----

  lemma {:induction false} MineAdded(added: seq<Model>, m: Model)
    requires Distinct(added)
    ensures Mine(AddedEvents(added), m) == if m in added then [Added(m)] else []
  {
    if added != [] {
      var rest := AddedEvents(added[..|added| - 1]);
      MineAdded(added[..|added| - 1], m);
      assert added == added[..|added| - 1] + [Last(added)];
      assert Front(AddedEvents(added)) == rest;
      if m == Last(added) { assert m !in added[..|added| - 1]; }
    }
  }

  lemma {:induction false} MineMissing(models: map<Model, ModelState>, missing: seq<Model>, now: i64, m: Model)
    requires AllStep(models, now, missing) && Distinct(missing)
    ensures Mine(MissEvents(models, missing, now), m) == if m in missing then [MissEvent(m, models[m], now)] else []
  {
    if missing != [] {
      var rest := MissEvents(models, missing[..|missing| - 1], now);
      MineMissing(models, missing[..|missing| - 1], now, m);
      assert missing == missing[..|missing| - 1] + [Last(missing)];
      assert Front(MissEvents(models, missing, now)) == rest;
      if m == Last(missing) { assert m !in missing[..|missing| - 1]; }
    }
  }

  /** The events one comparison reports about one model. */
  lemma DiffReportsOnce(previous: Option<TargetState>, s: Snapshot, m: Model)
    requires BuildDiff(previous, s).Ok?
    ensures var models := PreviousModels(previous);
            Mine(BuildDiff(previous, s).value.events, m) ==
            if m in s.models then (if m in models then [] else [Added(m)])
            else if m in models && Miss(models[m], s.observedAt).Ok? then [MissEvent(m, models[m], s.observedAt)]
            else []
  {
    var models := PreviousModels(previous);
    var seen := ModelSet(s.models);
    var added, missing := Ascending(seen - models.Keys), Ascending(models.Keys - seen);
    BuildDiffSucceedsIff(previous, s);
    AscendingMembers(seen - models.Keys, m);
    forall x ensures x in missing <==> x in models.Keys - seen { AscendingMembers(models.Keys - seen, x); }
    AscendingDistinct(seen - models.Keys);
    AscendingDistinct(models.Keys - seen);
    MineAdded(added, m);
    MineMissing(models, missing, s.observedAt, m);
    MineConcat(AddedEvents(added), MissEvents(models, missing, s.observedAt), m);
  }

  lemma {:induction false} MineMembers(log: seq<DiffEvent>, m: Model, e: DiffEvent)
    ensures e in Mine(log, m) <==> e in log && e.model == m
  {
    if log != [] {
      MineMembers(Front(log), m, e);
      assert log == Front(log) + [Last(log)];
    }
  }

  // ---- When an addition is reported ----

  ghost predicate NeverListed(h: seq<Snapshot>, m: Model) {
    forall i :: 0 <= i < |h| ==> m !in h[i].models
  }

  /** Last listed at `i`, missed at least three times since, and a day has passed since the first miss. */
  ghost predicate GoneSince(h: seq<Snapshot>, m: Model, i: nat) {
    && i + 3 < |h|
    && m in h[i].models
    && (forall j :: i < j < |h| ==> m !in h[j].models)
    && Last(h).observedAt >= h[i + 1].observedAt + DAY_MS
  }

  lemma ClosedFormNoneIff(h: seq<Snapshot>, m: Model)
    ensures ClosedForm(h, m).None? <==> NeverListed(h, m) || exists i :: GoneSince(h, m, i)
  {
    LastSeenMeans(h, m);
    if LastSeen(h, m).Some? {
      var i := LastSeen(h, m).value;
      forall j | GoneSince(h, m, j)
        ensures i == j
      {
      }
      if ClosedForm(h, m).None? { assert GoneSince(h, m, i); }
    }
  }

  /** A preview reports a model as added exactly when the snapshot lists it and the accepted history either never
      listed it or has meanwhile removed it. */
  lemma AddedExactlyWhen(h: seq<Snapshot>, s: Snapshot, m: Model)
    requires Serial(h).Ok? && PreviewOf(Serial(h).value, s).Ok?
    ensures Added(m) in PreviewOf(Serial(h).value, s).value.events <==>
            m in s.models && (NeverListed(h, m) || exists i :: GoneSince(h, m, i))
  {
    hide BuildDiff, NeverListed, GoneSince, Next, ClosedForm;
    var previous := Serial(h).value;
    DiffReportsOnce(previous, s, m);
    MineMembers(BuildDiff(previous, s).value.events, m, Added(m));
    IncrementalEqualsClosedForm(h, m);
    ClosedFormNoneIff(h, m);
  }

  /** The same for every preview issued in any interleaving, on the history it was made from. */
  lemma IssuedAddedExactlyWhen(steps: seq<Step>, k: nat, m: Model)
    requires k < |Run(steps).previews|
    ensures var w := Run(steps);
            var p, own := w.previews[k], Own(w.log, w.previews[k].target);
            && p.baseGeneration <= |own|
            && var h := own[..p.baseGeneration];
               Added(m) in p.events <==>
               m in w.sources[k].models && (NeverListed(h, m) || exists i :: GoneSince(h, m, i))
  {
    hide PreviewOf, Serial, NeverListed, GoneSince, Own, Run;
    var w := Run(steps);
    RunKeepsInv(steps);
    assert MadeFrom(w.previews[k], w.sources[k], Own(w.log, w.sources[k].target));
    AddedExactlyWhen(Own(w.log, w.sources[k].target)[..w.previews[k].baseGeneration], w.sources[k], m);
  }

  function Observed(models: seq<Model>, version: u64, at: i64): Snapshot
    requires at <= DAY_MS
  {
    Snapshot(Target("endpoint", "credential"), models, version, at, at + 1, at + 1, at + 2)
  }

  /** A model can be added twice: it is listed, missed three times over a day, and listed again. */
  lemma AddedTwice() returns (h: seq<Snapshot>, s: Snapshot, m: Model)
    ensures Constructible(s) && h != [] && forall i :: 0 <= i < |h| ==> Constructible(h[i])
    ensures Serial(h).Ok? && Serial(h + [s]).Ok?
    ensures PreviewOf(None, h[0]).Ok? && PreviewOf(Serial(h).value, s).Ok?
    ensures Added(m) in PreviewOf(None, h[0]).value.events
    ensures Added(m) in PreviewOf(Serial(h).value, s).value.events
  {
    hide PreviewOf, Next, Serial, NeverListed;
    m := Model("m");
    h := [Observed([m], 1, 0), Observed([], 2, 0), Observed([], 3, 0), Observed([], 4, DAY_MS)];
    s := Observed([m], 5, DAY_MS);
    forall x | x in h + [s]
      ensures Constructible(x)
    {
      ConstructibleExactly(x);
    }
    AcceptedIff(h);
    AcceptedIff(h + [s]);
    RefusedExactlyWhen(h, s);
    FirstIsAdded(h[0], m);
    assert GoneSince(h, m, 0);
    AddedExactlyWhen(h, s, m);
  }

  lemma FirstIsAdded(s: Snapshot, m: Model)
    requires m in s.models && 1 <= s.version
    ensures PreviewOf(None, s).Ok? && Added(m) in PreviewOf(None, s).value.events
  {
    hide PreviewOf, Next;
    assert Serial([]) == Ok(None);
    RefusedExactlyWhen([], s);
    AddedExactlyWhen([], s, m);
  }

  // ---- The language of one model's log ----

  datatype Trace = Out | In | Missing(count: nat, first: int)

  /** Reads one event of a model's log; None rejects it. */
  function Advance(t: Trace, e: DiffEvent): Option<Trace> {
    match e
    case Added(_) => if t.Out? then Some(In) else None
    case Suspected(_, count, first, eligible) =>
      if && !t.Out?
         && eligible == first + DAY_MS
         && (count == 1 || (t.Missing? && count == t.count + 1 && first == t.first))
      then Some(Missing(count, first)) else None
    case Removed(_, count, first) =>
      if t.Missing? && count == t.count + 1 && first == t.first && count >= 3 then Some(Out) else None
  }

  function Read(log: seq<DiffEvent>): Option<Trace> {
    if log == [] then Some(Out)
    else if Read(Front(log)).None? then None
    else Advance(Read(Front(log)).value, Last(log))
  }

  /** How the end of a model's log relates to its state. A model that reappears while suspected becomes present
      without an event, so a present model may still read as missing. */
  predicate Explains(t: Trace, state: Option<ModelState>) {
    match state
    case None => t.Out?
    case Some(Present) => !t.Out? && (t.Missing? ==> t.count >= 1)
    case Some(SuspectedRemoved(misses, first, eligible)) => t == Missing(misses, first) && eligible == first + DAY_MS && misses >= 1
  }

  lemma MissAdvances(t: Trace, state: ModelState, now: i64, m: Model)
    requires Explains(t, Some(state)) && Miss(state, now).Ok?
    ensures Advance(t, MissEvent(m, state, now)).Some?
    ensures Explains(Advance(t, MissEvent(m, state, now)).value, Miss(state, now).value)
  {
  }

  lemma ReadNext(log: seq<DiffEvent>, e: DiffEvent)
    requires Read(log).Some?
    ensures Read(log + [e]) == Advance(Read(log).value, e)
  {
    assert Front(log + [e]) == log;
  }

  lemma MineNext(h: seq<Snapshot>, m: Model)
    requires Serial(h).Ok? && h != []
    ensures var now := Last(h).observedAt;
            var before := StateOf(Front(h), m);
            Mine(Log(h), m) == Mine(Log(Front(h)), m) +
              if m in Last(h).models then (if before.Some? then [] else [Added(m)])
              else if before.Some? && Miss(before.value, now).Ok? then [MissEvent(m, before.value, now)]
              else []
  {
    hide BuildDiff;
    var previous := Serial(Front(h)).value;
    DiffReportsOnce(previous, Last(h), m);
    MineConcat(Log(Front(h)), PreviewOf(previous, Last(h)).value.events, m);
  }

  /** Every model's part of every serial log is in the language, and its end matches the stored state. */
  lemma {:induction false} SerialLogIsRead(h: seq<Snapshot>, m: Model)
    requires Serial(h).Ok?
    ensures Read(Mine(Log(h), m)).Some?
    ensures Explains(Read(Mine(Log(h), m)).value, StateOf(h, m))
  {
    hide BuildDiff, MissEvent;
    if h != [] {
      SerialLogIsRead(Front(h), m);
      MineNext(h, m);
      NextPointwise(Serial(Front(h)).value, Last(h), m);
      var earlier := Mine(Log(Front(h)), m);
      var before := StateOf(Front(h), m);
      assert earlier + [] == earlier;
      if m in Last(h).models {
        if before.None? { ReadNext(earlier, Added(m)); }
      } else if before.Some? {
        ReadNext(earlier, MissEvent(m, before.value, Last(h).observedAt));
        MissAdvances(Read(earlier).value, before.value, Last(h).observedAt, m);
      }
    }
  }

  // ---- What the language says ----

  function Flips(log: seq<DiffEvent>): seq<DiffEvent> {
    if log == [] then []
    else if Last(log).Suspected? then Flips(Front(log))
    else Flips(Front(log)) + [Last(log)]
  }

  /** Additions and removals strictly alternate, starting with an addition. */
  lemma {:induction false} FlipsAlternate(log: seq<DiffEvent>)
    requires Read(log).Some?
    ensures forall i :: 0 <= i < |Flips(log)| ==> (Flips(log)[i].Added? <==> i % 2 == 0)
    ensures Read(log).value.Out? <==> |Flips(log)| % 2 == 0
  {
    if log != [] {
      FlipsAlternate(Front(log));
    }
  }

  /** The last `count` events are suspicions numbered 1, 2, ..., count with one first-missing time. */
  ghost predicate CountsUp(log: seq<DiffEvent>, count: nat, first: int) {
    && 1 <= count <= |log|
    && forall i :: |log| - count <= i < |log| ==>
         && log[i].Suspected?
         && log[i].misses == i - (|log| - count) + 1
         && log[i].firstMissingAt == first
         && log[i].removalEligibleAt == first + DAY_MS
  }

  lemma {:induction false} MissingCountsUp(log: seq<DiffEvent>)
    requires Read(log).Some? && Read(log).value.Missing?
    ensures CountsUp(log, Read(log).value.count, Read(log).value.first)
  {
    var t := Read(log).value;
    if t.count > 1 {
      MissingCountsUp(Front(log));
      assert forall j :: 0 <= j < |log| - 1 ==> Front(log)[j] == log[j];
    }
  }

  lemma {:induction false} ReadPrefix(log: seq<DiffEvent>, n: nat)
    requires Read(log).Some? && n <= |log|
    ensures Read(log[..n]).Some?
  {
    if n < |log| {
      ReadPrefix(Front(log), n);
      assert Front(log)[..n] == log[..n];
    } else {
      assert log[..n] == log;
    }
  }

  /** A removal with count k follows immediately on suspicions 1, 2, ..., k - 1 of the same absence, and k >= 3. */
  lemma RemovalFollowsSuspicions(log: seq<DiffEvent>, i: nat)
    requires Read(log).Some? && i < |log| && log[i].Removed?
    ensures log[i].misses >= 3
    ensures CountsUp(log[..i], log[i].misses - 1, log[i].firstMissingAt)
  {
    ReadPrefix(log, i + 1);
    assert Front(log[..i + 1]) == log[..i];
    MissingCountsUp(log[..i]);
  }

  // ---- Replaying the log rebuilds the retained set ----

  function Replay(log: seq<DiffEvent>): set<Model> {
    if log == [] then {}
    else
      match Last(log)
      case Added(m) => Replay(Front(log)) + {m}
      case Removed(m, _, _) => Replay(Front(log)) - {m}
      case Suspected(_, _, _, _) => Replay(Front(log))
  }

  lemma {:induction false} ReplayIsPerModel(log: seq<DiffEvent>, m: Model)
    ensures m in Replay(log) <==> m in Replay(Mine(log, m))
  {
    if log != [] {
      ReplayIsPerModel(Front(log), m);
      if Last(log).model == m { assert Front(Mine(log, m)) == Mine(Front(log), m); }
    }
  }

  lemma {:induction false} ReplayReads(log: seq<DiffEvent>, m: Model)
    requires Read(log).Some? && forall e :: e in log ==> e.model == m
    ensures m in Replay(log) <==> !Read(log).value.Out?
  {
    if log != [] {
      assert Last(log) in log;
      ReplayReads(Front(log), m);
    }
  }

  lemma {:induction false} MineIsMine(log: seq<DiffEvent>, m: Model)
    ensures forall e :: e in Mine(log, m) ==> e.model == m
  {
    if log != [] { MineIsMine(Front(log), m); }
  }

  /** Replaying a serial log yields exactly the retained models. */
  lemma SerialReplay(h: seq<Snapshot>)
    requires Serial(h).Ok?
    ensures Replay(Log(h)) == PreviousModels(Serial(h).value).Keys
  {
    hide Next;
    forall m
      ensures m in Replay(Log(h)) <==> m in PreviousModels(Serial(h).value)
    {
      SerialLogIsRead(h, m);
      MineIsMine(Log(h), m);
      ReplayIsPerModel(Log(h), m);
      ReplayReads(Mine(Log(h), m), m);
    }
  }

  /** In every serial log a model's additions and removals alternate starting with an addition, and each
      removal completes its own run of at least two numbered suspicions. */
  lemma SerialLogLaw(h: seq<Snapshot>, m: Model)
    requires Serial(h).Ok?
    ensures var mine := Mine(Log(h), m);
            && (forall i :: 0 <= i < |Flips(mine)| ==> (Flips(mine)[i].Added? <==> i % 2 == 0))
            && (forall i :: 0 <= i < |mine| && mine[i].Removed? ==>
                  mine[i].misses >= 3 && CountsUp(mine[..i], mine[i].misses - 1, mine[i].firstMissingAt))
  {
    hide Next, Log, Mine;
    var mine := Mine(Log(h), m);
    SerialLogIsRead(h, m);
    FlipsAlternate(mine);
    forall i | 0 <= i < |mine| && mine[i].Removed?
      ensures mine[i].misses >= 3 && CountsUp(mine[..i], mine[i].misses - 1, mine[i].firstMissingAt)
    {
      RemovalFollowsSuspicions(mine, i);
    }
  }

  // ---- The applied log of every interleaving ----

  /** What one step of a run answers, if it is an accepted apply. */
  function AppliedBy(w: World, step: Step): Option<Applied> {
    if step.ApplyPreview? && step.k < |w.previews| then
      var p := w.previews[step.k];
      match Answer(Lookup(w.targets, p.target), p) case Err(_) => None case Ok(applied) => Some(applied)
    else None
  }

  /** The events of a target's accepted applies, in the order in which they were accepted. */
  function AppliedEvents(steps: seq<Step>, t: Target): seq<DiffEvent> {
    if steps == [] then []
    else
      var earlier := AppliedEvents(Front(steps), t);
      var applied := AppliedBy(Run(Front(steps)), Last(steps));
      if applied.Some? && applied.value.target == t then earlier + applied.value.events else earlier
  }

  lemma LogNext(own: seq<Snapshot>, s: Snapshot)
    requires Serial(own).Ok? && Serial(own + [s]).Ok?
    ensures PreviewOf(Serial(own).value, s).Ok?
    ensures Log(own + [s]) == Log(own) + PreviewOf(Serial(own).value, s).value.events
  {
    hide PreviewOf;
    assert Front(own + [s]) == own;
  }

  /** Under every interleaving of previews, copies and applies, a target's applied log is the serial log of its
      accepted snapshots. */
  lemma {:induction false} AppliedLogIsSerial(steps: seq<Step>, t: Target)
    ensures Serial(Own(Run(steps).log, t)).Ok?
    ensures AppliedEvents(steps, t) == Log(Own(Run(steps).log, t))
  {
    hide PreviewOf, ApplyTo, Serial, Log, Own;
    Serializable(steps, t);
    if steps == [] {
      NothingLogged(t);
    } else {
      AppliedLogIsSerial(Front(steps), t);
      var w, step := Run(Front(steps)), Last(steps);
      if AppliedBy(w, step).Some? {
        ApplyLogs(Front(steps), step.k, t);
      } else {
        assert Run(steps).log == w.log;
      }
    }
  }

  lemma NothingLogged(t: Target)
    ensures Own([], t) == [] && Serial([]) == Ok(None) && Log([]) == []
  {
  }

  /** An accepted apply adds its own snapshot's events to the log of its target and to no other. */
  lemma ApplyLogs(steps: seq<Step>, k: nat, t: Target)
    requires AppliedBy(Run(steps), ApplyPreview(k)).Some?
    ensures var w := Run(steps);
            var own, more := Own(w.log, t), Own(Do(w, ApplyPreview(k)).log, t);
            && Serial(own).Ok? && Serial(more).Ok?
            && Log(more) == if w.previews[k].target == t then Log(own) + w.previews[k].events else Log(own)
  {
    hide PreviewOf, Serial, Log, Own, Run;
    var w := Run(steps);
    RunKeepsInv(steps);
    assert MadeFrom(w.previews[k], w.sources[k], Own(w.log, w.sources[k].target));
    AcceptedApplyReadsCurrentState(w, k);
    OwnNext(w.log, w.sources[k], t);
    Serializable(steps, t);
    if w.previews[k].target == t { LogNext(Own(w.log, t), w.sources[k]); }
  }

  /** Under every interleaving, every model's part of the applied log is in the language and its end matches the
      stored state. */
  lemma LogIsRead(steps: seq<Step>, t: Target, m: Model)
    ensures var mine := Mine(AppliedEvents(steps, t), m);
            && Read(mine).Some?
            && Explains(Read(mine).value, Lookup(PreviousModels(Lookup(Run(steps).targets, t)), m))
  {
    hide Serial, Log, Read, Mine, Own, Run;
    AppliedLogIsSerial(steps, t);
    Serializable(steps, t);
    SerialLogIsRead(Own(Run(steps).log, t), m);
  }

  /** Under every interleaving, a model's additions and removals alternate starting with an addition, and each
      removal completes its own run of at least two numbered suspicions. */
  lemma LogLaw(steps: seq<Step>, t: Target, m: Model)
    ensures var mine := Mine(AppliedEvents(steps, t), m);
            && (forall i :: 0 <= i < |Flips(mine)| ==> (Flips(mine)[i].Added? <==> i % 2 == 0))
            && (forall i :: 0 <= i < |mine| && mine[i].Removed? ==>
                  mine[i].misses >= 3 && CountsUp(mine[..i], mine[i].misses - 1, mine[i].firstMissingAt))
  {
    hide Serial, Log, Mine, Own, Run;
    AppliedLogIsSerial(steps, t);
    SerialLogLaw(Own(Run(steps).log, t), m);
  }

  /** Under every interleaving, replaying a target's applied log yields exactly its retained models. */
  lemma ReplayRebuildsRetained(steps: seq<Step>, t: Target)
    ensures Replay(AppliedEvents(steps, t)) == PreviousModels(Lookup(Run(steps).targets, t)).Keys
  {
    hide Serial, Log, Own, Run, Replay;
    AppliedLogIsSerial(steps, t);
    Serializable(steps, t);
    SerialReplay(Own(Run(steps).log, t));
  }
}
