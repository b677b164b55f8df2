/** The Preview/Apply registry: a mutable map guarded by generations, and every interleaving on it. */
module DiffRegistry {
  import opened Basics
  import opened Models
  import opened Snapshots
  import opened CatalogDiff
  import opened DiffHistory

  datatype Applied = Applied(target: Target, snapshotVersion: u64, generation: u64, events: seq<DiffEvent>)

  /** What applying a preview answers. */
  function Answer(current: Option<TargetState>, preview: Preview): Result<Applied, DiffError> {
    match ApplyTo(current, preview)
    case Err(e) => Err(e)
    case Ok(state) => Ok(Applied(preview.target, preview.snapshotVersion, state.generation, preview.events))
  }

  class CatalogDiffRegistry {
    var targets: map<Target, TargetState>

    constructor ()
      ensures targets == map[]
    {
      targets := map[];
    }

    method Preview(snapshot: Snapshot) returns (r: Result<Preview, DiffError>)
      ensures r == PreviewOf(Lookup(targets, snapshot.target), snapshot)
    {
      var previous := Lookup(targets, snapshot.target);
      var refused := ValidateSnapshot(previous, snapshot);
      if refused.Some? {
        return Err(refused.value);
      }
      var base := Generation(previous);
      var diff := BuildCatalogDiff(previous, snapshot);
      if diff.Err? {
        return Err(diff.error);
      }
      var next := TargetState(base, snapshot.version, snapshot.observedAt, diff.value.models);
      return Ok(DiffHistory.Preview(snapshot.target, snapshot.version, base, diff.value.events, next));
    }

    method Apply(preview: Preview) returns (r: Result<Applied, DiffError>)
      modifies this
      ensures r == Answer(Lookup(old(targets), preview.target), preview)
      ensures match ApplyTo(Lookup(old(targets), preview.target), preview)
              case Err(_) => targets == old(targets)
              case Ok(state) => targets == old(targets)[preview.target := state]
      ensures r.Ok? ==>
              && r.value.target == preview.target && preview.target in targets
              && r.value.generation == targets[preview.target].generation == Generation(Lookup(old(targets), preview.target)) + 1
    {
      var current := Generation(Lookup(targets, preview.target));
      if current != preview.baseGeneration {
        return Err(StalePreview);
      }
      if current == U64_MAX {
        return Err(GenerationOverflow);
      }
      var next := preview.nextState.(generation := current + 1);
      targets := targets[preview.target := next];
      return Ok(Applied(preview.target, preview.snapshotVersion, current + 1, preview.events));
    }
  }

  // ---- Every interleaving of previews and applies ----

  // A preview can be copied, so a run may apply one preview any number of times and in any order.
  datatype Step = PreviewSnapshot(snapshot: Snapshot) | ApplyPreview(k: nat)

  /** `previews` were issued so far, `sources` are the snapshots they were made of, and `log` are the snapshots
      of the accepted applies. The registry itself holds only `targets`. */
  datatype World = World(
    targets: map<Target, TargetState>,
    previews: seq<Preview>,
    sources: seq<Snapshot>,
    log: seq<Snapshot>
  )

  const EMPTY := World(map[], [], [], [])

  function Do(w: World, step: Step): World
    requires |w.previews| == |w.sources|
  {
    match step
    case PreviewSnapshot(s) =>
      var r := PreviewOf(Lookup(w.targets, s.target), s);
      if r.Err? then w else w.(previews := w.previews + [r.value], sources := w.sources + [s])
    case ApplyPreview(k) =>
      if k >= |w.previews| then w
      else
        var p := w.previews[k];
        var r := ApplyTo(Lookup(w.targets, p.target), p);
        if r.Err? then w else w.(targets := w.targets[p.target := r.value], log := w.log + [w.sources[k]])
  }

  function Run(steps: seq<Step>): (w: World)
    ensures |w.previews| == |w.sources|
  {
    if steps == [] then EMPTY else Do(Run(Front(steps)), Last(steps))
  }

  /** The accepted snapshots of one target, oldest first. */
  function Own(log: seq<Snapshot>, t: Target): seq<Snapshot> {
    if log == [] then []
    else if Last(log).target == t then Own(Front(log), t) + [Last(log)]
    else Own(Front(log), t)
  }

  lemma OwnNext(log: seq<Snapshot>, s: Snapshot, t: Target)
    ensures Own(log + [s], t) == if s.target == t then Own(log, t) + [s] else Own(log, t)
  {
    assert Front(log + [s]) == log;
  }

  /** A preview was made from the state left by the first `baseGeneration` accepted snapshots of its target. */
  ghost predicate MadeFrom(p: Preview, s: Snapshot, own: seq<Snapshot>) {
    && p.target == s.target
    && p.baseGeneration <= |own|
    && Serial(own[..p.baseGeneration]).Ok?
    && PreviewOf(Serial(own[..p.baseGeneration]).value, s) == Ok(p)
  }

  ghost predicate Inv(w: World) {
    && |w.previews| == |w.sources|
    && (forall t :: Serial(Own(w.log, t)) == Ok(Lookup(w.targets, t)))
    && (forall k :: 0 <= k < |w.previews| ==> MadeFrom(w.previews[k], w.sources[k], Own(w.log, w.sources[k].target)))
  }

  lemma PreviewKeepsInv(w: World, s: Snapshot)
    requires Inv(w)
    ensures Inv(Do(w, PreviewSnapshot(s)))
  {
    hide BuildDiff, Serial;
    var own := Own(w.log, s.target);
    assert Serial(own) == Ok(Lookup(w.targets, s.target));
    SerialBookkeeping(own);
    assert own[..|own|] == own;
  }

  /** The generation check alone makes an accepted apply act on the very state its preview read. */
  lemma AcceptedApplyReadsCurrentState(w: World, k: nat)
    requires Inv(w) && k < |w.previews|
    requires ApplyTo(Lookup(w.targets, w.previews[k].target), w.previews[k]).Ok?
    ensures PreviewOf(Lookup(w.targets, w.previews[k].target), w.sources[k]) == Ok(w.previews[k])
    ensures Serial(Own(w.log, w.previews[k].target) + [w.sources[k]]) ==
            Ok(Some(ApplyTo(Lookup(w.targets, w.previews[k].target), w.previews[k]).value))
  {
    hide BuildDiff, PreviewOf;
    var own := Own(w.log, w.previews[k].target);
    assert MadeFrom(w.previews[k], w.sources[k], own);
    assert Serial(own) == Ok(Lookup(w.targets, w.previews[k].target));
    SerialBookkeeping(own);
    assert own[..|own|] == own;
    assert Front(own + [w.sources[k]]) == own;
  }

  /** What an accepted apply answers in any run: the target and version of the snapshot it was previewed from, and the
      generation then stored, which counts the accepted snapshots of that target. */
  lemma AnswerMeans(steps: seq<Step>, k: nat)
    requires k < |Run(steps).previews|
    requires Answer(Lookup(Run(steps).targets, Run(steps).previews[k].target), Run(steps).previews[k]).Ok?
    ensures var w, after := Run(steps), Do(Run(steps), ApplyPreview(k));
            var s := w.sources[k];
            var a := Answer(Lookup(w.targets, w.previews[k].target), w.previews[k]).value;
            && a.target == s.target && a.snapshotVersion == s.version
            && a.generation == |Own(after.log, s.target)| == |Own(w.log, s.target)| + 1
            && s.target in after.targets && after.targets[s.target].generation == a.generation
            && after.targets[s.target].lastVersion == s.version && after.targets[s.target].lastObservedAt == s.observedAt
  {
    hide BuildDiff, Serial, Own, Run;
    var w := Run(steps);
    var s, t := w.sources[k], w.sources[k].target;
    RunKeepsInv(steps);
    assert MadeFrom(w.previews[k], s, Own(w.log, t));
    AcceptedApplyReadsCurrentState(w, k);
    OwnNext(w.log, s, t);
    SerialBookkeeping(Own(w.log, t) + [s]);
  }

  lemma ApplyKeepsStates(w: World, k: nat, t: Target)
    requires Inv(w) && k < |w.previews|
    requires ApplyTo(Lookup(w.targets, w.previews[k].target), w.previews[k]).Ok?
    ensures var after := Do(w, ApplyPreview(k));
            Serial(Own(after.log, t)) == Ok(Lookup(after.targets, t))
  {
    hide BuildDiff, PreviewOf, Serial, ApplyTo, Own;
    assert MadeFrom(w.previews[k], w.sources[k], Own(w.log, w.sources[k].target));
    AcceptedApplyReadsCurrentState(w, k);
    OwnNext(w.log, w.sources[k], t);
    assert Serial(Own(w.log, t)) == Ok(Lookup(w.targets, t));
  }

  /** Accepting another snapshot does not change what an issued preview was made from. */
  lemma MadeFromLonger(p: Preview, s: Snapshot, own: seq<Snapshot>, more: seq<Snapshot>)
    requires MadeFrom(p, s, own) && own <= more
    ensures MadeFrom(p, s, more)
  {
    assert more[..p.baseGeneration] == own[..p.baseGeneration];
  }

  lemma ApplyKeepsInv(w: World, k: nat)
    requires Inv(w)
    ensures Inv(Do(w, ApplyPreview(k)))
  {
    hide BuildDiff, PreviewOf, Serial, ApplyTo, Own, MadeFrom;
    var after := Do(w, ApplyPreview(k));
    if after != w {
      forall t
        ensures Serial(Own(after.log, t)) == Ok(Lookup(after.targets, t))
      {
        ApplyKeepsStates(w, k, t);
      }
      forall j | 0 <= j < |after.previews|
        ensures MadeFrom(after.previews[j], after.sources[j], Own(after.log, after.sources[j].target))
      {
        var t := w.sources[j].target;
        OwnNext(w.log, w.sources[k], t);
        MadeFromLonger(w.previews[j], w.sources[j], Own(w.log, t), Own(after.log, t));
      }
    }
  }

  lemma {:induction false} RunKeepsInv(steps: seq<Step>)
    ensures Inv(Run(steps))
  {
    hide PreviewOf, ApplyTo;
    if steps == [] {
      assert Own([], Target("", "")) == [];
    } else {
      RunKeepsInv(Front(steps));
      match Last(steps)
      case PreviewSnapshot(s) => PreviewKeepsInv(Run(Front(steps)), s);
      case ApplyPreview(k) => ApplyKeepsInv(Run(Front(steps)), k);
    }
  }

  /** Every interleaving is serializable: each target holds the serial fold of its accepted snapshots, its
      generation counts them, and their versions and times only move forward, though applying checks neither. */
  lemma Serializable(steps: seq<Step>, t: Target)
    ensures var own := Own(Run(steps).log, t);
            && Serial(own) == Ok(Lookup(Run(steps).targets, t))
            && Generation(Lookup(Run(steps).targets, t)) == |own|
            && Increasing(own)
  {
    hide BuildDiff, PreviewOf;
    RunKeepsInv(steps);
    SerialBookkeeping(Own(Run(steps).log, t));
  }

  /** After every interleaving each model's stored state is the closed form of the accepted history. */
  lemma StoredStateIsClosedForm(steps: seq<Step>, t: Target, m: Model)
    ensures Lookup(PreviousModels(Lookup(Run(steps).targets, t)), m) == ClosedForm(Own(Run(steps).log, t), m)
  {
    hide Next, ClosedForm;
    Serializable(steps, t);
    IncrementalEqualsClosedForm(Own(Run(steps).log, t), m);
  }

  ghost predicate NumberedSteps(steps: seq<Step>) {
    forall i :: 0 <= i < |steps| && steps[i].PreviewSnapshot? ==> 1 <= steps[i].snapshot.version
  }

  lemma {:induction false} SourcesNumbered(steps: seq<Step>)
    requires NumberedSteps(steps)
    ensures Numbered(Run(steps).sources) && Numbered(Run(steps).log)
  {
    hide PreviewOf, ApplyTo;
    if steps != [] {
      assert NumberedSteps(Front(steps));
      SourcesNumbered(Front(steps));
    }
  }

  lemma {:induction false} OwnNumbered(log: seq<Snapshot>, t: Target)
    requires Numbered(log)
    ensures Numbered(Own(log, t))
  {
    if log != [] {
      assert Last(log) == log[|log| - 1];
      OwnNumbered(Front(log), t);
    }
  }

  lemma ApplyDecidedByGeneration(steps: seq<Step>, k: nat)
    requires NumberedSteps(steps) && k < |Run(steps).previews|
    ensures var w := Run(steps);
            var p := w.previews[k];
            var r := ApplyTo(Lookup(w.targets, p.target), p);
            && (r.Ok? <==> |Own(w.log, p.target)| == p.baseGeneration)
            && (r.Err? ==> r.error == StalePreview)
  {
    hide BuildDiff, PreviewOf, Serial;
    var w := Run(steps);
    var p := w.previews[k];
    RunKeepsInv(steps);
    assert MadeFrom(p, w.sources[k], Own(w.log, w.sources[k].target));
    Serializable(steps, p.target);
    SourcesNumbered(steps);
    OwnNumbered(w.log, p.target);
    if |Own(w.log, p.target)| == p.baseGeneration {
      var own := Own(w.log, p.target);
      assert own[..|own|] == own;
      RefusedExactlyWhen(own, w.sources[k]);
    }
  }

  lemma {:induction false} OwnGrows(a: seq<Snapshot>, b: seq<Snapshot>, t: Target)
    requires a <= b
    ensures Own(a, t) <= Own(b, t)
  {
    if a == b {
    } else {
      assert a <= Front(b);
      OwnGrows(a, Front(b), t);
    }
  }

  lemma {:induction false} RunGrows(a: seq<Step>, b: seq<Step>)
    requires a <= b
    ensures Run(a).previews <= Run(b).previews && Run(a).sources <= Run(b).sources && Run(a).log <= Run(b).log
  {
    hide PreviewOf, ApplyTo;
    if a == b {
    } else {
      assert a <= Front(b);
      RunGrows(a, Front(b));
    }
  }

  /** Preview a snapshot at some point of a run and apply it later: it is accepted exactly when no apply for the
      same target was accepted in between, and a refusal is always `StalePreview`. */
  lemma AppliesIffUndisturbed(before: seq<Step>, s: Snapshot, later: seq<Step>)
    requires before + [PreviewSnapshot(s)] <= later && NumberedSteps(later)
    requires PreviewOf(Lookup(Run(before).targets, s.target), s).Ok?
    ensures var k := |Run(before).previews|;
            && k < |Run(later).previews|
            && Run(later).sources[k] == s
            && Run(later).previews[k] == PreviewOf(Lookup(Run(before).targets, s.target), s).value
            && var r := ApplyTo(Lookup(Run(later).targets, s.target), Run(later).previews[k]);
               && (r.Ok? <==> Own(Run(later).log, s.target) == Own(Run(before).log, s.target))
               && (r.Err? ==> r.error == StalePreview)
  {
    hide BuildDiff, PreviewOf, ApplyTo;
    var issued := before + [PreviewSnapshot(s)];
    var k := |Run(before).previews|;
    assert Front(issued) == before && Last(issued) == PreviewSnapshot(s);
    assert Run(issued) == Do(Run(before), PreviewSnapshot(s));
    RunGrows(issued, later);
    OwnGrows(Run(before).log, Run(later).log, s.target);
    ApplyDecidedByGeneration(later, k);
    Serializable(before, s.target);
    PreviewRecordsGeneration(Lookup(Run(before).targets, s.target), s);
  }

  lemma PreviewRecordsGeneration(previous: Option<TargetState>, s: Snapshot)
    requires PreviewOf(previous, s).Ok?
    ensures PreviewOf(previous, s).value.baseGeneration == Generation(previous)
    ensures PreviewOf(previous, s).value.target == s.target
  {
    hide BuildDiff;
  }
}
