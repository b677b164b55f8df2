/** Previewing and applying snapshots one after another, and a closed form of the result. */
module DiffHistory {
  import opened Basics
  import opened Models
  import opened Snapshots
  import opened CatalogDiff

  datatype Preview = Preview(
    target: Target,
    snapshotVersion: u64,
    baseGeneration: u64,
    events: seq<DiffEvent>,
    nextState: TargetState
  )

  function Generation(state: Option<TargetState>): u64 {
    if state.Some? then state.value.generation else 0
  }

  function ValidateSnapshot(previous: Option<TargetState>, snapshot: Snapshot): Option<DiffError> {
    if previous.None? then None
    else if snapshot.version <= previous.value.lastVersion then Some(SnapshotVersionNotNewer)
    else if snapshot.observedAt < previous.value.lastObservedAt then Some(SnapshotObservedAtNotMonotonic)
    else None
  }

  function PreviewOf(previous: Option<TargetState>, snapshot: Snapshot): Result<Preview, DiffError> {
    match ValidateSnapshot(previous, snapshot)
    case Some(e) => Err(e)
    case None =>
      match BuildDiff(previous, snapshot)
      case Err(e) => Err(e)
      case Ok(diff) =>
        var base := Generation(previous);
        Ok(Preview(snapshot.target, snapshot.version, base, diff.events,
                   TargetState(base, snapshot.version, snapshot.observedAt, diff.models)))
  }

  /** The state an accepted preview installs. It looks at the generation and at nothing else. */
  function ApplyTo(current: Option<TargetState>, preview: Preview): Result<TargetState, DiffError> {
    if Generation(current) != preview.baseGeneration then Err(StalePreview)
    else if Generation(current) == U64_MAX then Err(GenerationOverflow)
    else Ok(preview.nextState.(generation := Generation(current) + 1))
  }

  function Next(previous: Option<TargetState>, snapshot: Snapshot): Result<TargetState, DiffError> {
    match PreviewOf(previous, snapshot)
    case Err(e) => Err(e)
    case Ok(p) => ApplyTo(previous, p)
  }

  function Last<T>(s: seq<T>): T
    requires s != []
  {
    s[|s| - 1]
  }

  function Front<T>(s: seq<T>): seq<T>
    requires s != []
  {
    s[..|s| - 1]
  }

  /** Previewing and applying each snapshot in turn, starting from an unknown target. */
  function Serial(h: seq<Snapshot>): Result<Option<TargetState>, DiffError> {
    if h == [] then Ok(None)
    else
      match Serial(Front(h))
      case Err(e) => Err(e)
      case Ok(previous) =>
        match Next(previous, Last(h))
        case Err(e) => Err(e)
        case Ok(state) => Ok(Some(state))
  }

  // ---- What an accepted history looks like ----

  ghost predicate Increasing(h: seq<Snapshot>) {
    forall i, j :: 0 <= i < j < |h| ==> h[i].version < h[j].version && h[i].observedAt <= h[j].observedAt
  }

  /** The bookkeeping after a history: one generation per snapshot, the last version and time, and versions
      and times that only moved forward. */
  lemma {:induction false} SerialBookkeeping(h: seq<Snapshot>)
    requires Serial(h).Ok?
    ensures Serial(h).value.None? <==> h == []
    ensures Generation(Serial(h).value) == |h|
    ensures h != [] ==> Serial(h).value.value.lastVersion == Last(h).version
    ensures h != [] ==> Serial(h).value.value.lastObservedAt == Last(h).observedAt
    ensures Increasing(h)
  {
    hide BuildDiff;
    if h != [] {
      SerialBookkeeping(Front(h));
      forall i, j | 0 <= i < j < |h|
        ensures h[i].version < h[j].version && h[i].observedAt <= h[j].observedAt
      {
        assert h[i] == Front(h)[i];
        if j < |h| - 1 {
          assert h[j] == Front(h)[j];
        } else if i < |h| - 2 {
          assert Front(h)[|h| - 2] == Last(Front(h));
        }
      }
    }
  }

  // ---- Closed form of one model's state ----

  /** The last snapshot of the history that lists the model. */
  function LastSeen(h: seq<Snapshot>, m: Model): Option<nat> {
    if h == [] then None
    else if m in Last(h).models then Some(|h| - 1)
    else LastSeen(Front(h), m)
  }

  lemma {:induction false} LastSeenMeans(h: seq<Snapshot>, m: Model)
    ensures LastSeen(h, m).None? <==> forall i :: 0 <= i < |h| ==> m !in h[i].models
    ensures LastSeen(h, m).Some? ==>
            var i := LastSeen(h, m).value;
            i < |h| && m in h[i].models && forall j :: i < j < |h| ==> m !in h[j].models
  {
    if h != [] {
      LastSeenMeans(Front(h), m);
      assert forall i :: 0 <= i < |h| - 1 ==> Front(h)[i] == h[i];
    }
  }

  /** Present if the newest snapshot lists it. Otherwise, with k misses since it was last listed and the first
      of them at t1: gone after three misses once t1 + 24h is reached, suspected before that. */
  function ClosedForm(h: seq<Snapshot>, m: Model): Option<ModelState>
  {
    LastSeenMeans(h, m);
    match LastSeen(h, m)
    case None => None
    case Some(i) =>
      var misses := |h| - 1 - i;
      if misses == 0 then Some(Present)
      else
        var first := h[i + 1].observedAt;
        if misses >= 3 && Last(h).observedAt >= first + DAY_MS then None
        else Some(SuspectedRemoved(misses, first, first + DAY_MS))
  }

  function StateOf(h: seq<Snapshot>, m: Model): Option<ModelState>
    requires Serial(h).Ok?
  {
    Lookup(PreviousModels(Serial(h).value), m)
  }

  /** One accepted step changes each model on its own. */
  lemma NextPointwise(previous: Option<TargetState>, s: Snapshot, m: Model)
    requires Next(previous, s).Ok?
    ensures var before := Lookup(PreviousModels(previous), m);
            var after := Lookup(Next(previous, s).value.models, m);
            if m in s.models then after == Some(Present)
            else if before.None? then after.None?
            else Miss(before.value, s.observedAt) == Ok(after)
  {
    BuildDiffSucceedsIff(previous, s);
  }

  /** For every accepted history, the incremental bookkeeping equals the closed form. */
  lemma {:induction false} IncrementalEqualsClosedForm(h: seq<Snapshot>, m: Model)
    requires Serial(h).Ok?
    ensures StateOf(h, m) == ClosedForm(h, m)
  {
    hide BuildDiff;
    if h != [] {
      IncrementalEqualsClosedForm(Front(h), m);
      SerialBookkeeping(h);
      NextPointwise(Serial(Front(h)).value, Last(h), m);
      if m !in Last(h).models {
        MissFollowsClosedForm(h, m);
      }
    }
  }

  /** A miss moves the closed form of the shorter history to that of the longer one. */
  lemma MissFollowsClosedForm(h: seq<Snapshot>, m: Model)
    requires h != [] && Increasing(h) && m !in Last(h).models
    ensures ClosedForm(Front(h), m).None? ==> ClosedForm(h, m).None?
    ensures ClosedForm(Front(h), m).Some? && Miss(ClosedForm(Front(h), m).value, Last(h).observedAt).Ok? ==>
            Miss(ClosedForm(Front(h), m).value, Last(h).observedAt).value == ClosedForm(h, m)
  {
    LastSeenMeans(h, m);
    LastSeenMeans(Front(h), m);
    if LastSeen(h, m).Some? {
      var i := LastSeen(h, m).value;
      assert LastSeen(Front(h), m) == Some(i);
      if i + 1 < |h| - 1 {
        assert Front(h)[i + 1] == h[i + 1];
        assert Last(Front(h)) == h[|h| - 2];
      }
    }
  }

  // ---- Which snapshots are refused, and why no counter overflows ----

  ghost predicate Numbered(h: seq<Snapshot>) {
    forall i :: 0 <= i < |h| ==> 1 <= h[i].version
  }

  lemma {:induction false} LengthWithinVersion(h: seq<Snapshot>)
    requires Numbered(h) && Increasing(h) && h != []
    ensures |h| <= Last(h).version
  {
    if |h| > 1 {
      LengthWithinVersion(Front(h));
      assert h[|h| - 2].version < h[|h| - 1].version;
    }
  }

  /** A model retained after a history misses at most as often as there are generations. */
  lemma MissesWithinGeneration(h: seq<Snapshot>, m: Model)
    requires Serial(h).Ok? && StateOf(h, m).Some? && StateOf(h, m).value.SuspectedRemoved?
    ensures 1 <= StateOf(h, m).value.misses < Generation(Serial(h).value)
    ensures StateOf(h, m).value.removalEligibleAt == StateOf(h, m).value.firstMissingAt + DAY_MS
  {
    hide Next;
    IncrementalEqualsClosedForm(h, m);
    SerialBookkeeping(h);
    LastSeenMeans(h, m);
  }

  ghost predicate Vanishes(from: Snapshot, to: Snapshot) {
    exists m :: m in from.models && m !in to.models
  }

  /** The only overflow a numbered snapshot can meet is a deadline past the end of time, and it meets it exactly
      when some model of the previously applied snapshot disappears. */
  lemma MissOverflowIff(h: seq<Snapshot>, s: Snapshot, m: Model)
    requires Serial(h).Ok? && Numbered(h + [s]) && h != [] && Last(h).version < s.version
    requires m !in s.models && StateOf(h, m).Some?
    ensures Miss(StateOf(h, m).value, s.observedAt) == Err(RemovalDeadlineOverflow) <==>
            m in Last(h).models && s.observedAt + DAY_MS > I64_MAX
    ensures MissError(StateOf(h, m).value, s.observedAt) in {None, Some(RemovalDeadlineOverflow)}
  {
    hide Next;
    IncrementalEqualsClosedForm(h, m);
    SerialBookkeeping(h);
    assert Numbered(h) by { assert forall i :: 0 <= i < |h| ==> (h + [s])[i] == h[i]; }
    LengthWithinVersion(h);
    LastSeenMeans(h, m);
    if StateOf(h, m).value.SuspectedRemoved? { MissesWithinGeneration(h, m); }
  }

  function Refusal(h: seq<Snapshot>, s: Snapshot, vanishes: bool): Option<DiffError> {
    if h == [] then None
    else if s.version <= Last(h).version then Some(SnapshotVersionNotNewer)
    else if s.observedAt < Last(h).observedAt then Some(SnapshotObservedAtNotMonotonic)
    else if vanishes && s.observedAt + DAY_MS > I64_MAX then Some(RemovalDeadlineOverflow)
    else None
  }

  /** After any accepted history, previewing and applying a numbered snapshot is refused for exactly these
      reasons. The generation and missing-count overflow branches are dead. */
  lemma RefusedExactlyWhen(h: seq<Snapshot>, s: Snapshot)
    requires Serial(h).Ok? && Numbered(h + [s])
    ensures var refusal := Refusal(h, s, h != [] && Vanishes(Last(h), s));
            match refusal
            case Some(e) => PreviewOf(Serial(h).value, s) == Err(e) && Next(Serial(h).value, s) == Err(e)
            case None => PreviewOf(Serial(h).value, s).Ok? && Next(Serial(h).value, s).Ok?
    ensures var r := Next(Serial(h).value, s);
            && (r == Err(SnapshotVersionNotNewer) <==> h != [] && s.version <= Last(h).version)
            && (r == Err(SnapshotObservedAtNotMonotonic) <==> h != [] && s.version > Last(h).version && s.observedAt < Last(h).observedAt)
            && (r == Err(RemovalDeadlineOverflow) <==>
                  && h != [] && s.version > Last(h).version && s.observedAt >= Last(h).observedAt
                  && Vanishes(Last(h), s) && s.observedAt + DAY_MS > I64_MAX)
  {
    hide BuildDiff;
    var state := Serial(h).value;
    SerialBookkeeping(h);
    if ValidateSnapshot(state, s).None? {
      BuildDiffSucceedsIff(state, s);
      if h != [] {
        assert Numbered(h) by { assert forall i :: 0 <= i < |h| ==> (h + [s])[i] == h[i]; }
        LengthWithinVersion(h);
        BuildOverflowIff(h, s);
      }
    }
  }

  lemma BuildOverflowIff(h: seq<Snapshot>, s: Snapshot)
    requires Serial(h).Ok? && Numbered(h + [s]) && h != [] && Last(h).version < s.version
    ensures BuildDiff(Serial(h).value, s).Ok? <==> !(Vanishes(Last(h), s) && s.observedAt + DAY_MS > I64_MAX)
    ensures BuildDiff(Serial(h).value, s).Err? ==> BuildDiff(Serial(h).value, s).error == RemovalDeadlineOverflow
  {
    hide BuildDiff;
    var models := PreviousModels(Serial(h).value);
    BuildDiffSucceedsIff(Serial(h).value, s);
    forall m | m in models && m !in s.models
      ensures Miss(models[m], s.observedAt).Err? <==> m in Last(h).models && s.observedAt + DAY_MS > I64_MAX
      ensures MissError(models[m], s.observedAt) in {None, Some(RemovalDeadlineOverflow)}
    {
      MissOverflowIff(h, s, m);
    }
    forall m | m in Last(h).models
      ensures m in models
    {
      IncrementalEqualsClosedForm(h, m);
    }
  }

  ghost predicate Acceptable(h: seq<Snapshot>) {
    && Increasing(h)
    && forall i :: 0 <= i < |h| - 1 && Vanishes(h[i], h[i + 1]) ==> h[i + 1].observedAt + DAY_MS <= I64_MAX
  }

  /** Exactly which numbered histories the registry accepts in full. */
  lemma {:induction false} AcceptedIff(h: seq<Snapshot>)
    requires Numbered(h)
    ensures Serial(h).Ok? <==> Acceptable(h)
  {
    hide BuildDiff, PreviewOf, ApplyTo;
    if h != [] {
      assert h == Front(h) + [Last(h)];
      assert Numbered(Front(h));
      AcceptedIff(Front(h));
      AcceptableFront(h);
      if Serial(Front(h)).Ok? {
        RefusedExactlyWhen(Front(h), Last(h));
      }
    }
  }

  lemma AcceptableFront(h: seq<Snapshot>)
    requires h != []
    ensures Acceptable(h) <==>
            Acceptable(Front(h)) && Refusal(Front(h), Last(h), |h| > 1 && Vanishes(Last(Front(h)), Last(h))).None?
  {
    var f := Front(h);
    assert forall i :: 0 <= i < |f| ==> f[i] == h[i];
    if Acceptable(f) && Refusal(f, Last(h), f != [] && Vanishes(Last(f), Last(h))).None? {
      forall i, j | 0 <= i < j < |h|
        ensures h[i].version < h[j].version && h[i].observedAt <= h[j].observedAt
      {
        if j == |h| - 1 && i < |h| - 2 { assert f[i].version < Last(f).version; }
      }
    }
  }

  /** Snapshots built under a policy that keeps them for a day or longer never overflow a removal deadline. */
  lemma LongExpiryNeverOverflows(s: Snapshot, models: seq<Model>, policy: FreshnessPolicy)
    requires policy.Ordered() && policy.expiresAfter >= DAY_MS
    requires TryNewSnapshot(s.target, models, s.version, s.observedAt, policy) == Ok(s)
    ensures s.observedAt + DAY_MS <= I64_MAX && 1 <= s.version
    ensures DEFAULT_POLICY.Ordered() && DEFAULT_POLICY.expiresAfter >= DAY_MS
  {
  }

  /** A shorter expiry does let a constructible history reach the deadline overflow. */
  lemma ShortExpiryCanOverflow() returns (a: Snapshot, b: Snapshot)
    ensures Constructible(a) && Constructible(b)
    ensures Serial([a]).Ok? && Serial([a, b]) == Err(RemovalDeadlineOverflow)
  {
    hide BuildDiff;
    var target := Target("endpoint", "credential");
    var m := Model("m");
    a := Snapshot(target, [m], 1, 0, 1, 1, 2);
    b := Snapshot(target, [], 2, I64_MAX - 2, I64_MAX - 1, I64_MAX - 1, I64_MAX);
    ConstructibleExactly(a);
    ConstructibleExactly(b);
    assert Front([a]) == [] && Front([a, b]) == [a];
    RefusedExactlyWhen([], a);
    assert m in a.models && m !in b.models;
    RefusedExactlyWhen([a], b);
  }

  /** A constructible pair whose events are not in one model order: the greater name is reported first. */
  lemma EventsCanLeaveModelOrder() returns (a: Snapshot, b: Snapshot)
    ensures Constructible(a) && Constructible(b) && Serial([a]).Ok? && Serial([a, b]).Ok?
    ensures BuildDiff(Serial([a]).value, b).Ok? && !InModelOrder(BuildDiff(Serial([a]).value, b).value.events)
  {
    hide BuildDiff, InModelOrder, Next;
    var target := Target("endpoint", "credential");
    var m, n := Model("m"), Model("n");
    a := Snapshot(target, [m], 1, 0, 1, 1, 2);
    b := Snapshot(target, [n], 2, 0, 1, 1, 2);
    ConstructibleExactly(a);
    ConstructibleExactly(b);
    assert Front([a]) == [] && Front([a, b]) == [a];
    RefusedExactlyWhen([], a);
    RefusedExactlyWhen([a], b);
    BuildOverflowIff([a], b);
    IncrementalEqualsClosedForm([a], m);
    IncrementalEqualsClosedForm([a], n);
    assert LastSeen([], n).None?;
    InModelOrderIff(Serial([a]).value, b);
    assert m in a.models && n in b.models && !Less(n, m);
  }
}
