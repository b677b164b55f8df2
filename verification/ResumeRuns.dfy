/** Running a fixed matrix of live probes once, and resuming from the receipt of a failed run. */
module ResumeRuns {
  import opened Basics

  datatype Probe = Probe(protocol: string, stream: bool, tool: bool) {
    function Mode(): string { if tool then "tool" else "text" }
  }

  // A row read back from a receipt. `detail` is the observation of a pass or the category of a failure.
  datatype Row = NotAnObject | Row(protocol: string, stream: bool, mode: string, result: string, detail: string)

  // A receipt as read back. Anything that is no readable object is `Unreadable`; `rows` is absent when it is no list.
  datatype Receipt =
    | Unreadable
    | Receipt(
        schemaVersion: int, valueFree: bool, fixedCount: nat, attempted: nat, successful: nat, sends: nat,
        resumed: bool, failed: bool, rows: Option<seq<Row>>)

  datatype Failure = ReceiptInvalid | ReceiptSequence | ReceiptState

  // What the request at one position of the matrix ends with: an observation, or a failure category.
  type Ask = (nat, Probe) -> Result<string, string>

  function PassRow(p: Probe, detail: string): Row {
    Row(p.protocol, p.stream, p.Mode(), "PASS", detail)
  }

  function FailRow(p: Probe, category: string): Row {
    Row(p.protocol, p.stream, p.Mode(), "FAIL", category)
  }

  // ---- Reading a receipt back ----

  predicate Names(row: Row, p: Probe) {
    row.Row? && row.protocol == p.protocol && row.stream == p.stream && row.mode == p.Mode()
  }

  predicate ShapeFits(receipt: Receipt, probes: seq<Probe>) {
    && receipt.Receipt?
    && receipt.schemaVersion == 1
    && receipt.valueFree
    && receipt.rows.Some?
    && 0 < |receipt.rows.value| <= |probes|
  }

  function RowFault(rows: seq<Row>, probes: seq<Probe>, i: nat): Option<Failure>
    requires i < |rows| <= |probes|
  {
    if !Names(rows[i], probes[i]) then Some(ReceiptSequence)
    else if rows[i].result != (if i == |rows| - 1 then "FAIL" else "PASS") then Some(ReceiptState)
    else None
  }

  predicate FirstFault(rows: seq<Row>, probes: seq<Probe>, e: Failure)
    requires |rows| <= |probes|
  {
    exists i :: && 0 <= i < |rows| && RowFault(rows, probes, i) == Some(e)
                && forall j :: 0 <= j < i ==> RowFault(rows, probes, j).None?
  }

  /** The receipts of a run that failed: its rows follow the matrix, all passed but the last, which failed. */
  predicate Resumable(receipt: Receipt, probes: seq<Probe>) {
    && ShapeFits(receipt, probes)
    && var rows := receipt.rows.value;
       forall i :: 0 <= i < |rows| ==> Names(rows[i], probes[i]) && rows[i].result == if i == |rows| - 1 then "FAIL" else "PASS"
  }

  /** Accepts exactly the receipts of failed runs, and starts again at the probe that failed with the passes kept. */
  method ResumeIndex(receipt: Receipt, probes: seq<Probe>) returns (r: Result<(nat, seq<Row>), Failure>)
    ensures r.Ok? <==> Resumable(receipt, probes)
    ensures r.Ok? ==> r.value == (|receipt.rows.value| - 1, receipt.rows.value[..|receipt.rows.value| - 1])
    ensures r == Err(ReceiptInvalid) <==> !ShapeFits(receipt, probes)
    ensures r.Err? && r.error != ReceiptInvalid ==> FirstFault(receipt.rows.value, probes, r.error)
    ensures r == Err(ReceiptSequence) ==> exists i :: 0 <= i < |receipt.rows.value| && !Names(receipt.rows.value[i], probes[i])
    ensures r == Err(ReceiptState) ==>
            var rows := receipt.rows.value;
            exists i :: 0 <= i < |rows| && Names(rows[i], probes[i]) && rows[i].result != if i == |rows| - 1 then "FAIL" else "PASS"
  {
    if !ShapeFits(receipt, probes) {
      return Err(ReceiptInvalid);
    }
    var rows := receipt.rows.value;
    for i := 0 to |rows|
      invariant forall j :: 0 <= j < i ==> RowFault(rows, probes, j).None?
      invariant forall j :: 0 <= j < i ==> Names(rows[j], probes[j]) && rows[j].result == if j == |rows| - 1 then "FAIL" else "PASS"
    {
      ghost var fault := RowFault(rows, probes, i);
      if !Names(rows[i], probes[i]) {
        return Err(ReceiptSequence);
      }
      var expected := if i == |rows| - 1 then "FAIL" else "PASS";
      if rows[i].result != expected {
        return Err(ReceiptState);
      }
    }
    return Ok((|rows| - 1, rows[..|rows| - 1]));
  }

  // ---- One run ----

  datatype Outcome = Outcome(rows: seq<Row>, sends: nat, failed: bool)

  /** Probes the rest of the matrix in order, one send each, until one fails. */
  function Attempt(probes: seq<Probe>, ask: Ask, rows: seq<Row>): Outcome
    decreases |probes| - |rows|
  {
    if |rows| >= |probes| then Outcome(rows, 0, false)
    else
      var p := probes[|rows|];
      match ask(|rows|, p)
      case Err(category) => Outcome(rows + [FailRow(p, category)], 1, true)
      case Ok(detail) =>
        var rest := Attempt(probes, ask, rows + [PassRow(p, detail)]);
        rest.(sends := rest.sends + 1)
  }

  method RunLoop(probes: seq<Probe>, ask: Ask, start: nat, kept: seq<Row>) returns (o: Outcome)
    requires start == |kept| <= |probes|
    ensures o == Attempt(probes, ask, kept)
  {
    var rows, sends, failed := kept, 0, false;
    for i := start to |probes|
      invariant |rows| == i && !failed
      invariant Attempt(probes, ask, kept) == Attempt(probes, ask, rows).(sends := Attempt(probes, ask, rows).sends + sends)
    {
      var p := probes[i];
      sends := sends + 1;
      match ask(i, p) {
        case Ok(detail) =>
          rows := rows + [PassRow(p, detail)];
        case Err(category) =>
          rows := rows + [FailRow(p, category)];
          failed := true;
          break;
      }
    }
    o := Outcome(rows, sends, failed);
  }

  function Passes(rows: seq<Row>): nat {
    if rows == [] then 0
    else
      var last := rows[|rows| - 1];
      Passes(rows[..|rows| - 1]) + if last.Row? && last.result == "PASS" then 1 else 0
  }

  function Written(probes: seq<Probe>, resumed: bool, o: Outcome): Receipt {
    Receipt(1, true, |probes|, |o.rows|, Passes(o.rows), o.sends, resumed, o.failed, Some(o.rows))
  }

  function Kept(receipt: Receipt, probes: seq<Probe>): seq<Row>
    requires Resumable(receipt, probes)
  {
    receipt.rows.value[..|receipt.rows.value| - 1]
  }

  /** A whole run: fresh, or resumed from a receipt. */
  method Execute(probes: seq<Probe>, ask: Ask, resume: Option<Receipt>) returns (r: Result<Receipt, Failure>)
    ensures r.Ok? <==> resume.None? || Resumable(resume.value, probes)
    ensures r.Ok? ==> && GoodReceipt(r.value, probes) && (r.value.resumed <==> resume.Some?)
                      && RunLaw(probes, ask, if resume.None? then [] else Kept(resume.value, probes),
                                Outcome(r.value.rows.value, r.value.sends, r.value.failed))
    ensures r == Err(ReceiptInvalid) <==> resume.Some? && !ShapeFits(resume.value, probes)
    ensures r.Err? && r.error != ReceiptInvalid ==> FirstFault(resume.value.rows.value, probes, r.error)
    ensures r.Ok? ==> r.value == Written(probes, resume.Some?, Attempt(probes, ask, if resume.None? then [] else Kept(resume.value, probes)))
  {
    var start, kept := 0, [];
    if resume.Some? {
      var resumed := ResumeIndex(resume.value, probes);
      if resumed.Err? {
        return Err(resumed.error);
      }
      start, kept := resumed.value.0, resumed.value.1;
    }
    var o := RunLoop(probes, ask, start, kept);
    AttemptLaw(probes, ask, kept);
    WrittenIsGood(probes, ask, kept, resume.Some?);
    hide RunLaw, GoodReceipt, Attempt, Passes;
    return Ok(Written(probes, resume.Some?, o));
  }

  // ---- Chains of failed runs and resumptions ----

  /** Rows that follow the matrix, all passed. */
  predicate AllPassed(rows: seq<Row>, probes: seq<Probe>) {
    |rows| <= |probes| && forall i :: 0 <= i < |rows| ==> Names(rows[i], probes[i]) && rows[i].result == "PASS"
  }

  lemma {:induction false} PassesOfPassed(rows: seq<Row>, probes: seq<Probe>)
    requires AllPassed(rows, probes)
    ensures Passes(rows) == |rows|
  {
    if rows != [] {
      PassesOfPassed(rows[..|rows| - 1], probes);
    }
  }

  function Passed(o: Outcome): seq<Row> {
    if o.failed && o.rows != [] then o.rows[..|o.rows| - 1] else o.rows
  }

  function ModeOf(p: Probe): string {
    match p.tool case true => "tool" case false => "text"
  }

  /** A run keeps every earlier pass in place, sends once per new pass and once for a failure, and either completes
      the matrix or stops at the first probe that fails. */
  ghost predicate RunLaw(probes: seq<Probe>, ask: Ask, kept: seq<Row>, o: Outcome) {
    && AllPassed(Passed(o), probes)
    && kept <= Passed(o)
    && Passes(o.rows) == |Passed(o)|
    && o.sends + |kept| == |Passed(o)| + (if o.failed then 1 else 0)
    && (forall j :: |kept| <= j < |Passed(o)| ==>
          && ask(j, probes[j]).Ok?
          && o.rows[j] == Row(probes[j].protocol, probes[j].stream, ModeOf(probes[j]), "PASS", ask(j, probes[j]).value))
    && (!o.failed ==> |o.rows| == |probes|)
    && (o.failed ==> && 0 < |o.rows| <= |probes|
                     && var i, p := |o.rows| - 1, probes[|o.rows| - 1];
                        && ask(i, p).Err?
                        && o.rows[i] == Row(p.protocol, p.stream, ModeOf(p), "FAIL", ask(i, p).error))
  }

  lemma FailStops(probes: seq<Probe>, ask: Ask, kept: seq<Row>, category: string)
    requires AllPassed(kept, probes) && |kept| < |probes| && ask(|kept|, probes[|kept|]) == Err(category)
    ensures RunLaw(probes, ask, kept, Outcome(kept + [FailRow(probes[|kept|], category)], 1, true))
  {
    var rows := kept + [FailRow(probes[|kept|], category)];
    assert rows[..|rows| - 1] == kept;
    PassesOfPassed(kept, probes);
  }

  lemma CompleteEnds(probes: seq<Probe>, ask: Ask, kept: seq<Row>)
    requires AllPassed(kept, probes) && |kept| == |probes|
    ensures RunLaw(probes, ask, kept, Outcome(kept, 0, false))
  {
    PassesOfPassed(kept, probes);
  }

  lemma PassExtends(probes: seq<Probe>, ask: Ask, kept: seq<Row>, row: Row, o: Outcome)
    requires |kept| < |probes| && ask(|kept|, probes[|kept|]).Ok? && RunLaw(probes, ask, kept + [row], o)
    requires row == PassRow(probes[|kept|], ask(|kept|, probes[|kept|]).value)
    ensures RunLaw(probes, ask, kept, o.(sends := o.sends + 1))
  {
    hide AllPassed, Passes;
    var more := o.(sends := o.sends + 1);
    assert Passed(more) == Passed(o);
    assert (kept + [row])[|kept|] == Passed(o)[|kept|] == o.rows[|kept|];
  }

  lemma {:induction false} AttemptLaw(probes: seq<Probe>, ask: Ask, kept: seq<Row>)
    requires AllPassed(kept, probes)
    ensures RunLaw(probes, ask, kept, Attempt(probes, ask, kept))
    decreases |probes| - |kept|
  {
    hide RunLaw;
    if |kept| >= |probes| {
      CompleteEnds(probes, ask, kept);
    } else {
      var p := probes[|kept|];
      match ask(|kept|, p) {
        case Ok(detail) =>
          var row := PassRow(p, detail);
          AttemptLaw(probes, ask, kept + [row]);
          PassExtends(probes, ask, kept, row, Attempt(probes, ask, kept + [row]));
        case Err(category) =>
          FailStops(probes, ask, kept, category);
      }
    }
  }

  /** The receipt after a chain of runs: the first is fresh, every later one resumes its predecessor; absent once a
      receipt was refused. */
  function After(probes: seq<Probe>, asks: seq<Ask>): Option<Receipt>
    requires asks != []
  {
    var ask, earlier := asks[|asks| - 1], asks[..|asks| - 1];
    if earlier == [] then Some(Written(probes, false, Attempt(probes, ask, [])))
    else
      match After(probes, earlier)
      case None => None
      case Some(receipt) =>
        if Resumable(receipt, probes) then Some(Written(probes, true, Attempt(probes, ask, Kept(receipt, probes)))) else None
  }

  ghost predicate FailedSoFar(probes: seq<Probe>, asks: seq<Ask>) {
    forall n :: 1 <= n < |asks| ==> After(probes, asks[..n]).Some? && After(probes, asks[..n]).value.Receipt? && After(probes, asks[..n]).value.failed
  }

  function TotalSends(probes: seq<Probe>, asks: seq<Ask>): nat {
    if asks == [] then 0
    else
      TotalSends(probes, asks[..|asks| - 1]) +
      match After(probes, asks) case Some(Receipt(_, _, _, _, _, sends, _, _, _)) => sends case _ => 0
  }

  predicate GoodReceipt(receipt: Receipt, probes: seq<Probe>) {
    && receipt.Receipt?
    && receipt.schemaVersion == 1 && receipt.valueFree
    && receipt.rows.Some?
    && var rows := receipt.rows.value;
       && receipt.fixedCount == |probes|
       && receipt.attempted == |rows|
       && receipt.successful == (if receipt.failed then |rows| - 1 else |rows|)
       && (receipt.failed ==> Resumable(receipt, probes))
       && (!receipt.failed ==> AllPassed(rows, probes) && |rows| == |probes| && !Resumable(receipt, probes))
  }

  lemma FailureIsGood(probes: seq<Probe>, o: Outcome, resumed: bool)
    requires o.failed && 0 < |o.rows| <= |probes| && AllPassed(Passed(o), probes) && Passes(o.rows) == |o.rows| - 1
    requires Names(o.rows[|o.rows| - 1], probes[|o.rows| - 1]) && o.rows[|o.rows| - 1].result == "FAIL"
    ensures GoodReceipt(Written(probes, resumed, o), probes)
  {
    hide Passes;
    forall i | 0 <= i < |o.rows| - 1
      ensures Names(o.rows[i], probes[i]) && o.rows[i].result == "PASS"
    {
      assert Passed(o)[i] == o.rows[i];
    }
  }

  lemma SuccessIsGood(probes: seq<Probe>, o: Outcome, resumed: bool)
    requires !o.failed && AllPassed(o.rows, probes) && Passes(o.rows) == |o.rows| == |probes|
    ensures GoodReceipt(Written(probes, resumed, o), probes)
  {
    hide Passes;
    if o.rows != [] { assert o.rows[|o.rows| - 1].result == "PASS"; }
  }

  lemma WrittenIsGood(probes: seq<Probe>, ask: Ask, kept: seq<Row>, resumed: bool)
    requires AllPassed(kept, probes)
    ensures GoodReceipt(Written(probes, resumed, Attempt(probes, ask, kept)), probes)
  {
    hide Attempt, GoodReceipt, AllPassed, Passes;
    AttemptLaw(probes, ask, kept);
    var o := Attempt(probes, ask, kept);
    if o.failed { FailureIsGood(probes, o, resumed); } else { SuccessIsGood(probes, o, resumed); }
  }

  /** Along any chain of failed runs and resumptions on one matrix: every failed receipt is accepted, a complete one
      is not, the kept passes stay where they were, and the sends of all runs add up to passes plus failures. */
  lemma {:induction false} ChainLaw(probes: seq<Probe>, asks: seq<Ask>)
    requires asks != [] && FailedSoFar(probes, asks)
    ensures After(probes, asks).Some? && GoodReceipt(After(probes, asks).value, probes)
    ensures After(probes, asks).value.resumed <==> |asks| > 1
    ensures |asks| > 1 ==>
            var earlier := After(probes, asks[..|asks| - 1]).value;
            Resumable(earlier, probes) && Kept(earlier, probes) <= After(probes, asks).value.rows.value
    ensures TotalSends(probes, asks) ==
            After(probes, asks).value.successful + (|asks| - 1) + (if After(probes, asks).value.failed then 1 else 0)
  {
    hide Attempt, Resumable, GoodReceipt, Passes;
    var ask, front := asks[|asks| - 1], asks[..|asks| - 1];
    if front == [] {
      WrittenIsGood(probes, ask, [], false);
      AttemptLaw(probes, ask, []);
      assert TotalSends(probes, front) == 0;
    } else {
      assert forall n :: 1 <= n < |front| ==> front[..n] == asks[..n];
      assert After(probes, asks[..|front|]).Some?;
      ChainLaw(probes, front);
      var earlier := After(probes, front).value;
      FailedIsResumable(earlier, probes);
      var kept := Kept(earlier, probes);
      WrittenIsGood(probes, ask, kept, true);
      AttemptLaw(probes, ask, kept);
    }
  }

  /** The passes a receipt holds. */
  function PassedRows(receipt: Receipt): seq<Row>
    requires receipt.Receipt? && receipt.rows.Some?
  {
    var rows := receipt.rows.value;
    if receipt.failed && rows != [] then rows[..|rows| - 1] else rows
  }

  /** The passes of every receipt of a chain, not only of the last but one, stay in place to the end of it. */
  lemma {:induction false} PassesStay(probes: seq<Probe>, asks: seq<Ask>, n: nat)
    requires asks != [] && FailedSoFar(probes, asks) && 1 <= n < |asks|
    ensures After(probes, asks[..n]).Some? && Resumable(After(probes, asks[..n]).value, probes)
    ensures After(probes, asks).Some? && GoodReceipt(After(probes, asks).value, probes)
    ensures Kept(After(probes, asks[..n]).value, probes) <= PassedRows(After(probes, asks).value)
  {
    hide Attempt, Resumable, GoodReceipt, Passes;
    var ask, front := asks[|asks| - 1], asks[..|asks| - 1];
    assert forall k :: 1 <= k < |front| ==> front[..k] == asks[..k];
    assert After(probes, asks[..|front|]).Some?;
    ChainLaw(probes, asks);
    ChainLaw(probes, front);
    var earlier := After(probes, front).value;
    FailedIsResumable(earlier, probes);
    AttemptLaw(probes, ask, Kept(earlier, probes));
    assert Kept(earlier, probes) <= PassedRows(After(probes, asks).value);
    hide RunLaw, After, FailedSoFar;
    if n < |front| { PassesStay(probes, front, n); }
  }

  lemma FailedIsResumable(receipt: Receipt, probes: seq<Probe>)
    requires GoodReceipt(receipt, probes) && receipt.failed
    ensures Resumable(receipt, probes) && AllPassed(Kept(receipt, probes), probes)
    ensures Kept(receipt, probes) == PassedRows(receipt)
    ensures |Kept(receipt, probes)| == receipt.successful
  {
  }
}
