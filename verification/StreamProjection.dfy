/** Two decoders of one response, from JSON and from a stream of events, and when their projections agree. */
module StreamProjection {
  import opened Basics

  datatype Marker =
    | ResponseStart | MessageStart | TextMark | MessageEnd | ToolStart | ToolMark | ToolEnd | ResponseEnd
  {
    predicate IsDelta() { TextMark? || ToolMark? }
  }

  // ---- Collapsing runs of deltas ----

  function Push(result: seq<Marker>, marker: Marker): seq<Marker> {
    if result != [] && result[|result| - 1] == marker && marker.IsDelta() then result else result + [marker]
  }

  function Collapse(markers: seq<Marker>): seq<Marker> {
    if markers == [] then [] else Push(Collapse(markers[..|markers| - 1]), markers[|markers| - 1])
  }

  lemma CollapseNext(markers: seq<Marker>, m: Marker)
    ensures Collapse(markers + [m]) == Push(Collapse(markers), m)
  {
    assert (markers + [m])[..|markers|] == markers;
  }

  method CollapseMarkers(markers: seq<Marker>) returns (result: seq<Marker>)
    ensures result == Collapse(markers)
  {
    result := [];
    for i := 0 to |markers|
      invariant result == Collapse(markers[..i])
    {
      assert markers[..i + 1][..i] == markers[..i];
      var marker := markers[i];
      if result != [] && result[|result| - 1] == marker && marker.IsDelta() {
        continue;
      }
      result := result + [marker];
    }
    assert markers[..|markers|] == markers;
  }

  /** No delta stands next to an equal one. */
  predicate Collapsed(markers: seq<Marker>) {
    forall i :: 0 <= i < |markers| - 1 && markers[i] == markers[i + 1] ==> !markers[i].IsDelta()
  }

  lemma {:induction false} CollapseIsCollapsed(markers: seq<Marker>)
    ensures Collapsed(Collapse(markers))
    ensures markers != [] ==> Collapse(markers) != [] && Collapse(markers)[|Collapse(markers)| - 1] == markers[|markers| - 1]
    ensures Collapsed(markers) ==> Collapse(markers) == markers
  {
    if markers != [] {
      var front, last := markers[..|markers| - 1], markers[|markers| - 1];
      CollapseIsCollapsed(front);
      CollapsedNext(Collapse(front), last);
      if Collapsed(markers) {
        assert Collapsed(front);
        assert markers == front + [last];
      }
      hide Collapsed;
    }
  }

  lemma CollapsedNext(markers: seq<Marker>, m: Marker)
    requires Collapsed(markers)
    ensures Collapsed(Push(markers, m))
  {
  }

  /** Collapsing the left part first makes no difference. */
  lemma {:induction false} CollapseLeft(a: seq<Marker>, b: seq<Marker>)
    ensures Collapse(a + b) == Collapse(Collapse(a) + b)
  {
    hide Collapse, Push;
    if b == [] {
      assert a + b == a && Collapse(a) + b == Collapse(a);
      CollapseIsCollapsed(a);
      CollapseIsCollapsed(Collapse(a));
    } else {
      var front, last := b[..|b| - 1], b[|b| - 1];
      CollapseLeft(a, front);
      assert a + b == (a + front) + [last] && Collapse(a) + b == (Collapse(a) + front) + [last];
      CollapseNext(a + front, last);
      CollapseNext(Collapse(a) + front, last);
    }
  }

  /** Nor does collapsing the right part first. */
  lemma {:induction false} CollapseRight(a: seq<Marker>, b: seq<Marker>)
    ensures Collapse(a + b) == Collapse(a + Collapse(b))
  {
    hide Collapse;
    if b == [] {
      CollapseOfNothing();
    } else {
      var front, last := b[..|b| - 1], b[|b| - 1];
      CollapseRight(a, front);
      assert b == front + [last] && a + b == (a + front) + [last];
      CollapseNext(front, last);
      CollapseNext(a + front, last);
      if Collapse(b) == Collapse(front) {
        CollapseIsCollapsed(a + Collapse(front));
      } else {
        assert a + Collapse(b) == (a + Collapse(front)) + [last];
        CollapseNext(a + Collapse(front), last);
      }
    }
  }

  lemma CollapseOfNothing()
    ensures Collapse([]) == []
  {
  }

  /** Collapsing is idempotent and can be done piecewise, so it does not matter where a stream was cut. */
  lemma CollapsePiecewise(a: seq<Marker>, b: seq<Marker>)
    ensures Collapse(Collapse(a)) == Collapse(a)
    ensures Collapse(a + b) == Collapse(Collapse(a) + Collapse(b))
  {
    CollapseIsCollapsed(a);
    CollapseIsCollapsed(Collapse(a));
    CollapseLeft(a, b);
    CollapseRight(Collapse(a), b);
  }

  // ---- Output items ----

  // `text` is absent when it is not a string, `content` when it is not a list.
  datatype Part = OutputText(text: Option<string>) | OtherPart

  datatype Item =
    | NotAnObject
    | Message(content: Option<seq<Part>>)
    | FunctionCall(name: string, callId: Option<string>, arguments: Option<string>)
    | Reasoning
    | UnknownItem

  datatype Failure =
    | ItemNotObject | ToolResponseHasMessage | ContentMissing | TextStructure
    | TextResponseHasCall | ArgumentsNotJson | ToolStructure | UnknownItemType
    | DuplicateToolCall | ToolCallMissing | LifecycleFailed
    | InvalidEvent | TextDeltaStructure | ToolDeltaStructure | StreamFailed | StreamIncomplete

  // Decoding call arguments: absent when they are no JSON, otherwise whether they are the expected object. The empty
  // text, which also stands in for missing arguments, is never JSON.
  type Decode = string -> Option<bool>

  datatype Observed = Observed(markers: seq<Marker>, isTool: bool)

  function Texts(content: seq<Part>): seq<Option<string>> {
    if content == [] then []
    else
      var last := content[|content| - 1];
      Texts(content[..|content| - 1]) + if last.OutputText? then [last.text] else []
  }

  function Repeat(m: Marker, n: nat): seq<Marker> {
    if n == 0 then [] else Repeat(m, n - 1) + [m]
  }

  predicate ValidCall(decode: Decode, item: Item)
    requires item.FunctionCall? && item.arguments.Some?
  {
    item.name == "emit_probe" && item.callId.Some? && decode(item.arguments.value) == Some(true)
  }

  function ObserveItem(decode: Decode, item: Item, tool: bool): Result<Observed, Failure> {
    match item
    case NotAnObject => Err(ItemNotObject)
    case Message(content) =>
      if tool then Err(ToolResponseHasMessage)
      else if content.None? || content.value == [] then Err(ContentMissing)
      else
        var texts := Texts(content.value);
        if texts == [] || None in texts then Err(TextStructure)
        else Ok(Observed([MessageStart] + Repeat(TextMark, |texts|) + [MessageEnd], false))
    case FunctionCall(_, _, arguments) =>
      if !tool then Err(TextResponseHasCall)
      else if arguments.None? || arguments.value == "" || decode(arguments.value).None? then Err(ArgumentsNotJson)
      else if !ValidCall(decode, item) then Err(ToolStructure)
      else Ok(Observed([ToolStart, ToolMark, ToolEnd], true))
    case Reasoning => Ok(Observed([], false))
    case UnknownItem => Err(UnknownItemType)
  }

  // ---- What an item must be ----

  /** Some part is an output text, and every output text is a string. */
  predicate TextContent(content: seq<Part>) {
    && (exists part :: part in content && part.OutputText?)
    && (forall part :: part in content && part.OutputText? ==> part.text.Some?)
  }

  predicate Decodes(decode: Decode, item: Item)
    requires item.FunctionCall?
  {
    item.arguments.Some? && item.arguments.value != "" && decode(item.arguments.value).Some?
  }

  lemma {:induction false} TextsMean(content: seq<Part>)
    ensures Texts(content) == [] <==> forall part :: part in content ==> !part.OutputText?
    ensures None in Texts(content) <==> exists part :: part in content && part.OutputText? && part.text.None?
  {
    if content != [] {
      var front, last := content[..|content| - 1], content[|content| - 1];
      TextsMean(front);
      assert content == front + [last];
    }
  }

  /** Which items are observed, and why the others are not. */
  lemma ItemVerdict(decode: Decode, item: Item, tool: bool)
    ensures var r := ObserveItem(decode, item, tool);
            && (r.Ok? ==> (r.value.isTool <==> item.FunctionCall?))
            && (r == Err(ItemNotObject) <==> item.NotAnObject?)
            && (r == Err(UnknownItemType) <==> item.UnknownItem?)
            && (r == Err(ToolResponseHasMessage) <==> item.Message? && tool)
            && (r == Err(TextResponseHasCall) <==> item.FunctionCall? && !tool)
            && (item.Reasoning? ==> r.Ok?)
            && (item.Message? && !tool ==>
                  && (r == Err(ContentMissing) <==> item.content.None? || item.content.value == [])
                  && (r.Ok? <==> item.content.Some? && TextContent(item.content.value))
                  && (r.Err? ==> r.error in {ContentMissing, TextStructure}))
            && (item.FunctionCall? && tool ==>
                  && (r == Err(ArgumentsNotJson) <==> !Decodes(decode, item))
                  && (r.Ok? <==> && item.name == "emit_probe" && item.callId.Some?
                                 && Decodes(decode, item) && decode(item.arguments.value) == Some(true))
                  && (r.Err? ==> r.error in {ArgumentsNotJson, ToolStructure}))
  {
    if item.Message? && item.content.Some? { TextsMean(item.content.value); }
  }

  datatype Terminal = ToolUse | EndTurn

  datatype Projection = Projection(markers: seq<Marker>, terminal: Terminal)

  function TerminalOf(sawTool: bool): Terminal {
    if sawTool then ToolUse else EndTurn
  }

  // ---- The JSON decoder ----

  /** Markers and the tool flag after a list of items. */
  function FoldItems(decode: Decode, items: seq<Item>, tool: bool): Result<Observed, Failure> {
    if items == [] then Ok(Observed([ResponseStart], false))
    else
      match FoldItems(decode, items[..|items| - 1], tool)
      case Err(e) => Err(e)
      case Ok(before) =>
        match ObserveItem(decode, items[|items| - 1], tool)
        case Err(e) => Err(e)
        case Ok(one) =>
          if one.isTool && before.isTool then Err(DuplicateToolCall)
          else Ok(Observed(before.markers + one.markers, before.isTool || one.isTool))
  }

  /** `output` is absent unless the body is a completed response with a list of items. */
  function FromJson(decode: Decode, output: Option<seq<Item>>, tool: bool): Result<Projection, Failure> {
    if output.None? then Err(LifecycleFailed)
    else
      match FoldItems(decode, output.value, tool)
      case Err(e) => Err(e)
      case Ok(o) =>
        if tool && !o.isTool then Err(ToolCallMissing)
        else Ok(Projection(Collapse(o.markers + [ResponseEnd]), TerminalOf(o.isTool)))
  }

  /** Once an item fails, the decoder has failed for every longer list. */
  lemma {:induction false} FoldFails(decode: Decode, items: seq<Item>, n: nat, tool: bool)
    requires n <= |items| && FoldItems(decode, items[..n], tool).Err?
    ensures FoldItems(decode, items, tool) == FoldItems(decode, items[..n], tool)
  {
    if n == |items| {
      assert items[..n] == items;
    } else {
      var front := items[..|items| - 1];
      assert front[..n] == items[..n];
      FoldFails(decode, front, n, tool);
    }
  }

  method ObserveJson(decode: Decode, output: Option<seq<Item>>, tool: bool) returns (r: Result<Projection, Failure>)
    ensures r == FromJson(decode, output, tool)
  {
    hide ObserveItem, Collapse;
    if output.None? {
      return Err(LifecycleFailed);
    }
    var items := output.value;
    var markers := [ResponseStart];
    var sawTool := false;
    for i := 0 to |items|
      invariant FoldItems(decode, items[..i], tool) == Ok(Observed(markers, sawTool))
    {
      assert items[..i + 1][..i] == items[..i];
      var one := ObserveItem(decode, items[i], tool);
      if one.Err? {
        FoldFails(decode, items, i + 1, tool);
        return Err(one.error);
      }
      markers := markers + one.value.markers;
      if one.value.isTool && sawTool {
        FoldFails(decode, items, i + 1, tool);
        return Err(DuplicateToolCall);
      }
      sawTool := sawTool || one.value.isTool;
    }
    assert items[..|items|] == items;
    markers := markers + [ResponseEnd];
    if tool && !sawTool {
      return Err(ToolCallMissing);
    }
    var projection := CollapseMarkers(markers);
    return Ok(Projection(projection, TerminalOf(sawTool)));
  }

  /** Why the JSON decoder stops at an item, if it gets there. */
  function JsonFault(decode: Decode, before: seq<Item>, item: Item, tool: bool): Option<Failure> {
    match ObserveItem(decode, item, tool)
    case Err(e) => Some(e)
    case Ok(_) => if item.FunctionCall? && HasCall(before) then Some(DuplicateToolCall) else None
  }

  predicate HasCall(items: seq<Item>) {
    exists item :: item in items && item.FunctionCall?
  }

  function JsonFaults(decode: Decode, items: seq<Item>, tool: bool): seq<Option<Failure>> {
    if items == [] then []
    else
      var front := items[..|items| - 1];
      JsonFaults(decode, front, tool) + [JsonFault(decode, front, items[|items| - 1], tool)]
  }

  lemma {:induction false} FoldVerdict(decode: Decode, items: seq<Item>, tool: bool)
    ensures match FirstSome(JsonFaults(decode, items, tool))
            case Some(e) => FoldItems(decode, items, tool) == Err(e)
            case None => FoldItems(decode, items, tool).Ok? && (FoldItems(decode, items, tool).value.isTool <==> HasCall(items))
  {
    hide ObserveItem, FirstSome;
    if items == [] {
      FirstOfNone();
    } else {
      var front, last := items[..|items| - 1], items[|items| - 1];
      FoldVerdict(decode, front, tool);
      FirstSomeAppend(JsonFaults(decode, front, tool), JsonFault(decode, front, last, tool));
      ItemVerdict(decode, last, tool);
      assert HasCall(items) <==> HasCall(front) || last.FunctionCall? by { assert items == front + [last]; }
    }
  }

  lemma FirstOfNone()
    ensures FirstSome<Failure>([]) == None
  {
  }

  /** The JSON decoder's verdict on every body: an incomplete lifecycle, the first faulty item, a missing call, or
      success with the terminal that says whether there was a call. */
  lemma JsonVerdict(decode: Decode, output: Option<seq<Item>>, tool: bool)
    ensures var r := FromJson(decode, output, tool);
            && (output.None? ==> r == Err(LifecycleFailed))
            && (output.Some? ==>
                  match FirstSome(JsonFaults(decode, output.value, tool))
                  case Some(e) => r == Err(e)
                  case None =>
                    if tool && !HasCall(output.value) then r == Err(ToolCallMissing)
                    else r.Ok? && r.value.terminal == if HasCall(output.value) then ToolUse else EndTurn)
  {
    hide FoldItems, JsonFaults, HasCall;
    if output.Some? { FoldVerdict(decode, output.value, tool); }
  }

  // ---- The stream decoder ----

  // One line of the stream. `Quiet` is a line without data, the end sentinel, or an event of another type; `Created`
  // stands for both the created and the in-progress event.
  datatype Event =
    | Quiet
    | Malformed
    | Created
    | ItemAdded(item: Item)
    | TextDelta(delta: Option<string>)
    | ArgumentsDelta(delta: Option<string>)
    | ItemDone(item: Item)
    | Completed
    | Failed

  datatype Progress = Progress(markers: seq<Marker>, sawTool: bool, semantic: bool)

  const NOTHING := Progress([], false, false)

  function Mark(p: Progress, m: Marker): Progress {
    p.(markers := p.markers + [m])
  }

  function Take(decode: Decode, p: Progress, event: Event, tool: bool): Result<Progress, Failure> {
    match event
    case Quiet => Ok(p)
    case Malformed => Err(InvalidEvent)
    case Created => Ok(if ResponseStart in p.markers then p else Mark(p, ResponseStart))
    case ItemAdded(item) =>
      var q := p.(semantic := true);
      if item.Message? then (if tool then Err(ToolResponseHasMessage) else Ok(Mark(q, MessageStart)))
      else if item.FunctionCall? then (if !tool then Err(TextResponseHasCall) else Ok(Mark(q, ToolStart)))
      else Ok(q)
    case TextDelta(delta) =>
      if delta.None? || delta.value == "" then Err(TextDeltaStructure) else Ok(Mark(p.(semantic := true), TextMark))
    case ArgumentsDelta(delta) =>
      if delta.None? then Err(ToolDeltaStructure) else Ok(Mark(p.(semantic := true), ToolMark))
    case ItemDone(item) =>
      if item.Message? then Ok(Mark(p, MessageEnd))
      else if item.FunctionCall? then
        if p.sawTool then Err(DuplicateToolCall)
        else
          match ObserveItem(decode, item, tool)
          case Err(e) => Err(e)
          case Ok(one) => Ok(Mark(p.(sawTool := one.isTool), ToolEnd))
      else Ok(p)
    case Completed => Ok(Mark(p, ResponseEnd))
    case Failed => Err(StreamFailed)
  }

  function Follow(decode: Decode, p: Progress, events: seq<Event>, tool: bool): Result<Progress, Failure> {
    if events == [] then Ok(p)
    else
      match Follow(decode, p, events[..|events| - 1], tool)
      case Err(e) => Err(e)
      case Ok(q) => Take(decode, q, events[|events| - 1], tool)
  }

  function Conclude(p: Progress, tool: bool): Result<Projection, Failure> {
    var markers := Collapse(p.markers);
    if markers == [] || markers[0] != ResponseStart || markers[|markers| - 1] != ResponseEnd || !p.semantic then Err(StreamIncomplete)
    else if tool && !p.sawTool then Err(ToolCallMissing)
    else Ok(Projection(markers, TerminalOf(p.sawTool)))
  }

  function FromStream(decode: Decode, events: seq<Event>, tool: bool): Result<Projection, Failure> {
    match Follow(decode, NOTHING, events, tool)
    case Err(e) => Err(e)
    case Ok(p) => Conclude(p, tool)
  }

  lemma {:induction false} FollowConcat(decode: Decode, p: Progress, a: seq<Event>, b: seq<Event>, tool: bool)
    ensures Follow(decode, p, a + b, tool) ==
            match Follow(decode, p, a, tool)
            case Err(e) => Err(e)
            case Ok(q) => Follow(decode, q, b, tool)
  {
    hide Take;
    if b == [] {
      assert a + b == a;
    } else {
      FollowConcat(decode, p, a, b[..|b| - 1], tool);
      assert (a + b)[..|a + b| - 1] == a + b[..|b| - 1];
    }
  }

  method ObserveStream(decode: Decode, events: seq<Event>, tool: bool) returns (r: Result<Projection, Failure>)
    ensures r == FromStream(decode, events, tool)
  {
    hide Take, Collapse;
    var p := NOTHING;
    for i := 0 to |events|
      invariant Follow(decode, NOTHING, events[..i], tool) == Ok(p)
    {
      assert events[..i + 1][..i] == events[..i];
      var next := Take(decode, p, events[i], tool);
      if next.Err? {
        assert events == events[..i + 1] + events[i + 1..];
        FollowConcat(decode, NOTHING, events[..i + 1], events[i + 1..], tool);
        return Err(next.error);
      }
      p := next.value;
    }
    assert events[..|events|] == events;
    var markers := CollapseMarkers(p.markers);
    if markers == [] || markers[0] != ResponseStart || markers[|markers| - 1] != ResponseEnd || !p.semantic {
      return Err(StreamIncomplete);
    }
    if tool && !p.sawTool {
      return Err(ToolCallMissing);
    }
    return Ok(Projection(markers, TerminalOf(p.sawTool)));
  }

  // ---- Every event list ----

  predicate CallDone(events: seq<Event>) {
    exists e :: e in events && e.ItemDone? && e.item.FunctionCall?
  }

  /** An item was announced or a delta arrived. */
  predicate Semantic(events: seq<Event>) {
    exists e :: e in events && (e.ItemAdded? || e.TextDelta? || e.ArgumentsDelta?)
  }

  /** Why the stream decoder stops at an event, if it gets there. */
  function Offense(decode: Decode, before: seq<Event>, event: Event, tool: bool): Option<Failure> {
    match event
    case Malformed => Some(InvalidEvent)
    case Failed => Some(StreamFailed)
    case TextDelta(delta) => if delta.None? || delta == Some("") then Some(TextDeltaStructure) else None
    case ArgumentsDelta(delta) => if delta.None? then Some(ToolDeltaStructure) else None
    case ItemAdded(Message(_)) => if tool then Some(ToolResponseHasMessage) else None
    case ItemAdded(FunctionCall(_, _, _)) => if tool then None else Some(TextResponseHasCall)
    case ItemDone(FunctionCall(_, _, _)) =>
      var observed := ObserveItem(decode, event.item, tool);
      if CallDone(before) then Some(DuplicateToolCall) else if observed.Err? then Some(observed.error) else None
    case _ => None
  }

  function Offenses(decode: Decode, events: seq<Event>, tool: bool): (r: seq<Option<Failure>>)
    ensures |r| == |events|
  {
    if events == [] then []
    else
      var front := events[..|events| - 1];
      Offenses(decode, front, tool) + [Offense(decode, front, events[|events| - 1], tool)]
  }

  lemma {:induction false} OffenseAt(decode: Decode, events: seq<Event>, tool: bool, i: nat)
    requires i < |events|
    ensures Offenses(decode, events, tool)[i] == Offense(decode, events[..i], events[i], tool)
  {
    hide Offense;
    var front := events[..|events| - 1];
    if i < |front| {
      OffenseAt(decode, front, tool, i);
      assert front[..i] == events[..i];
    }
  }

  function MarksOf(event: Event): seq<Marker> {
    match event
    case Created => [ResponseStart]
    case ItemAdded(Message(_)) => [MessageStart]
    case ItemAdded(FunctionCall(_, _, _)) => [ToolStart]
    case TextDelta(_) => [TextMark]
    case ArgumentsDelta(_) => [ToolMark]
    case ItemDone(Message(_)) => [MessageEnd]
    case ItemDone(FunctionCall(_, _, _)) => [ToolEnd]
    case Completed => [ResponseEnd]
    case _ => []
  }

  /** The markers of the events in order, with the start marked once. */
  function EventMarkers(events: seq<Event>): seq<Marker> {
    if events == [] then []
    else
      var front, last := events[..|events| - 1], events[|events| - 1];
      EventMarkers(front) + if last.Created? && Created in front then [] else MarksOf(last)
  }

  lemma {:induction false} MarkedIff(events: seq<Event>)
    ensures ResponseStart in EventMarkers(events) <==> Created in events
    ensures ResponseEnd in EventMarkers(events) <==> Completed in events
  {
    if events != [] {
      var front, last := events[..|events| - 1], events[|events| - 1];
      MarkedIff(front);
      assert events == front + [last];
    }
  }

  lemma TakeMarks(decode: Decode, p: Progress, before: seq<Event>, event: Event, tool: bool)
    requires p.sawTool <==> CallDone(before)
    requires ResponseStart in p.markers <==> Created in before
    ensures match Offense(decode, before, event, tool)
            case Some(e) => Take(decode, p, event, tool) == Err(e)
            case None =>
              Take(decode, p, event, tool) ==
              Ok(Progress(p.markers + if event.Created? && Created in before then [] else MarksOf(event),
                          p.sawTool || (event.ItemDone? && event.item.FunctionCall?),
                          p.semantic || event.ItemAdded? || event.TextDelta? || event.ArgumentsDelta?))
  {
    assert p.markers + [] == p.markers;
    if event.ItemDone? {
      ItemVerdict(decode, event.item, tool);
      hide ObserveItem;
    }
  }

  lemma FlagsNext(front: seq<Event>, last: Event)
    ensures CallDone(front + [last]) <==> CallDone(front) || (last.ItemDone? && last.item.FunctionCall?)
    ensures Semantic(front + [last]) <==> Semantic(front) || last.ItemAdded? || last.TextDelta? || last.ArgumentsDelta?
  {
  }

  lemma {:induction false} FollowVerdict(decode: Decode, events: seq<Event>, tool: bool)
    ensures match FirstSome(Offenses(decode, events, tool))
            case Some(e) => Follow(decode, NOTHING, events, tool) == Err(e)
            case None => Follow(decode, NOTHING, events, tool) == Ok(Progress(EventMarkers(events), CallDone(events), Semantic(events)))
  {
    hide Offense, Take, FirstSome, CallDone, Semantic, MarksOf;
    if events == [] {
      FirstOfNone();
      NothingDone();
    } else {
      var front, last := events[..|events| - 1], events[|events| - 1];
      FollowVerdict(decode, front, tool);
      FirstSomeAppend(Offenses(decode, front, tool), Offense(decode, front, last, tool));
      MarkedIff(front);
      assert events == front + [last];
      FlagsNext(front, last);
      var q := Progress(EventMarkers(front), CallDone(front), Semantic(front));
      TakeMarks(decode, q, front, last, tool);
    }
  }

  lemma NothingDone()
    ensures !CallDone([]) && !Semantic([])
  {
  }

  lemma {:induction false} CollapseKeepsEnds(markers: seq<Marker>)
    requires markers != []
    ensures Collapse(markers) != []
    ensures Collapse(markers)[0] == markers[0]
    ensures Collapse(markers)[|Collapse(markers)| - 1] == markers[|markers| - 1]
  {
    var front := markers[..|markers| - 1];
    if front == [] {
      assert Collapse(front) == [];
    } else {
      CollapseKeepsEnds(front);
    }
  }

  /** The stream decoder's verdict on every event list whatsoever: the first offending event, an incomplete stream, a
      missing call, or the collapsed markers of the events with the terminal that says whether a call was done. */
  lemma StreamVerdict(decode: Decode, events: seq<Event>, tool: bool)
    ensures var r, marks := FromStream(decode, events, tool), EventMarkers(events);
            match FirstSome(Offenses(decode, events, tool))
            case Some(e) => r == Err(e)
            case None =>
              if marks == [] || marks[0] != ResponseStart || marks[|marks| - 1] != ResponseEnd || !Semantic(events)
              then r == Err(StreamIncomplete)
              else if tool && !CallDone(events) then r == Err(ToolCallMissing)
              else r == Ok(Projection(Collapse(marks), if CallDone(events) then ToolUse else EndTurn))
  {
    hide Follow, Offenses, FirstSome, CallDone, Semantic, EventMarkers, Collapse;
    FollowVerdict(decode, events, tool);
    CollapseOfNothing();
    if EventMarkers(events) != [] { CollapseKeepsEnds(EventMarkers(events)); }
  }

  /** What every accepted event list contains and does not contain. */
  lemma AcceptedStreamMeans(decode: Decode, events: seq<Event>, tool: bool)
    requires FromStream(decode, events, tool).Ok?
    ensures Created in events && Completed in events && Semantic(events)
    ensures Failed !in events && Malformed !in events
    ensures forall e :: e in events && e.TextDelta? ==> e.delta.Some? && e.delta.value != ""
    ensures forall e :: e in events && e.ArgumentsDelta? ==> e.delta.Some?
    ensures forall e :: e in events && e.ItemAdded? ==> if tool then !e.item.Message? else !e.item.FunctionCall?
    ensures CallDone(events) <==> tool
    ensures forall i, j :: 0 <= i < j < |events| && events[i].ItemDone? && events[j].ItemDone? && events[i].item.FunctionCall? ==>
              !events[j].item.FunctionCall?
  {
    StreamVerdict(decode, events, tool);
    MarkedIff(events);
    var marks := EventMarkers(events);
    assert ResponseStart in marks && ResponseEnd in marks;
    hide FromStream, EventMarkers, Offenses, Semantic;
    forall i | 0 <= i < |events|
      ensures Offense(decode, events[..i], events[i], tool).None?
    {
      OffenseAt(decode, events, tool, i);
    }
    hide FirstSome;
    NoOffenseMeans(decode, events, tool);
  }

  lemma NoOffenseMeans(decode: Decode, events: seq<Event>, tool: bool)
    requires forall i :: 0 <= i < |events| ==> Offense(decode, events[..i], events[i], tool).None?
    ensures Failed !in events && Malformed !in events
    ensures forall e :: e in events && e.TextDelta? ==> e.delta.Some? && e.delta.value != ""
    ensures forall e :: e in events && e.ArgumentsDelta? ==> e.delta.Some?
    ensures forall e :: e in events && e.ItemAdded? ==> if tool then !e.item.Message? else !e.item.FunctionCall?
    ensures CallDone(events) ==> tool
    ensures forall i, j :: 0 <= i < j < |events| && events[i].ItemDone? && events[j].ItemDone? && events[i].item.FunctionCall? ==>
              !events[j].item.FunctionCall?
  {
    forall i | 0 <= i < |events|
      ensures !events[i].Failed? && !events[i].Malformed?
      ensures events[i].TextDelta? ==> events[i].delta.Some? && events[i].delta.value != ""
      ensures events[i].ArgumentsDelta? ==> events[i].delta.Some?
      ensures events[i].ItemAdded? ==> if tool then !events[i].item.Message? else !events[i].item.FunctionCall?
      ensures events[i].ItemDone? && events[i].item.FunctionCall? ==> tool && !CallDone(events[..i])
    {
      assert Offense(decode, events[..i], events[i], tool).None?;
      if events[i].ItemDone? { ItemVerdict(decode, events[i].item, tool); }
      hide ObserveItem;
    }
    hide Offense;
    forall i, j | 0 <= i < j < |events| && events[i].ItemDone? && events[j].ItemDone? && events[i].item.FunctionCall?
      ensures !events[j].item.FunctionCall?
    {
      assert events[..j][i] == events[i] && events[i] in events[..j];
      assert CallDone(events[..j]);
    }
  }

  // ---- Streaming a response item by item ----

  /** Items that leave markers. All others are announced and finished without one. */
  predicate Spoken(item: Item) {
    item.Message? || item.FunctionCall?
  }

  /** The spoken items of a response, in order. */
  function SpokenItems(items: seq<Item>): seq<Item> {
    if items == [] then []
    else SpokenItems(items[..|items| - 1]) + if Spoken(items[|items| - 1]) then [items[|items| - 1]] else []
  }

  /** Lines that may stand anywhere: lines without data, events of other types, a repeated start, and the announcement
      or end of an item that leaves no markers. */
  predicate Noise(event: Event) {
    match event
    case Quiet => true
    case Created => true
    case ItemAdded(item) => !Spoken(item)
    case ItemDone(item) => !Spoken(item)
    case _ => false
  }

  predicate AllNoise(events: seq<Event>) {
    forall e :: e in events ==> Noise(e)
  }

  predicate Announces(events: seq<Event>) {
    exists e :: e in events && e.ItemAdded?
  }

  /** The events of one spoken item: it is added, deltas arrive among noise, it is done, and noise may follow. The added
      item may still be incomplete, and so may a message that is done. */
  datatype Block = Block(item: Item, added: Item, middle: seq<Event>, done: Item, tail: seq<Event>)

  predicate SameType(a: Item, b: Item) {
    (a.Message? && b.Message?) || (a.FunctionCall? && b.FunctionCall?)
  }

  predicate DeltaOf(item: Item, event: Event) {
    match item
    case Message(_) => event.TextDelta? && event.delta.Some? && event.delta.value != ""
    case FunctionCall(_, _, _) => event.ArgumentsDelta? && event.delta.Some?
    case _ => false
  }

  predicate Streams(b: Block) {
    && SameType(b.item, b.added)
    && (forall e :: e in b.middle ==> Noise(e) || DeltaOf(b.item, e))
    && (if b.item.Message? then b.done.Message? else b.done == b.item)
    && AllNoise(b.tail)
  }

  function Deltas(item: Item, events: seq<Event>): nat {
    if events == [] then 0
    else Deltas(item, events[..|events| - 1]) + if DeltaOf(item, events[|events| - 1]) then 1 else 0
  }

  predicate HasDelta(b: Block) {
    Deltas(b.item, b.middle) > 0
  }

  function Events(b: Block): seq<Event> {
    [ItemAdded(b.added)] + b.middle + [ItemDone(b.done)] + b.tail
  }

  function AllEvents(blocks: seq<Block>): seq<Event> {
    if blocks == [] then [] else AllEvents(blocks[..|blocks| - 1]) + Events(blocks[|blocks| - 1])
  }

  function Items(blocks: seq<Block>): seq<Item> {
    seq(|blocks|, i requires 0 <= i < |blocks| => blocks[i].item)
  }

  function Streamed(start: seq<Event>, blocks: seq<Block>, after: seq<Event>): seq<Event> {
    start + AllEvents(blocks) + [Completed] + after
  }

  /** A sequential streaming of a response: noise that includes the start, the spoken items one after another, the end,
      and noise. Items that leave no markers may be announced and finished anywhere, also inside other items. */
  predicate Sequential(start: seq<Event>, items: seq<Item>, blocks: seq<Block>, after: seq<Event>) {
    && AllNoise(start) && Created in start && AllNoise(after)
    && (forall i :: 0 <= i < |blocks| ==> Streams(blocks[i]))
    && SpokenItems(items) == Items(blocks)
  }

  /** The markers of an item with a given number of deltas. */
  function ItemMarkers(item: Item, deltas: nat): seq<Marker> {
    match item
    case Message(_) => [MessageStart] + Repeat(TextMark, deltas) + [MessageEnd]
    case FunctionCall(_, _, _) => [ToolStart] + Repeat(ToolMark, deltas) + [ToolEnd]
    case _ => []
  }

  function Opening(item: Item): seq<Marker> {
    if item.Message? then [MessageStart] else [ToolStart]
  }

  function Closing(item: Item): seq<Marker> {
    if item.Message? then [MessageEnd] else [ToolEnd]
  }

  function DeltaMark(item: Item): Marker {
    if item.Message? then TextMark else ToolMark
  }

  /** Noise marks at most the start, and announcing any item counts as semantic. */
  lemma {:induction false} FollowNoise(decode: Decode, p: Progress, noise: seq<Event>, tool: bool)
    requires AllNoise(noise)
    ensures Follow(decode, p, noise, tool) ==
            Ok(Progress(if ResponseStart in p.markers || Created !in noise then p.markers else p.markers + [ResponseStart],
                        p.sawTool, p.semantic || Announces(noise)))
  {
    hide ObserveItem;
    if noise != [] {
      var front, last := noise[..|noise| - 1], noise[|noise| - 1];
      assert noise == front + [last] && Noise(last);
      FollowNoise(decode, p, front, tool);
      assert Announces(noise) <==> Announces(front) || last.ItemAdded?;
      assert Created in noise <==> Created in front || last == Created;
      var q := Follow(decode, p, front, tool).value;
      assert ResponseStart in q.markers <==> ResponseStart in p.markers || Created in front;
    }
  }

  lemma {:induction false} FollowMiddle(decode: Decode, p: Progress, item: Item, middle: seq<Event>, tool: bool)
    requires forall e :: e in middle ==> Noise(e) || DeltaOf(item, e)
    requires ResponseStart in p.markers && p.semantic
    ensures Follow(decode, p, middle, tool) ==
            Ok(p.(markers := p.markers + Repeat(DeltaMark(item), Deltas(item, middle))))
  {
    hide ObserveItem;
    if middle == [] {
      assert p.markers + Repeat(DeltaMark(item), 0) == p.markers;
    } else {
      var front, last := middle[..|middle| - 1], middle[|middle| - 1];
      FollowMiddle(decode, p, item, front, tool);
      assert last in middle;
      var n := Deltas(item, front);
      assert (p.markers + Repeat(DeltaMark(item), n)) + [DeltaMark(item)] == p.markers + Repeat(DeltaMark(item), n + 1);
    }
  }

  lemma FollowOne(decode: Decode, p: Progress, e: Event, tool: bool)
    ensures Follow(decode, p, [e], tool) == Take(decode, p, e, tool)
  {
    assert [e][..0] == [];
    assert Follow(decode, p, [], tool) == Ok(p);
  }

  lemma TakeAdded(decode: Decode, p: Progress, b: Block, tool: bool)
    requires SameType(b.item, b.added)
    ensures var r := Take(decode, p, ItemAdded(b.added), tool);
            if b.item.FunctionCall? == tool then r == Ok(Progress(p.markers + Opening(b.item), p.sawTool, true)) else r.Err?
  {
  }

  /** What the stream decoder asks of a spoken item: nothing of a message, everything of a call. */
  predicate Admits(decode: Decode, item: Item, sawTool: bool, tool: bool) {
    if tool then item.FunctionCall? && !sawTool && ObserveItem(decode, item, tool).Ok? else item.Message?
  }

  lemma TakeDone(decode: Decode, p: Progress, b: Block, tool: bool)
    requires Streams(b) && b.item.FunctionCall? == tool
    ensures var r := Take(decode, p, ItemDone(b.done), tool);
            && (r.Ok? <==> Admits(decode, b.item, p.sawTool, tool))
            && (r.Ok? ==> r.value == Progress(p.markers + Closing(b.item), p.sawTool || tool, p.semantic))
  {
  }

  lemma MarkersOfItem(before: seq<Marker>, b: Block)
    requires Streams(b)
    ensures ((before + Opening(b.item)) + Repeat(DeltaMark(b.item), Deltas(b.item, b.middle))) + Closing(b.item)
            == before + ItemMarkers(b.item, Deltas(b.item, b.middle))
  {
  }

  /** A streamed item is followed exactly when it is admitted, and leaves its markers. */
  lemma FollowBlock(decode: Decode, p: Progress, b: Block, tool: bool)
    requires Streams(b) && ResponseStart in p.markers
    ensures var r := Follow(decode, p, Events(b), tool);
            && (r.Ok? <==> Admits(decode, b.item, p.sawTool, tool))
            && (r.Ok? ==> r.value == Progress(p.markers + ItemMarkers(b.item, Deltas(b.item, b.middle)), p.sawTool || tool, true))
  {
    hide Follow, Take, ObserveItem, Deltas, Repeat, ItemMarkers, Noise;
    var start, n := [ItemAdded(b.added)], Deltas(b.item, b.middle);
    var q0 := Progress(p.markers + Opening(b.item), p.sawTool, true);
    var q1 := q0.(markers := q0.markers + Repeat(DeltaMark(b.item), n));
    var q2 := Progress(q1.markers + Closing(b.item), p.sawTool || tool, true);
    TakeAdded(decode, p, b, tool);
    FollowOne(decode, p, ItemAdded(b.added), tool);
    FollowConcat(decode, p, start, b.middle, tool);
    FollowConcat(decode, p, start + b.middle, [ItemDone(b.done)], tool);
    FollowConcat(decode, p, start + b.middle + [ItemDone(b.done)], b.tail, tool);
    if b.item.FunctionCall? == tool {
      FollowMiddle(decode, q0, b.item, b.middle, tool);
      FollowOne(decode, q1, ItemDone(b.done), tool);
      TakeDone(decode, q1, b, tool);
      FollowNoise(decode, q2, b.tail, tool);
      MarkersOfItem(p.markers, b);
    }
  }

  function StreamMarkers(blocks: seq<Block>): seq<Marker> {
    if blocks == [] then []
    else
      var b := blocks[|blocks| - 1];
      StreamMarkers(blocks[..|blocks| - 1]) + ItemMarkers(b.item, Deltas(b.item, b.middle))
  }

  lemma ItemsNext(blocks: seq<Block>)
    requires blocks != []
    ensures Items(blocks)[..|blocks| - 1] == Items(blocks[..|blocks| - 1])
    ensures Items(blocks)[|blocks| - 1] == blocks[|blocks| - 1].item
  {
  }

  /** Spoken items the stream decoder admits: messages only, or at most one call, which must be valid. */
  predicate AllAdmitted(decode: Decode, items: seq<Item>, tool: bool) {
    && (tool ==> |items| <= 1)
    && forall i :: 0 <= i < |items| ==> Admits(decode, items[i], false, tool)
  }

  lemma AdmittedNext(decode: Decode, blocks: seq<Block>, tool: bool)
    requires blocks != []
    ensures var front, item := blocks[..|blocks| - 1], blocks[|blocks| - 1].item;
            AllAdmitted(decode, Items(blocks), tool) <==>
            AllAdmitted(decode, Items(front), tool) && Admits(decode, item, tool && front != [], tool)
  {
    hide ObserveItem;
    var front := blocks[..|blocks| - 1];
    ItemsNext(blocks);
    assert forall i :: 0 <= i < |front| ==> Items(blocks)[i] == Items(front)[i];
  }

  /** Streamed items are followed exactly when they are all admitted, and leave their markers. */
  ghost predicate Followed(decode: Decode, p: Progress, blocks: seq<Block>, tool: bool) {
    var r := Follow(decode, p, AllEvents(blocks), tool);
    && (r.Ok? <==> AllAdmitted(decode, Items(blocks), tool))
    && (r.Ok? ==> r.value == Progress(p.markers + StreamMarkers(blocks), tool && blocks != [], p.semantic || blocks != []))
  }

  lemma NothingFollowed(decode: Decode, p: Progress, tool: bool)
    requires !p.sawTool
    ensures Followed(decode, p, [], tool)
  {
    assert p.markers + StreamMarkers([]) == p.markers;
  }

  lemma FollowedNext(decode: Decode, p: Progress, blocks: seq<Block>, tool: bool)
    requires blocks != [] && Streams(blocks[|blocks| - 1]) && ResponseStart in p.markers
    requires Followed(decode, p, blocks[..|blocks| - 1], tool)
    ensures Followed(decode, p, blocks, tool)
  {
    hide Events, Follow, ItemMarkers, Streams, Admits, Deltas, AllAdmitted, Items;
    var front, b := blocks[..|blocks| - 1], blocks[|blocks| - 1];
    AdmittedNext(decode, blocks, tool);
    FollowConcat(decode, p, AllEvents(front), Events(b), tool);
    var r := Follow(decode, p, AllEvents(front), tool);
    if r.Ok? {
      FollowBlock(decode, r.value, b, tool);
      assert r.value.markers + ItemMarkers(b.item, Deltas(b.item, b.middle)) == p.markers + StreamMarkers(blocks);
    }
  }

  lemma {:induction false} FollowBlocks(decode: Decode, p: Progress, blocks: seq<Block>, tool: bool)
    requires forall i :: 0 <= i < |blocks| ==> Streams(blocks[i])
    requires ResponseStart in p.markers && !p.sawTool
    ensures Followed(decode, p, blocks, tool)
  {
    hide Followed, Streams;
    if blocks == [] {
      NothingFollowed(decode, p, tool);
    } else {
      FollowBlocks(decode, p, blocks[..|blocks| - 1], tool);
      FollowedNext(decode, p, blocks, tool);
    }
  }

  // ---- The JSON decoder on any items ----

  lemma {:induction false} SpokenAreItems(items: seq<Item>, x: Item)
    ensures x in SpokenItems(items) <==> x in items && Spoken(x)
  {
    if items != [] {
      SpokenAreItems(items[..|items| - 1], x);
      assert items == items[..|items| - 1] + [items[|items| - 1]];
    }
  }

  predicate AllObserved(decode: Decode, items: seq<Item>, tool: bool) {
    forall i :: 0 <= i < |items| ==> ObserveItem(decode, items[i], tool).Ok?
  }

  /** The JSON decoder accepts the items exactly when it accepts each of them and there is at most one call. */
  lemma {:induction false} FoldIff(decode: Decode, items: seq<Item>, tool: bool)
    ensures var r := FoldItems(decode, items, tool);
            && (r.Ok? <==> AllObserved(decode, items, tool) && (tool ==> |SpokenItems(items)| <= 1))
            && (r.Ok? ==> (r.value.isTool <==> tool && SpokenItems(items) != []))
  {
    if items != [] {
      var front, last := items[..|items| - 1], items[|items| - 1];
      FoldIff(decode, front, tool);
      assert AllObserved(decode, items, tool) <==> AllObserved(decode, front, tool) && ObserveItem(decode, last, tool).Ok?;
    }
  }

  /** Items the JSON decoder accepts are admitted by the stream decoder. */
  lemma ObservedAreAdmitted(decode: Decode, items: seq<Item>, tool: bool)
    requires FoldItems(decode, items, tool).Ok?
    ensures AllAdmitted(decode, SpokenItems(items), tool)
  {
    FoldIff(decode, items, tool);
    var spoken := SpokenItems(items);
    hide FoldItems, SpokenItems;
    forall i | 0 <= i < |spoken|
      ensures Admits(decode, spoken[i], false, tool)
    {
      SpokenAreItems(items, spoken[i]);
      assert AllObserved(decode, items, tool);
    }
  }

  // ---- Collapsed blocks ----

  /** What an item looks like once collapsed, with and without deltas. */
  function Brief(item: Item, some: bool): seq<Marker> {
    match item
    case Message(_) => if some then [MessageStart, TextMark, MessageEnd] else [MessageStart, MessageEnd]
    case FunctionCall(_, _, _) => if some then [ToolStart, ToolMark, ToolEnd] else [ToolStart, ToolEnd]
    case _ => []
  }

  lemma {:induction false} CollapseRepeat(m: Marker, n: nat)
    requires m.IsDelta()
    ensures Collapse(Repeat(m, n)) == if n == 0 then [] else [m]
  {
    hide Collapse;
    CollapseOfNothing();
    if n > 0 {
      CollapseRepeat(m, n - 1);
      CollapseNext(Repeat(m, n - 1), m);
    }
  }

  lemma CollapseItem(item: Item, deltas: nat)
    ensures Collapse(ItemMarkers(item, deltas)) == Brief(item, deltas > 0)
  {
    hide Collapse;
    if item.Message? {
      CollapseRun(MessageStart, TextMark, deltas, MessageEnd);
    } else if item.FunctionCall? {
      CollapseRun(ToolStart, ToolMark, deltas, ToolEnd);
    } else {
      CollapseOfNothing();
    }
  }

  lemma CollapseRun(first: Marker, m: Marker, deltas: nat, last: Marker)
    requires !first.IsDelta() && m.IsDelta() && !last.IsDelta()
    ensures Collapse([first] + Repeat(m, deltas) + [last]) == [first] + Repeat(m, if deltas > 0 then 1 else 0) + [last]
  {
    hide Collapse;
    var short := Repeat(m, if deltas > 0 then 1 else 0);
    assert Repeat(m, 1) == Repeat(m, 0) + [m] == [m];
    CollapseRepeat(m, deltas);
    CollapseRight([first], Repeat(m, deltas));
    CollapseIsCollapsed([first] + short);
    CollapseNext([first] + Repeat(m, deltas), last);
  }

  lemma BriefIsCollapsed(item: Item, some: bool)
    ensures Collapsed(Brief(item, some)) && (Brief(item, some) != [] ==> !Brief(item, some)[0].IsDelta())
  {
    assert Repeat(DeltaMark(item), 1) == Repeat(DeltaMark(item), 0) + [DeltaMark(item)];
  }

  lemma CollapsedConcat(a: seq<Marker>, b: seq<Marker>)
    requires Collapsed(a) && Collapsed(b) && (b != [] ==> !b[0].IsDelta())
    ensures Collapsed(a + b)
  {
    var all := a + b;
    forall i | 0 <= i < |all| - 1 && all[i] == all[i + 1]
      ensures !all[i].IsDelta()
    {
      if i + 1 < |a| {
        assert a[i] == a[i + 1];
      } else if i >= |a| {
        assert b[i - |a|] == b[i - |a| + 1];
      }
    }
  }

  /** The boundary between blocks never merges, because a block neither starts nor ends with a delta. */
  lemma CollapseAppendItem(before: seq<Marker>, item: Item, deltas: nat)
    requires Collapsed(before)
    ensures Collapse(before + ItemMarkers(item, deltas)) == before + Brief(item, deltas > 0)
    ensures Collapsed(before + Brief(item, deltas > 0))
  {
    hide Collapse, Collapsed, Brief, ItemMarkers;
    CollapseItem(item, deltas);
    CollapseRight(before, ItemMarkers(item, deltas));
    BriefIsCollapsed(item, deltas > 0);
    CollapsedConcat(before, Brief(item, deltas > 0));
    CollapseIsCollapsed(before + Brief(item, deltas > 0));
  }

  function Briefs(blocks: seq<Block>, full: bool): seq<Marker> {
    if blocks == [] then []
    else
      var b := blocks[|blocks| - 1];
      Briefs(blocks[..|blocks| - 1], full) + Brief(b.item, full || Deltas(b.item, b.middle) > 0)
  }

  lemma CollapseStreamNext(blocks: seq<Block>)
    requires blocks != []
    requires var front := blocks[..|blocks| - 1];
             && Collapse([ResponseStart] + StreamMarkers(front)) == [ResponseStart] + Briefs(front, false)
             && Collapsed([ResponseStart] + Briefs(front, false))
    ensures Collapse([ResponseStart] + StreamMarkers(blocks)) == [ResponseStart] + Briefs(blocks, false)
    ensures Collapsed([ResponseStart] + Briefs(blocks, false))
  {
    hide Collapse, Brief, ItemMarkers, Deltas, Collapsed;
    var front, b := blocks[..|blocks| - 1], blocks[|blocks| - 1];
    var n := Deltas(b.item, b.middle);
    assert StreamMarkers(blocks) == StreamMarkers(front) + ItemMarkers(b.item, n);
    assert Briefs(blocks, false) == Briefs(front, false) + Brief(b.item, n > 0);
    hide StreamMarkers, Briefs;
    CollapseLeft([ResponseStart] + StreamMarkers(front), ItemMarkers(b.item, n));
    CollapseAppendItem([ResponseStart] + Briefs(front, false), b.item, n);
    assert ([ResponseStart] + StreamMarkers(front)) + ItemMarkers(b.item, n) == [ResponseStart] + StreamMarkers(blocks);
    assert ([ResponseStart] + Briefs(front, false)) + Brief(b.item, n > 0) == [ResponseStart] + Briefs(blocks, false);
  }

  lemma {:induction false} CollapseStream(blocks: seq<Block>)
    ensures Collapse([ResponseStart] + StreamMarkers(blocks)) == [ResponseStart] + Briefs(blocks, false)
    ensures Collapsed([ResponseStart] + Briefs(blocks, false))
  {
    hide Collapse, Brief, ItemMarkers, Collapsed;
    if blocks == [] {
      CollapsedStart();
      assert [ResponseStart] + [] == [ResponseStart];
    } else {
      hide StreamMarkers, Briefs;
      CollapseStream(blocks[..|blocks| - 1]);
      CollapseStreamNext(blocks);
    }
  }

  lemma ObservedMarkers(decode: Decode, item: Item, tool: bool)
    requires ObserveItem(decode, item, tool).Ok?
    ensures exists n: nat :: n > 0 && ObserveItem(decode, item, tool).value.markers == ItemMarkers(item, n)
    ensures ObserveItem(decode, item, tool).value.isTool == item.FunctionCall?
  {
    if item.Message? {
      assert ObserveItem(decode, item, tool).value.markers == ItemMarkers(item, |Texts(item.content.value)|);
    } else {
      assert Repeat(ToolMark, 1) == Repeat(ToolMark, 0) + [ToolMark];
      assert ObserveItem(decode, item, tool).value.markers == ItemMarkers(item, 1);
    }
  }

  lemma {:induction false} CollapseJson(decode: Decode, items: seq<Item>, blocks: seq<Block>, tool: bool)
    requires FoldItems(decode, items, tool).Ok? && SpokenItems(items) == Items(blocks)
    ensures Collapse(FoldItems(decode, items, tool).value.markers) == [ResponseStart] + Briefs(blocks, true)
    ensures Collapsed([ResponseStart] + Briefs(blocks, true))
  {
    hide Collapse, Brief, ItemMarkers, ObserveItem, Collapsed;
    if items == [] {
      CollapsedStart();
      assert [ResponseStart] + Briefs(blocks, true) == [ResponseStart];
    } else {
      var before, item := items[..|items| - 1], items[|items| - 1];
      var markers := FoldItems(decode, before, tool).value.markers;
      if Spoken(item) {
        var front := blocks[..|blocks| - 1];
        ItemsNext(blocks);
        assert SpokenItems(before) == SpokenItems(items)[..|blocks| - 1];
        CollapseJson(decode, before, front, tool);
        ObservedMarkers(decode, item, tool);
        var n: nat :| n > 0 && ObserveItem(decode, item, tool).value.markers == ItemMarkers(item, n);
        CollapseLeft(markers, ItemMarkers(item, n));
        CollapseAppendItem([ResponseStart] + Briefs(front, true), item, n);
        assert ([ResponseStart] + Briefs(front, true)) + Brief(item, true) == [ResponseStart] + Briefs(blocks, true);
      } else {
        UnspokenMarkers(decode, item, tool);
        assert markers + [] == markers;
        assert SpokenItems(before) + [] == SpokenItems(before);
        CollapseJson(decode, before, blocks, tool);
      }
    }
  }

  lemma CollapsedStart()
    ensures Collapse([ResponseStart]) == [ResponseStart] && Collapsed([ResponseStart])
  {
    CollapseIsCollapsed([ResponseStart]);
  }

  lemma UnspokenMarkers(decode: Decode, item: Item, tool: bool)
    requires ObserveItem(decode, item, tool).Ok? && !Spoken(item)
    ensures ObserveItem(decode, item, tool).value.markers == []
  {
  }

  /** The two collapsed forms agree exactly when every message and call had a delta. */
  lemma {:induction false} BriefsAgree(blocks: seq<Block>)
    requires forall i :: 0 <= i < |blocks| ==> Streams(blocks[i])
    ensures |Briefs(blocks, false)| <= |Briefs(blocks, true)|
    ensures |Briefs(blocks, false)| == |Briefs(blocks, true)| <==> forall i :: 0 <= i < |blocks| ==> HasDelta(blocks[i])
    ensures (forall i :: 0 <= i < |blocks| ==> HasDelta(blocks[i])) ==> Briefs(blocks, false) == Briefs(blocks, true)
  {
    hide Brief, Deltas;
    if blocks != [] {
      var front, b := blocks[..|blocks| - 1], blocks[|blocks| - 1];
      BriefsAgree(front);
      assert Streams(b);
      BriefSizes(b.item);
      assert (forall i :: 0 <= i < |blocks| ==> HasDelta(blocks[i])) <==>
             (forall i :: 0 <= i < |front| ==> HasDelta(front[i])) && HasDelta(b);
    }
  }

  lemma BriefSizes(item: Item)
    ensures item.Message? || item.FunctionCall? ==> |Brief(item, false)| < |Brief(item, true)|
  {
    assert Repeat(DeltaMark(item), 1) == Repeat(DeltaMark(item), 0) + [DeltaMark(item)];
  }

  lemma {:induction false} BlocksAnnounce(blocks: seq<Block>)
    ensures blocks != [] ==> Announces(AllEvents(blocks))
    ensures blocks == [] ==> AllEvents(blocks) == []
  {
    if blocks != [] {
      var b := blocks[|blocks| - 1];
      assert ItemAdded(b.added) in Events(b);
      assert ItemAdded(b.added) in AllEvents(blocks);
    }
  }

  lemma StreamAnnounces(start: seq<Event>, blocks: seq<Block>, after: seq<Event>)
    ensures Announces(Streamed(start, blocks, after)) <==> Announces(start) || blocks != [] || Announces(after)
  {
    hide AllEvents;
    BlocksAnnounce(blocks);
    var all := Streamed(start, blocks, after);
    forall e
      ensures e in all <==> e in start || e in AllEvents(blocks) || e == Completed || e in after
    {
    }
  }

  lemma FollowOpened(decode: Decode, start: seq<Event>, blocks: seq<Block>, tool: bool)
    requires AllNoise(start) && Created in start
    requires forall i :: 0 <= i < |blocks| ==> Streams(blocks[i])
    ensures var r := Follow(decode, NOTHING, start + AllEvents(blocks), tool);
            && (r.Ok? <==> AllAdmitted(decode, Items(blocks), tool))
            && (r.Ok? ==> r.value == Progress([ResponseStart] + StreamMarkers(blocks), tool && blocks != [], Announces(start) || blocks != []))
  {
    hide Follow, StreamMarkers, Streams, AllEvents, AllAdmitted, Announces, AllNoise, Items;
    FollowNoise(decode, NOTHING, start, tool);
    assert NOTHING.markers + [ResponseStart] == [ResponseStart];
    FollowConcat(decode, NOTHING, start, AllEvents(blocks), tool);
    FollowBlocks(decode, Progress([ResponseStart], false, Announces(start)), blocks, tool);
  }

  lemma FollowClosing(decode: Decode, p: Progress, after: seq<Event>, tool: bool)
    requires AllNoise(after) && ResponseStart in p.markers
    ensures Follow(decode, p, [Completed] + after, tool) ==
            Ok(Progress(p.markers + [ResponseEnd], p.sawTool, p.semantic || Announces(after)))
  {
    hide Follow, Announces, AllNoise;
    FollowOne(decode, p, Completed, tool);
    FollowConcat(decode, p, [Completed], after, tool);
    FollowNoise(decode, Mark(p, ResponseEnd), after, tool);
  }

  lemma FollowWhole(decode: Decode, start: seq<Event>, blocks: seq<Block>, after: seq<Event>, tool: bool)
    requires AllNoise(start) && Created in start && AllNoise(after)
    requires forall i :: 0 <= i < |blocks| ==> Streams(blocks[i])
    ensures var all := Streamed(start, blocks, after);
            var r := Follow(decode, NOTHING, all, tool);
            && (r.Ok? <==> AllAdmitted(decode, Items(blocks), tool))
            && (r.Ok? ==> r.value == Progress([ResponseStart] + StreamMarkers(blocks) + [ResponseEnd], tool && blocks != [], Announces(all)))
  {
    hide Follow, StreamMarkers, Streams, AllEvents, AllAdmitted, Announces, AllNoise, Items;
    var begun := start + AllEvents(blocks);
    FollowOpened(decode, start, blocks, tool);
    FollowConcat(decode, NOTHING, begun, [Completed] + after, tool);
    assert begun + ([Completed] + after) == Streamed(start, blocks, after);
    StreamAnnounces(start, blocks, after);
    hide Streamed;
    if AllAdmitted(decode, Items(blocks), tool) {
      FollowClosing(decode, Follow(decode, NOTHING, begun, tool).value, after, tool);
    }
  }

  /** The projection and verdict of every sequential streaming, whatever its items are. */
  lemma StreamResult(decode: Decode, start: seq<Event>, items: seq<Item>, blocks: seq<Block>, after: seq<Event>, tool: bool)
    requires Sequential(start, items, blocks, after)
    ensures var all := Streamed(start, blocks, after);
            var r := FromStream(decode, all, tool);
            && (r.Ok? <==> AllAdmitted(decode, SpokenItems(items), tool) && Announces(all) && (tool ==> blocks != []))
            && (r.Ok? ==> r.value == Projection([ResponseStart] + Briefs(blocks, false) + [ResponseEnd], if tool then ToolUse else EndTurn))
            && (AllAdmitted(decode, SpokenItems(items), tool) && !Announces(all) ==> r == Err(StreamIncomplete))
  {
    hide Collapse, Briefs, Streams, StreamMarkers, AllAdmitted, Announces, Follow, Streamed;
    FollowWhole(decode, start, blocks, after, tool);
    CollapseStream(blocks);
    CollapseNext([ResponseStart] + StreamMarkers(blocks), ResponseEnd);
  }

  /** Exactly which sequential streamings the stream decoder accepts: some item is announced, and the spoken items are
      messages only, whatever they hold, or one valid call. */
  lemma StreamAcceptedIff(decode: Decode, start: seq<Event>, items: seq<Item>, blocks: seq<Block>, after: seq<Event>, tool: bool)
    requires Sequential(start, items, blocks, after)
    ensures var spoken, all := SpokenItems(items), Streamed(start, blocks, after);
            FromStream(decode, all, tool).Ok? <==>
            && Announces(all)
            && if tool then |spoken| == 1 && spoken[0].FunctionCall? && ObserveItem(decode, spoken[0], tool).Ok?
               else forall i :: 0 <= i < |spoken| ==> spoken[i].Message?
  {
    hide FromStream, ObserveItem, SpokenItems, Streamed, Announces;
    StreamResult(decode, start, items, blocks, after, tool);
  }

  lemma JsonResult(decode: Decode, items: seq<Item>, blocks: seq<Block>, tool: bool)
    requires SpokenItems(items) == Items(blocks)
    ensures var r := FromJson(decode, Some(items), tool);
            && (r.Ok? <==> AllObserved(decode, items, tool) && (tool ==> |blocks| == 1))
            && (r.Ok? ==> r.value == Projection([ResponseStart] + Briefs(blocks, true) + [ResponseEnd], if tool then ToolUse else EndTurn))
            && (r.Ok? ==> AllAdmitted(decode, SpokenItems(items), tool))
  {
    hide Collapse, FoldItems, Briefs, SpokenItems, AllAdmitted, AllObserved;
    FoldIff(decode, items, tool);
    if FoldItems(decode, items, tool).Ok? {
      ObservedAreAdmitted(decode, items, tool);
      CollapseJson(decode, items, blocks, tool);
      CollapseNext(FoldItems(decode, items, tool).value.markers, ResponseEnd);
    }
  }

  /** The markers of this many messages, collapsed. */
  function MessageMarks(n: nat): seq<Marker> {
    if n == 0 then [] else MessageMarks(n - 1) + [MessageStart, TextMark, MessageEnd]
  }

  lemma {:induction false} BriefsOfMessages(blocks: seq<Block>)
    requires forall i :: 0 <= i < |blocks| ==> blocks[i].item.Message?
    ensures Briefs(blocks, true) == MessageMarks(|blocks|)
  {
    if blocks != [] { BriefsOfMessages(blocks[..|blocks| - 1]); }
  }

  /** What the JSON decoder projects every accepted response to: one call, or as many messages as it has. */
  lemma JsonProjectionIs(decode: Decode, items: seq<Item>, tool: bool)
    requires FromJson(decode, Some(items), tool).Ok?
    ensures var projection := FromJson(decode, Some(items), tool).value;
            if tool then projection == Projection([ResponseStart, ToolStart, ToolMark, ToolEnd, ResponseEnd], ToolUse)
            else projection == Projection([ResponseStart] + MessageMarks(|SpokenItems(items)|) + [ResponseEnd], EndTurn)
  {
    hide FromJson, SpokenItems, AllObserved, ObserveItem;
    var spoken := SpokenItems(items);
    var blocks := seq(|spoken|, i requires 0 <= i < |spoken| => BareBlock(spoken[i]));
    assert Items(blocks) == spoken;
    JsonResult(decode, items, blocks, tool);
    assert forall i :: 0 <= i < |spoken| ==> Admits(decode, spoken[i], false, tool) && blocks[i].item == spoken[i];
    if tool {
      assert blocks[..0] == [] && Briefs([], true) == [];
      assert Briefs(blocks, true) == [] + Brief(blocks[0].item, true);
    } else {
      BriefsOfMessages(blocks);
    }
  }

  /** For every response and every sequential streaming of it. If the JSON decoder accepts the response, the stream is
      accepted exactly when it announces an item. If the stream is accepted, the JSON decoder accepts exactly when it
      accepts every single item. If both accept, the terminals agree, and the projections agree exactly when every
      message and every call arrived with at least one delta, however those deltas were split. */
  lemma StreamMatchesJson(decode: Decode, start: seq<Event>, items: seq<Item>, blocks: seq<Block>, after: seq<Event>, tool: bool)
    requires Sequential(start, items, blocks, after)
    ensures var all := Streamed(start, blocks, after);
            var json, stream := FromJson(decode, Some(items), tool), FromStream(decode, all, tool);
            && (json.Ok? ==> (stream.Ok? <==> Announces(all)) && (stream.Err? ==> stream.error == StreamIncomplete))
            && (stream.Ok? ==> (json.Ok? <==> AllObserved(decode, items, tool)))
            && (json.Ok? && stream.Ok? ==>
                  && stream.value.terminal == json.value.terminal == (if tool then ToolUse else EndTurn)
                  && (stream.value.markers == json.value.markers <==> forall i :: 0 <= i < |blocks| ==> HasDelta(blocks[i])))
  {
    hide FromJson, FromStream, Briefs, HasDelta, Streams, AllObserved, Announces, SpokenItems, Streamed, Admits;
    StreamResult(decode, start, items, blocks, after, tool);
    JsonResult(decode, items, blocks, tool);
    BriefsAgree(blocks);
    var s, j := Briefs(blocks, false), Briefs(blocks, true);
    assert |[ResponseStart] + s + [ResponseEnd]| == |s| + 2 && |[ResponseStart] + j + [ResponseEnd]| == |j| + 2;
  }

  /** A message streamed without deltas, among blank lines and a repeated start. */
  function BareBlock(item: Item): Block {
    Block(item, item, [Quiet], item, [Quiet])
  }

  const START := [Created, Quiet, Created, Quiet]

  function BareStream(item: Item): seq<Event> {
    Streamed(START, [BareBlock(item)], [Quiet])
  }

  lemma BareIsSequential(item: Item)
    requires item.Message?
    ensures Sequential(START, [item], [BareBlock(item)], [Quiet])
    ensures SpokenItems([item]) == [item] && !HasDelta(BareBlock(item)) && Announces(BareStream(item))
  {
    assert SpokenItems([item]) == [item] by { assert [item][..0] == [] && SpokenItems([]) == []; }
    assert Items([BareBlock(item)]) == [item];
    assert Deltas(item, [Quiet]) == 0 by { assert [Quiet][..0] == [] && Deltas(item, []) == 0; }
    StreamAnnounces(START, [BareBlock(item)], [Quiet]);
  }

  /** A message without content shows the difference: the stream decoder accepts it and the JSON decoder does not. */
  lemma OnlyStreamAccepts(decode: Decode)
    ensures FromStream(decode, BareStream(Message(None)), false).Ok?
    ensures FromJson(decode, Some([Message(None)]), false).Err?
  {
    hide FromStream, FromJson, Sequential, SpokenItems, Streamed, Announces;
    var item := Message(None);
    BareIsSequential(item);
    StreamAcceptedIff(decode, START, [item], [BareBlock(item)], [Quiet], false);
    StreamMatchesJson(decode, START, [item], [BareBlock(item)], [Quiet], false);
    assert ObserveItem(decode, [item][0], false).Err?;
  }

  // ---- Splitting a text into deltas ----

  function Joined(item: Item, events: seq<Event>): string {
    if events == [] then ""
    else
      var last := events[|events| - 1];
      Joined(item, events[..|events| - 1]) + if DeltaOf(item, last) then last.delta.value else ""
  }

  /** The text parts of a message, joined. */
  function JoinedText(content: seq<Part>): string {
    if content == [] then ""
    else
      var last := content[|content| - 1];
      JoinedText(content[..|content| - 1]) + if last.OutputText? && last.text.Some? then last.text.value else ""
  }

  /** What the deltas of an item spell: a message's text, or a call's arguments. */
  function Spelled(item: Item): string {
    match item
    case Message(Some(content)) => JoinedText(content)
    case FunctionCall(_, _, Some(arguments)) => arguments
    case _ => ""
  }

  /** The deltas of the block, however split, add up to what its item holds. */
  predicate Faithful(b: Block) {
    Streams(b) && Joined(b.item, b.middle) == Spelled(b.item)
  }

  /** A text is non-empty exactly when its splitting has a delta. Arguments may also be split with empty deltas. */
  lemma {:induction false} DeltasSpell(item: Item, events: seq<Event>)
    ensures Joined(item, events) != "" ==> Deltas(item, events) > 0
    ensures item.Message? ==> (Joined(item, events) != "" <==> Deltas(item, events) > 0)
  {
    if events != [] {
      DeltasSpell(item, events[..|events| - 1]);
      if !DeltaOf(item, events[|events| - 1]) {
        assert Joined(item, events[..|events| - 1]) + "" == Joined(item, events[..|events| - 1]);
      }
    }
  }

  lemma FaithfulHasDelta(decode: Decode, b: Block, tool: bool)
    requires Faithful(b) && ObserveItem(decode, b.item, tool).Ok?
    ensures HasDelta(b) <==> (b.item.Message? ==> Spelled(b.item) != "")
  {
    hide Texts;
    DeltasSpell(b.item, b.middle);
  }

  predicate NoEmptyMessage(items: seq<Item>) {
    forall x :: x in items && x.Message? ==> Spelled(x) != ""
  }

  lemma NoEmptySpoken(items: seq<Item>)
    ensures NoEmptyMessage(SpokenItems(items)) <==> NoEmptyMessage(items)
  {
    hide Spelled, SpokenItems;
    forall x
      ensures x in SpokenItems(items) <==> x in items && Spoken(x)
    {
      SpokenAreItems(items, x);
    }
  }

  lemma FaithfulDeltas(decode: Decode, items: seq<Item>, blocks: seq<Block>, tool: bool)
    requires SpokenItems(items) == Items(blocks) && AllObserved(decode, items, tool)
    requires forall i :: 0 <= i < |blocks| ==> Faithful(blocks[i])
    ensures (forall i :: 0 <= i < |blocks| ==> HasDelta(blocks[i])) <==> NoEmptyMessage(items)
  {
    hide Faithful, HasDelta, Spelled, SpokenItems, ObserveItem;
    NoEmptySpoken(items);
    forall i | 0 <= i < |blocks|
      ensures HasDelta(blocks[i]) <==> (Items(blocks)[i].Message? ==> Spelled(Items(blocks)[i]) != "")
    {
      SpokenAreItems(items, Items(blocks)[i]);
      FaithfulHasDelta(decode, blocks[i], tool);
    }
  }

  /** For every response the JSON decoder accepts and every sequential streaming of its own texts and arguments, however
      split: the stream is accepted exactly when it announces an item, with the same terminal, and the projections
      agree exactly when no message of the response is empty. */
  lemma FaithfulStreamMatchesJson(decode: Decode, start: seq<Event>, items: seq<Item>, blocks: seq<Block>, after: seq<Event>, tool: bool)
    requires Sequential(start, items, blocks, after)
    requires forall i :: 0 <= i < |blocks| ==> Faithful(blocks[i])
    requires FromJson(decode, Some(items), tool).Ok?
    ensures var all := Streamed(start, blocks, after);
            var json, stream := FromJson(decode, Some(items), tool).value, FromStream(decode, all, tool);
            && (stream.Ok? <==> Announces(all))
            && (stream.Ok? ==> && stream.value.terminal == json.terminal
                               && (stream.value.markers == json.markers <==> NoEmptyMessage(items)))
  {
    hide FromJson, FromStream, HasDelta, Streams, Spelled, AllObserved, Announces, Streamed, SpokenItems, NoEmptyMessage;
    StreamMatchesJson(decode, start, items, blocks, after, tool);
    JsonResult(decode, items, blocks, tool);
    FaithfulDeltas(decode, items, blocks, tool);
  }

  /** An empty text shows the condition is needed: the JSON decoder reports a delta that no stream can carry. */
  lemma EmptyTextDiffers(decode: Decode)
    ensures var item := Message(Some([OutputText(Some(""))]));
            var json, stream := FromJson(decode, Some([item]), false), FromStream(decode, BareStream(item), false);
            json.Ok? && stream.Ok? && json.value.markers != stream.value.markers
  {
    hide FromStream, FromJson, Sequential, SpokenItems, Streamed, Announces, HasDelta;
    var part := OutputText(Some(""));
    var item := Message(Some([part]));
    assert Texts([part]) == [Some("")] by { assert [part][..0] == [] && Texts([]) == []; }
    assert ObserveItem(decode, item, false).Ok?;
    BareIsSequential(item);
    StreamAcceptedIff(decode, START, [item], [BareBlock(item)], [Quiet], false);
    StreamMatchesJson(decode, START, [item], [BareBlock(item)], [Quiet], false);
    assert [BareBlock(item)][0] == BareBlock(item);
  }
}
