/**
 * One conversational turn of sendMessage: the fold over the stream's events
 * that writes to the session's display buffer, with the flush buffer that
 * batches text lines.
 */
module Turn {
  import opened Wrappers
  import opened Types
  import opened Lines
  import opened Sanitizer

  const FLUSH_INTERVAL: int := 100
  const ThinkingNotice: string := "Claude is thinking..."
  const ResponseHeader: string := "Claude:"
  const Separator: seq<string> := ["", "---", ""]

  /**
   * The display's overwrite-last-line primitive. A display buffer always
   * shows at least one line, so on an empty one the line becomes its only line.
   */
  function ReplaceLastLine(sink: seq<string>, line: string): (r: seq<string>)
    ensures |r| == if sink == [] then 1 else |sink|
    ensures r[|r| - 1] == line
    ensures sink != [] ==> r[..|r| - 1] == sink[..|sink| - 1]
  {
    if sink == [] then [line] else sink[..|sink| - 1] + [line]
  }

  function UsageNotice(u: Usage): string {
    "[Tokens used: " + NatToString(u.inputTokens) + " input, " + NatToString(u.outputTokens) + " output]"
  }

  function ErrorLine(msg: string): string {
    "Error: " + Sanitize(msg)
  }

  /** The sink after a flush attempt, and the time of the write when one happened (null otherwise). */
  datatype FlushResult = FlushResult(sink: seq<string>, flushedAt: Option<int>)

  /** flushPendingLines: one batch write of all pending lines, when due. */
  function FlushPendingLines(sink: seq<string>, pending: seq<string>, lastFlush: int, force: bool, now: int): (r: FlushResult)
    ensures r.flushedAt.Some? <==> pending != [] && (force || now - lastFlush >= FLUSH_INTERVAL)
    ensures r.flushedAt.Some? ==> r.flushedAt.value == now && r.sink == sink + pending
    ensures r.flushedAt.None? ==> r.sink == sink
  {
    if |pending| > 0 && (force || now - lastFlush >= FLUSH_INTERVAL) then
      FlushResult(sink + pending, Some(now))
    else
      FlushResult(sink, None)
  }

  /**
   * The local state of a turn: the display buffer, the lines not yet
   * written, the time of the last write, whether the response header has
   * replaced the thinking notice, the messages stored so far, and how many
   * clock readings have been taken.
   */
  datatype TurnState = TurnState(
    sink: seq<string>,
    pending: seq<string>,
    lastFlush: int,
    started: bool,
    messages: seq<AssistantMessage>,
    tick: nat)

  /** A call of flushPendingLines at the next clock reading, with the caller clearing pending on a write. */
  function Flush(t: TurnState, force: bool, clock: nat -> int): (r: TurnState)
    ensures r.sink + r.pending == t.sink + t.pending
    ensures t.sink <= r.sink
    ensures force ==> r.pending == []
    ensures r.started == t.started && r.messages == t.messages && r.tick == t.tick + 1
  {
    var f := FlushPendingLines(t.sink, t.pending, t.lastFlush, force, clock(t.tick));
    var t' := t.(sink := f.sink, tick := t.tick + 1);
    if f.flushedAt.Some? then t'.(lastFlush := f.flushedAt.value, pending := []) else t'
  }

  /** One content element of an assistant message: queue its lines, then a periodic flush. */
  function ContentStep(t: TurnState, c: Content, clock: nat -> int): TurnState {
    match c
    case Text(text) => Flush(t.(pending := t.pending + QueuedLines(text)), false, clock)
    case NonText(_) => t
  }

  function ContentsFold(t: TurnState, cs: seq<Content>, clock: nat -> int): TurnState {
    if cs == [] then t
    else ContentStep(ContentsFold(t, cs[..|cs| - 1], clock), cs[|cs| - 1], clock)
  }

  /** The first assistant event of a turn overwrites the thinking notice with the response header. */
  function StartResponse(t: TurnState): TurnState {
    if t.started then t else t.(sink := ReplaceLastLine(t.sink, ResponseHeader), started := true)
  }

  function EventStep(t: TurnState, ev: StreamMessage, clock: nat -> int): TurnState {
    match ev.kind
    case Assistant =>
      var t1 := StartResponse(t);
      if ev.message.None? then t1
      else
        var t2 := ContentsFold(t1, ev.message.value.content, clock);
        t2.(messages := t2.messages + [ev.message.value])
    case Result =>
      var t1 := Flush(t, true, clock);
      if ev.usage.Some? then t1.(sink := t1.sink + ["", UsageNotice(ev.usage.value)]) else t1
    case System => t
  }

  function EventsFold(t: TurnState, evs: seq<StreamMessage>, clock: nat -> int): TurnState {
    if evs == [] then t
    else EventStep(EventsFold(t, evs[..|evs| - 1], clock), evs[|evs| - 1], clock)
  }

  /**
   * The state after the thinking notice: clock reading 0 is the session's
   * new lastActivity, reading 1 the initial lastFlushTime.
   */
  function Opening(sink0: seq<string>, clock: nat -> int): TurnState {
    TurnState(sink0 + ["", ThinkingNotice], [], clock(1), false, [], 2)
  }

  /** What a turn leaves behind: the display buffer and the messages to store in the session. */
  datatype TurnOutcome = TurnOutcome(sink: seq<string>, messages: seq<AssistantMessage>)

  /**
   * A whole turn over the events the stream yielded; `failure` is the error
   * the stream raised after them, if any.
   */
  function TurnSpec(sink0: seq<string>, events: seq<StreamMessage>, failure: Option<string>, clock: nat -> int): TurnOutcome {
    var t := EventsFold(Opening(sink0, clock), events, clock);
    match failure
    case None =>
      var f := Flush(t, true, clock);
      TurnOutcome(f.sink + Separator, t.messages)
    case Some(msg) =>
      TurnOutcome(ReplaceLastLine(t.sink, "") + [ErrorLine(msg), ""], t.messages)
  }

  // An unbuffered reference: every text line is written the moment it is queued.

  /** All lines the text content of a message queues, in order. */
  function TextLines(cs: seq<Content>): seq<string> {
    if cs == [] then []
    else
      var last := cs[|cs| - 1];
      TextLines(cs[..|cs| - 1]) + (if last.Text? then QueuedLines(last.text) else [])
  }

  datatype Display = Display(sink: seq<string>, started: bool)

  function RefEventStep(d: Display, ev: StreamMessage): Display {
    match ev.kind
    case Assistant =>
      var s := if d.started then d.sink else ReplaceLastLine(d.sink, ResponseHeader);
      Display(if ev.message.Some? then s + TextLines(ev.message.value.content) else s, true)
    case Result =>
      if ev.usage.Some? then d.(sink := d.sink + ["", UsageNotice(ev.usage.value)]) else d
    case System => d
  }

  function RefEvents(d: Display, evs: seq<StreamMessage>): Display {
    if evs == [] then d else RefEventStep(RefEvents(d, evs[..|evs| - 1]), evs[|evs| - 1])
  }

  function ReferenceTurn(sink0: seq<string>, events: seq<StreamMessage>): seq<string> {
    RefEvents(Display(sink0 + ["", ThinkingNotice], false), events).sink + Separator
  }

  lemma ConcatAssoc<T>(a: seq<T>, b: seq<T>, c: seq<T>)
    ensures a + (b + c) == (a + b) + c
  {
  }

  lemma PrefixTransitive<T>(a: seq<T>, b: seq<T>, c: seq<T>)
    requires a <= b && b <= c
    ensures a <= c
  {
  }

  lemma ContentStepDelivers(t: TurnState, c: Content, clock: nat -> int)
    ensures var r := ContentStep(t, c, clock);
      r.sink + r.pending == t.sink + t.pending + (if c.Text? then QueuedLines(c.text) else [])
      && r.started == t.started && r.messages == t.messages
      && t.sink <= r.sink
  {
    if c.Text? {
      var q := t.(pending := t.pending + QueuedLines(c.text));
      var r := Flush(q, false, clock);
      assert ContentStep(t, c, clock) == r;
      ConcatAssoc(t.sink, t.pending, QueuedLines(c.text));
    }
  }

  /** Queuing content and flushing it periodically loses and duplicates nothing. */
  lemma {:induction false} ContentsFoldDelivers(t: TurnState, cs: seq<Content>, clock: nat -> int)
    ensures var r := ContentsFold(t, cs, clock);
      r.sink + r.pending == t.sink + t.pending + TextLines(cs)
      && r.started == t.started && r.messages == t.messages
      && t.sink <= r.sink
  {
    if cs != [] {
      var init := cs[..|cs| - 1];
      var last := cs[|cs| - 1];
      ContentsFoldDelivers(t, init, clock);
      var mid := ContentsFold(t, init, clock);
      ContentStepDelivers(mid, last, clock);
      var lines := if last.Text? then QueuedLines(last.text) else [];
      var r := ContentStep(mid, last, clock);
      assert ContentsFold(t, cs, clock) == r;
      assert TextLines(cs) == TextLines(init) + lines;
      ConcatAssoc(t.sink + t.pending, TextLines(init), lines);
      PrefixTransitive(t.sink, mid.sink, r.sink);
    }
  }

  /** The relation between the buffered turn and the unbuffered reference after some events. */
  ghost predicate Tracks(sink0: seq<string>, t: TurnState, d: Display) {
    && t.sink + t.pending == d.sink
    && t.started == d.started
    && (!t.started ==> t.pending == [])
    && |t.sink| >= |sink0| + 2
    && sink0 + [""] <= t.sink
  }

  lemma StartResponseTracks(sink0: seq<string>, t: TurnState, d: Display)
    requires Tracks(sink0, t, d)
    ensures Tracks(sink0, StartResponse(t),
                   Display(if d.started then d.sink else ReplaceLastLine(d.sink, ResponseHeader), true))
  {
    if !t.started {
      var t1 := StartResponse(t);
      assert t1.sink[..|t1.sink| - 1] == t.sink[..|t.sink| - 1];
      assert t1.sink[..|sink0| + 1] == t1.sink[..|t1.sink| - 1][..|sink0| + 1];
      assert t.sink[..|sink0| + 1] == t.sink[..|t.sink| - 1][..|sink0| + 1];
    }
  }

  lemma EventStepTracks(sink0: seq<string>, t: TurnState, d: Display, ev: StreamMessage, clock: nat -> int)
    requires Tracks(sink0, t, d)
    ensures Tracks(sink0, EventStep(t, ev, clock), RefEventStep(d, ev))
  {
    match ev.kind
    case Assistant =>
      var t1 := StartResponse(t);
      var s := if d.started then d.sink else ReplaceLastLine(d.sink, ResponseHeader);
      StartResponseTracks(sink0, t, d);
      if ev.message.Some? {
        var cs := ev.message.value.content;
        ContentsFoldDelivers(t1, cs, clock);
        var t2 := ContentsFold(t1, cs, clock);
        var t3 := t2.(messages := t2.messages + [ev.message.value]);
        assert EventStep(t, ev, clock) == t3;
        assert RefEventStep(d, ev) == Display(s + TextLines(cs), true);
        ConcatAssoc(t1.sink, t1.pending, TextLines(cs));
        PrefixTransitive(sink0 + [""], t1.sink, t2.sink);
      }
    case Result =>
      var t1 := Flush(t, true, clock);
      PrefixTransitive(sink0 + [""], t.sink, t1.sink);
      if ev.usage.Some? {
        var lines := ["", UsageNotice(ev.usage.value)];
        assert EventStep(t, ev, clock) == t1.(sink := t1.sink + lines);
        assert RefEventStep(d, ev) == d.(sink := d.sink + lines);
        PrefixTransitive(sink0 + [""], t1.sink, t1.sink + lines);
      }
    case System =>
  }

  lemma {:induction false} EventsFoldTracks(sink0: seq<string>, evs: seq<StreamMessage>, clock: nat -> int)
    ensures Tracks(sink0, EventsFold(Opening(sink0, clock), evs, clock),
                   RefEvents(Display(sink0 + ["", ThinkingNotice], false), evs))
  {
    if evs != [] {
      var init := evs[..|evs| - 1];
      EventsFoldTracks(sink0, init, clock);
      EventStepTracks(sink0, EventsFold(Opening(sink0, clock), init, clock),
                      RefEvents(Display(sink0 + ["", ThinkingNotice], false), init), evs[|evs| - 1], clock);
    } else {
      assert (sink0 + ["", ThinkingNotice])[..|sink0| + 1] == sink0 + [""];
    }
  }

  /**
   * A turn whose stream ends normally shows exactly what the unbuffered
   * reference shows, whatever the clock does: every queued line reaches the
   * display once, in order, and the turn closes with the separator.
   */
  lemma BufferingIsInvisible(sink0: seq<string>, events: seq<StreamMessage>, clock: nat -> int)
    ensures TurnSpec(sink0, events, None, clock).sink == ReferenceTurn(sink0, events)
  {
    EventsFoldTracks(sink0, events, clock);
  }

  /**
   * A turn whose stream fails shows a prefix of what the reference would
   * have shown before its closing separator, with the last shown line
   * blanked, then the sanitized error line and a blank line. Lines still
   * pending at the failure are not shown.
   */
  lemma FailedTurnShape(sink0: seq<string>, events: seq<StreamMessage>, msg: string, clock: nat -> int)
    ensures var out := TurnSpec(sink0, events, Some(msg), clock).sink;
      && |out| >= |sink0| + 4
      && out[|out| - 3..] == ["", ErrorLine(msg), ""]
      && out[..|out| - 3] <= RefEvents(Display(sink0 + ["", ThinkingNotice], false), events).sink
      && NoMatch(Sanitize(msg))
  {
    EventsFoldTracks(sink0, events, clock);
    SanitizeLeavesNoMatch(msg);
    var t := EventsFold(Opening(sink0, clock), events, clock);
    var out := TurnSpec(sink0, events, Some(msg), clock).sink;
    assert out == t.sink[..|t.sink| - 1] + ["", ErrorLine(msg), ""];
    assert out[..|out| - 3] == t.sink[..|t.sink| - 1];
  }

  /** Both ways a turn can end, it leaves the earlier lines and its own opening blank line untouched. */
  lemma TurnKeepsEarlierLines(sink0: seq<string>, events: seq<StreamMessage>, failure: Option<string>, clock: nat -> int)
    ensures sink0 + [""] <= TurnSpec(sink0, events, failure, clock).sink
  {
    EventsFoldTracks(sink0, events, clock);
    var t := EventsFold(Opening(sink0, clock), events, clock);
    var out := TurnSpec(sink0, events, failure, clock).sink;
    if failure.Some? {
      assert out[..|sink0| + 1] == t.sink[..|t.sink| - 1][..|sink0| + 1];
      assert t.sink[..|sink0| + 1] == t.sink[..|t.sink| - 1][..|sink0| + 1];
    } else {
      var f := Flush(t, true, clock);
      assert t.sink <= f.sink;
    }
  }

  /** The stored messages are exactly the bodies of the assistant events, in order, on both paths. */
  function AssistantBodies(evs: seq<StreamMessage>): seq<AssistantMessage> {
    if evs == [] then []
    else
      var last := evs[|evs| - 1];
      AssistantBodies(evs[..|evs| - 1]) + (if last.kind == Assistant && last.message.Some? then [last.message.value] else [])
  }

  lemma {:induction false} EventsFoldMessages(t: TurnState, evs: seq<StreamMessage>, clock: nat -> int)
    ensures EventsFold(t, evs, clock).messages == t.messages + AssistantBodies(evs)
  {
    if evs != [] {
      EventsFoldMessages(t, evs[..|evs| - 1], clock);
      var mid := EventsFold(t, evs[..|evs| - 1], clock);
      var ev := evs[|evs| - 1];
      if ev.kind == Assistant {
        if ev.message.Some? {
          ContentsFoldDelivers(StartResponse(mid), ev.message.value.content, clock);
        }
      }
    }
  }

  lemma TurnStoresAssistantBodies(sink0: seq<string>, events: seq<StreamMessage>, failure: Option<string>, clock: nat -> int)
    ensures TurnSpec(sink0, events, failure, clock).messages == AssistantBodies(events)
  {
    EventsFoldMessages(Opening(sink0, clock), events, clock);
  }

  /** Without an assistant event the thinking notice is never overwritten. */
  lemma {:induction false} NoticeStaysWithoutAssistant(sink0: seq<string>, events: seq<StreamMessage>)
    requires forall i :: 0 <= i < |events| ==> events[i].kind != Assistant
    ensures var d := RefEvents(Display(sink0 + ["", ThinkingNotice], false), events);
      !d.started && |d.sink| >= |sink0| + 2 && d.sink[|sink0| + 1] == ThinkingNotice
  {
    if events != [] {
      NoticeStaysWithoutAssistant(sink0, events[..|events| - 1]);
    }
  }

  lemma RenderFifteenAndEight()
    ensures NatToString(15) == "15" && NatToString(8) == "8"
  {
    assert NatToString(15) == NatToString(1) + [Digit(5)];
  }

  lemma UsageNoticeOf15And8()
    ensures UsageNotice(Usage(15, 8)) == "[Tokens used: 15 input, 8 output]"
  {
    RenderFifteenAndEight();
    var a, b := NatToString(15), NatToString(8);
    assert UsageNotice(Usage(15, 8)) == "[Tokens used: " + a + " input, " + b + " output]";
  }

  function HelloEvents(): seq<StreamMessage> {
    var hello := AssistantMessage("msg_1", "sonnet", [Text("Hello!")], None, None, Usage(15, 8));
    [StreamMessage(Assistant, Some(hello), None), StreamMessage(Result, None, Some(Usage(15, 8)))]
  }

  /** An assistant message whose only content is one break-free, non-empty text shows that text after the header. */
  lemma SingleLineMessage(d: Display, ev: StreamMessage, text: string)
    requires !d.started && |d.sink| > 0
    requires ev.kind == Assistant && ev.message.Some? && ev.message.value.content == [Text(text)]
    requires text != "" && forall j :: 0 <= j < |text| ==> text[j] != '\n'
    ensures RefEventStep(d, ev).sink == d.sink[..|d.sink| - 1] + [ResponseHeader, text]
  {
    QueuedLinesOfShortText(text);
    var cs := ev.message.value.content;
    assert cs[..0] == [];
    assert TextLines(cs) == [text];
  }

  /**
   * One assistant event whose only content is a single line, then a result
   * with usage: header, the line, the usage notice, the separator.
   */
  lemma OneLineThenUsage(msg: AssistantMessage, text: string, u: Usage)
    requires msg.content == [Text(text)]
    requires text != "" && forall j :: 0 <= j < |text| ==> text[j] != '\n'
    ensures ReferenceTurn([], [StreamMessage(Assistant, Some(msg), None), StreamMessage(Result, None, Some(u))])
      == ["", ResponseHeader, text, "", UsageNotice(u)] + Separator
  {
    var evs := [StreamMessage(Assistant, Some(msg), None), StreamMessage(Result, None, Some(u))];
    var d0 := Display(["", ThinkingNotice], false);
    var d1 := RefEventStep(d0, evs[0]);
    SingleLineMessage(d0, evs[0], text);
    assert evs[..1][..0] == [];
    assert RefEvents(d0, evs[..1]) == d1;
    assert RefEvents(d0, evs) == RefEventStep(d1, evs[1]);
    assert [] + ["", ThinkingNotice] == d0.sink;
  }

  /**
   * One assistant event saying "Hello!" and one result with usage 15/8,
   * from an empty buffer, whatever the clock.
   */
  lemma HelloTurn(clock: nat -> int)
    ensures TurnSpec([], HelloEvents(), None, clock).sink
      == ["", "Claude:", "Hello!", "", "[Tokens used: 15 input, 8 output]", "", "---", ""]
  {
    BufferingIsInvisible([], HelloEvents(), clock);
    var hello := HelloEvents()[0].message.value;
    OneLineThenUsage(hello, "Hello!", Usage(15, 8));
    UsageNoticeOf15And8();
  }

  /**
   * The inner loop of sendMessage over one assistant message's content:
   * queue each text's lines, then try a periodic flush.
   */
  method ConsumeContent(t0: TurnState, content: seq<Content>, clock: nat -> int) returns (t: TurnState)
    ensures t == ContentsFold(t0, content, clock)
  {
    var sink, pendingLines, lastFlushTime, tick := t0.sink, t0.pending, t0.lastFlush, t0.tick;
    var j := 0;
    while j < |content|
      invariant 0 <= j <= |content|
      invariant TurnState(sink, pendingLines, lastFlushTime, t0.started, t0.messages, tick)
        == ContentsFold(t0, content[..j], clock)
    {
      assert content[..j + 1][..j] == content[..j];
      match content[j] {
        case Text(text) =>
          pendingLines := QueueFragment(pendingLines, text);
          var flushRes := FlushPendingLines(sink, pendingLines, lastFlushTime, false, clock(tick));
          sink := flushRes.sink;
          tick := tick + 1;
          if flushRes.flushedAt.Some? {
            lastFlushTime := flushRes.flushedAt.value;
            pendingLines := [];
          }
        case NonText(_) =>
      }
      j := j + 1;
    }
    assert content[..j] == content;
    t := TurnState(sink, pendingLines, lastFlushTime, t0.started, t0.messages, tick);
  }

  /**
   * The turn as sendMessage runs it: a loop over the events, an inner loop
   * over each assistant message's content, flushing as it goes.
   */
  method RunTurn(sink0: seq<string>, events: seq<StreamMessage>, failure: Option<string>, clock: nat -> int)
    returns (out: TurnOutcome)
    ensures out == TurnSpec(sink0, events, failure, clock)
  {
    var sink := sink0 + ["", ThinkingNotice];
    var hasStartedResponse := false;
    var pendingLines: seq<string> := [];
    var lastFlushTime := clock(1);
    var tick: nat := 2;
    var messages: seq<AssistantMessage> := [];
    var i := 0;
    while i < |events|
      invariant 0 <= i <= |events|
      invariant TurnState(sink, pendingLines, lastFlushTime, hasStartedResponse, messages, tick)
        == EventsFold(Opening(sink0, clock), events[..i], clock)
    {
      var ev := events[i];
      assert events[..i + 1][..i] == events[..i];
      ghost var before := TurnState(sink, pendingLines, lastFlushTime, hasStartedResponse, messages, tick);
      if ev.kind == Assistant {
        if !hasStartedResponse {
          sink := ReplaceLastLine(sink, ResponseHeader);
          hasStartedResponse := true;
        }
        assert TurnState(sink, pendingLines, lastFlushTime, hasStartedResponse, messages, tick) == StartResponse(before);
        if ev.message.Some? {
          var t1 := ConsumeContent(TurnState(sink, pendingLines, lastFlushTime, hasStartedResponse, messages, tick),
                                   ev.message.value.content, clock);
          ContentsFoldDelivers(StartResponse(before), ev.message.value.content, clock);
          sink, pendingLines, lastFlushTime, tick := t1.sink, t1.pending, t1.lastFlush, t1.tick;
          messages := messages + [ev.message.value];
          assert TurnState(sink, pendingLines, lastFlushTime, hasStartedResponse, messages, tick) == EventStep(before, ev, clock);
        }
      } else if ev.kind == Result {
        var flushRes := FlushPendingLines(sink, pendingLines, lastFlushTime, true, clock(tick));
        sink := flushRes.sink;
        tick := tick + 1;
        if flushRes.flushedAt.Some? {
          lastFlushTime := flushRes.flushedAt.value;
          pendingLines := [];
        }
        if ev.usage.Some? {
          sink := sink + ["", UsageNotice(ev.usage.value)];
        }
        assert TurnState(sink, pendingLines, lastFlushTime, hasStartedResponse, messages, tick) == EventStep(before, ev, clock);
      }
      assert TurnState(sink, pendingLines, lastFlushTime, hasStartedResponse, messages, tick) == EventStep(before, ev, clock);
      i := i + 1;
    }
    assert events[..i] == events;
    match failure
    case None =>
      var flushRes := FlushPendingLines(sink, pendingLines, lastFlushTime, true, clock(tick));
      sink := flushRes.sink;
      out := TurnOutcome(sink + Separator, messages);
    case Some(msg) =>
      sink := ReplaceLastLine(sink, "");
      out := TurnOutcome(sink + [ErrorLine(msg), ""], messages);
  }
}
