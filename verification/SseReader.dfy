/**
 The incremental server-sent-events reader shared by the two LLM backends: text is buffered,
 cut at blank lines, and each `data: ` line is decoded and turned into stream chunks.
 The specification reads the whole text at once; the method reads it chunk by chunk.
 */
module SseReader {
  import opened Json
  import opened Prelude

  datatype Usage = Usage(inputTokens: nat, outputTokens: nat)

  datatype StreamChunk =
    | TextDelta(text: string)
    | Done(finishReason: string, usage: Option<Usage>)

  datatype Backend = OpenAi | Anthropic

  /** `limit` is how many sends succeed before the consumer drops its end, if it ever does. */
  datatype Env = Env(
    backend: Backend,
    decode: string -> Option<Value>,
    usageOf: Value -> Option<Usage>,
    limit: Option<nat>)

  datatype Reader = Reader(out: seq<StreamChunk>, stopped: bool)

  // ----- what one event means -----

  function GetIn(v: Option<Value>, key: string): Option<Value> {
    if v.Some? then v.value.Get(key) else None
  }

  function StringIn(v: Option<Value>, key: string): Option<string> {
    var field := GetIn(v, key);
    if field.Some? then field.value.AsString() else None
  }

  function FirstChoice(event: Value): Option<Value> {
    var choices := event.Get("choices");
    if choices.Some? then choices.value.First() else None
  }

  function EventType(event: Value): string {
    var ty := StringIn(Some(event), "type");
    if ty.Some? then ty.value else ""
  }

  /** The text and the finish of one decoded event. */
  function TextOf(backend: Backend, event: Value): Option<string> {
    match backend
    case OpenAi => StringIn(GetIn(FirstChoice(event), "delta"), "content")
    case Anthropic =>
      if EventType(event) == "content_block_delta" then StringIn(event.Get("delta"), "text") else None
  }

  function FinishOf(env: Env, event: Value): Option<StreamChunk> {
    match env.backend
    case OpenAi =>
      var reason := StringIn(FirstChoice(event), "finish_reason");
      if reason.Some? then Some(Done(reason.value, None)) else None
    case Anthropic =>
      var reason := StringIn(event.Get("delta"), "stop_reason");
      if EventType(event) == "message_delta" && reason.Some? then
        var usage := event.Get("usage");
        Some(Done(reason.value, if usage.Some? then env.usageOf(usage.value) else None))
      else None
  }

  function Emits(env: Env, event: Value): seq<StreamChunk> {
    var text := TextOf(env.backend, event);
    var finish := FinishOf(env, event);
    (if text.Some? then [TextDelta(text.value)] else []) + (if finish.Some? then [finish.value] else [])
  }

  // ----- sending -----

  predicate Connected(env: Env, out: seq<StreamChunk>) {
    env.limit.Some? ==> |out| < env.limit.value
  }

  /** A failed text send ends the reader; a failed final send is ignored. */
  function Deliver(env: Env, r: Reader, chunk: StreamChunk): Reader {
    if r.stopped then r
    else if Connected(env, r.out) then Reader(r.out + [chunk], false)
    else Reader(r.out, chunk.TextDelta?)
  }

  function DeliverAll(env: Env, r: Reader, chunks: seq<StreamChunk>): Reader
    decreases |chunks|
  {
    if chunks == [] then r else DeliverAll(env, Deliver(env, r, chunks[0]), chunks[1..])
  }

  // ----- lines -----

  const DATA_PREFIX: string := "data: "
  const DONE_MARKER: string := "[DONE]"

  function Payload(line: string): Option<string> {
    if DATA_PREFIX <= line then Some(line[|DATA_PREFIX|..]) else None
  }

  function LineStep(env: Env, r: Reader, line: string): Reader {
    if r.stopped || Payload(line).None? then r
    else if Payload(line).value == DONE_MARKER then Reader(r.out, true)
    else
      var event := env.decode(Payload(line).value);
      if event.None? then r else DeliverAll(env, r, Emits(env, event.value))
  }

  function FoldLines(env: Env, r: Reader, lines: seq<string>): Reader
    decreases |lines|
  {
    if lines == [] then r else FoldLines(env, LineStep(env, r, lines[0]), lines[1..])
  }

  function FindNewline(s: string): (i: nat)
    ensures i <= |s| && '\n' !in s[..i]
    ensures i < |s| ==> s[i] == '\n'
  {
    if s == "" || s[0] == '\n' then 0 else 1 + FindNewline(s[1..])
  }

  function StripReturn(line: string): string {
    if line != "" && line[|line| - 1] == '\r' then line[..|line| - 1] else line
  }

  /** `str::lines`: a final piece without a newline keeps its carriage return. */
  function Lines(s: string): seq<string>
    decreases |s|
  {
    if s == "" then []
    else
      var i := FindNewline(s);
      if i == |s| then [s] else [StripReturn(s[..i])] + Lines(s[i + 1..])
  }

  // ----- the buffer -----

  /** Position of the first blank line's "\n\n", or the length when there is none. */
  function FindBlank(s: string): (i: nat)
    ensures i <= |s|
    ensures i < |s| ==> i + 1 < |s| && s[i] == '\n' && s[i + 1] == '\n'
    ensures forall j | 0 <= j < i && j + 1 < |s| :: !(s[j] == '\n' && s[j + 1] == '\n')
  {
    if |s| < 2 then |s|
    else if s[0] == '\n' && s[1] == '\n' then 0
    else 1 + FindBlank(s[1..])
  }

  datatype Pump = Pump(reader: Reader, buf: string)

  const START: Pump := Pump(Reader([], false), "")

  /** Consume every complete event in the buffer, or stop. */
  function Drain(env: Env, r: Reader, buf: string): Pump
    decreases |buf|
  {
    if r.stopped then Pump(r, "")
    else
      var i := FindBlank(buf);
      if i == |buf| then Pump(r, buf)
      else Drain(env, FoldLines(env, r, Lines(buf[..i + 2])), buf[i + 2..])
  }

  function Feed(env: Env, s: Pump, chunk: string): Pump {
    if s.reader.stopped then s else Drain(env, s.reader, s.buf + chunk)
  }

  function FeedAll(env: Env, s: Pump, chunks: seq<string>): Pump
    decreases |chunks|
  {
    if chunks == [] then s else FeedAll(env, Feed(env, s, chunks[0]), chunks[1..])
  }

  /** Reading a text in one piece. */
  function ReadText(env: Env, text: string): Pump {
    Feed(env, START, text)
  }

  function Flatten(chunks: seq<string>): string {
    if chunks == [] then "" else chunks[0] + Flatten(chunks[1..])
  }

  // ----- the reader as written -----

  method Send(env: Env, out: seq<StreamChunk>, chunk: StreamChunk) returns (after: seq<StreamChunk>, sent: bool)
    ensures sent == Connected(env, out)
    ensures after == if sent then out + [chunk] else out
  {
    sent := env.limit.None? || |out| < env.limit.value;
    after := if sent then out + [chunk] else out;
  }

  /** One decoded event: the text first, then the finish. */
  method Dispatch(env: Env, event: Value, before: seq<StreamChunk>) returns (out: seq<StreamChunk>, stop: bool)
    ensures Reader(out, stop) == DeliverAll(env, Reader(before, false), Emits(env, event))
  {
    out, stop := before, false;
    var text := TextOf(env.backend, event);
    var finish := FinishOf(env, event);
    EmitsInOrder(env, Reader(before, false), event);
    if text.Some? {
      var sent;
      out, sent := Send(env, out, TextDelta(text.value));
      if !sent { return out, true; }
    }
    if finish.Some? {
      var ignored;
      out, ignored := Send(env, out, finish.value);
    }
  }

  lemma {:induction false} DeliverCons(env: Env, r: Reader, chunk: StreamChunk, rest: seq<StreamChunk>)
    ensures DeliverAll(env, r, [chunk] + rest) == DeliverAll(env, Deliver(env, r, chunk), rest)
    ensures [chunk] + [] == [chunk]
  {
    assert ([chunk] + rest)[1..] == rest;
  }

  lemma {:induction false} EmitsInOrder(env: Env, r: Reader, event: Value)
    ensures var text := TextOf(env.backend, event);
      var finish := FinishOf(env, event);
      var afterText := if text.Some? then Deliver(env, r, TextDelta(text.value)) else r;
      DeliverAll(env, r, Emits(env, event)) ==
        if finish.Some? then Deliver(env, afterText, finish.value) else afterText
    ensures FinishOf(env, event).Some? ==> FinishOf(env, event).value.Done?
  {
    var text := TextOf(env.backend, event);
    var finish := FinishOf(env, event);
    assert finish.Some? ==> finish.value.Done?;
    hide TextOf, FinishOf, Deliver;
    if text.Some? {
      DeliverCons(env, r, TextDelta(text.value), if finish.Some? then [finish.value] else []);
    }
    if finish.Some? {
      DeliverCons(env, if text.Some? then Deliver(env, r, TextDelta(text.value)) else r, finish.value, []);
    }
  }

  method PumpSse(env: Env, chunks: seq<string>, breaks: bool) returns (out: seq<StreamChunk>, failed: bool)
    ensures out == ReadText(env, Flatten(chunks)).reader.out
    ensures failed == (breaks && !ReadText(env, Flatten(chunks)).reader.stopped)
  {
    out := [];
    var buf := "";
    ChunkingIsInvisible(env, chunks);
    var i := 0;
    while i < |chunks|
      invariant 0 <= i <= |chunks|
      invariant FeedAll(env, Pump(Reader(out, false), buf), chunks[i..]) == FeedAll(env, START, chunks)
    {
      buf := buf + chunks[i];
      assert chunks[i..][0] == chunks[i] && chunks[i..][1..] == chunks[i + 1..];
      var idx := FindBlank(buf);
      while idx < |buf|
        invariant idx == FindBlank(buf)
        invariant FeedAll(env, Drain(env, Reader(out, false), buf), chunks[i + 1..]) == FeedAll(env, START, chunks)
        decreases |buf|
      {
        var event := buf[..idx + 2];
        buf := buf[idx + 2..];
        var stop;
        out, stop := PumpEvent(env, Lines(event), out);
        if stop {
          StoppedStays(env, Pump(Reader(out, true), ""), chunks[i + 1..]);
          return out, false;
        }
        idx := FindBlank(buf);
      }
      i := i + 1;
    }
    failed := breaks;
  }

  method PumpEvent(env: Env, lines: seq<string>, before: seq<StreamChunk>) returns (out: seq<StreamChunk>, stop: bool)
    ensures Reader(out, stop) == FoldLines(env, Reader(before, false), lines)
  {
    out := before;
    var j := 0;
    while j < |lines|
      invariant 0 <= j <= |lines|
      invariant FoldLines(env, Reader(out, false), lines[j..]) == FoldLines(env, Reader(before, false), lines)
    {
      var line := lines[j];
      assert lines[j..][0] == line && lines[j..][1..] == lines[j + 1..];
      j := j + 1;
      if !(DATA_PREFIX <= line) { continue; }
      var payload := line[|DATA_PREFIX|..];
      if payload == DONE_MARKER {
        StoppedFold(env, Reader(out, true), lines[j..]);
        return out, true;
      }
      var event := env.decode(payload);
      if event.None? { continue; }
      out, stop := Dispatch(env, event.value, out);
      if stop {
        StoppedFold(env, Reader(out, true), lines[j..]);
        return out, true;
      }
    }
    return out, false;
  }

  lemma {:induction false} StoppedFold(env: Env, r: Reader, lines: seq<string>)
    requires r.stopped
    ensures FoldLines(env, r, lines) == r
  {
    if lines == [] {
    } else {
      StoppedFold(env, r, lines[1..]);
    }
  }

  lemma {:induction false} StoppedStays(env: Env, s: Pump, chunks: seq<string>)
    requires s.reader.stopped
    ensures FeedAll(env, s, chunks) == s
  {
    if chunks == [] {
    } else {
      StoppedStays(env, s, chunks[1..]);
    }
  }

  // ----- chunking -----

  lemma {:induction false} FindBlankAppend(a: string, b: string)
    requires FindBlank(a) < |a|
    ensures FindBlank(a + b) == FindBlank(a)
  {
    if !(a[0] == '\n' && a[1] == '\n') {
      assert (a + b)[1..] == a[1..] + b;
      FindBlankAppend(a[1..], b);
    }
  }

  lemma {:induction false} DrainStep(env: Env, r: Reader, buf: string)
    requires !r.stopped && FindBlank(buf) < |buf|
    ensures Drain(env, r, buf) ==
      Drain(env, FoldLines(env, r, Lines(buf[..FindBlank(buf) + 2])), buf[FindBlank(buf) + 2..])
  {
  }

  lemma {:induction false} DrainAppend(env: Env, r: Reader, a: string, b: string)
    ensures Drain(env, r, a + b) == Feed(env, Drain(env, r, a), b)
    decreases |a|
  {
    hide FoldLines, Lines, FindBlank;
    var i := FindBlank(a);
    if r.stopped || i == |a| {
    } else {
      FindBlankAppend(a, b);
      DrainStep(env, r, a);
      DrainStep(env, r, a + b);
      hide Drain, Feed;
      assert (a + b)[..i + 2] == a[..i + 2];
      assert (a + b)[i + 2..] == a[i + 2..] + b;
      DrainAppend(env, FoldLines(env, r, Lines(a[..i + 2])), a[i + 2..], b);
    }
  }

  lemma {:induction false} FeedAppend(env: Env, s: Pump, a: string, b: string)
    ensures Feed(env, s, a + b) == Feed(env, Feed(env, s, a), b)
  {
    hide Drain, FoldLines, Lines, FindBlank;
    if !s.reader.stopped {
      DrainAppend(env, s.reader, s.buf + a, b);
      assert s.buf + (a + b) == s.buf + a + b;
    }
  }

  lemma {:induction false} FeedAllFlattens(env: Env, s: Pump, chunks: seq<string>)
    requires s == Feed(env, s, "")
    ensures FeedAll(env, s, chunks) == Feed(env, s, Flatten(chunks))
    decreases |chunks|
  {
    if chunks == [] {
    } else {
      var next := Feed(env, s, chunks[0]);
      FeedAppend(env, s, chunks[0], "");
      assert chunks[0] + "" == chunks[0];
      FeedAllFlattens(env, next, chunks[1..]);
      FeedAppend(env, s, chunks[0], Flatten(chunks[1..]));
    }
  }

  /** However the text is cut, reading it piece by piece ends in the state of reading it whole. */
  lemma {:induction false} ChunkingIsInvisible(env: Env, chunks: seq<string>)
    ensures FeedAll(env, START, chunks) == ReadText(env, Flatten(chunks))
  {
    FeedAllFlattens(env, START, chunks);
  }

  /** Output already emitted is never revised, and text after a stop is ignored. */
  lemma {:induction false} OutputIsStable(env: Env, a: string, b: string)
    ensures ReadText(env, a).reader.out <= ReadText(env, a + b).reader.out
    ensures ReadText(env, a).reader.stopped ==> ReadText(env, a + b) == ReadText(env, a)
  {
    FeedAppend(env, START, a, b);
    FeedGrows(env, ReadText(env, a), b);
  }

  lemma {:induction false} FeedGrows(env: Env, s: Pump, b: string)
    ensures s.reader.out <= Feed(env, s, b).reader.out
  {
    if !s.reader.stopped { DrainGrows(env, s.reader, s.buf + b); }
  }

  lemma {:induction false} DrainGrows(env: Env, r: Reader, buf: string)
    ensures r.out <= Drain(env, r, buf).reader.out
    decreases |buf|
  {
    hide FoldLines, Lines, FindBlank;
    var i := FindBlank(buf);
    if !r.stopped && i < |buf| {
      FoldGrows(env, r, Lines(buf[..i + 2]));
      DrainGrows(env, FoldLines(env, r, Lines(buf[..i + 2])), buf[i + 2..]);
    }
  }

  lemma {:induction false} FoldGrows(env: Env, r: Reader, lines: seq<string>)
    ensures r.out <= FoldLines(env, r, lines).out
    decreases |lines|
  {
    if lines == [] {
    } else {
      LineGrows(env, r, lines[0]);
      FoldGrows(env, LineStep(env, r, lines[0]), lines[1..]);
    }
  }

  lemma {:induction false} LineGrows(env: Env, r: Reader, line: string)
    ensures r.out <= LineStep(env, r, line).out
  {
    if !r.stopped && Payload(line).Some? && Payload(line).value != DONE_MARKER {
      var event := env.decode(Payload(line).value);
      if event.Some? { EmitsInOrder(env, r, event.value); }
    }
  }

  // ----- the same reader, line by line -----

  /** End of the last blank line, zero when there is none. */
  function CompleteLength(s: string): (e: nat)
    ensures e <= |s|
  {
    if |s| < 2 then 0
    else if s[|s| - 2] == '\n' && s[|s| - 1] == '\n' then |s|
    else CompleteLength(s[..|s| - 1])
  }

  lemma {:induction false} CompleteLengthIs(s: string, e: nat)
    requires e <= |s| && (e == 0 || (e >= 2 && s[e - 2] == '\n' && s[e - 1] == '\n'))
    requires forall j | e - 1 <= j < |s| - 1 && j >= 0 :: !(s[j] == '\n' && s[j + 1] == '\n')
    ensures CompleteLength(s) == e
    decreases |s|
  {
    if |s| >= 2 && e < |s| {
      CompleteLengthIs(s[..|s| - 1], e);
    }
  }

  lemma {:induction false} CompleteLengthSpec(s: string)
    ensures var e := CompleteLength(s);
      && (e == 0 || (e >= 2 && s[e - 2] == '\n' && s[e - 1] == '\n'))
      && forall j | e - 1 <= j < |s| - 1 && j >= 0 :: !(s[j] == '\n' && s[j + 1] == '\n')
    decreases |s|
  {
    if |s| >= 2 && !(s[|s| - 2] == '\n' && s[|s| - 1] == '\n') {
      CompleteLengthSpec(s[..|s| - 1]);
      var t := s[..|s| - 1];
      forall j | CompleteLength(s) - 1 <= j < |s| - 1 && j >= 0 ensures !(s[j] == '\n' && s[j + 1] == '\n') {
        if j < |t| - 1 { assert s[j] == t[j] && s[j + 1] == t[j + 1]; }
      }
    }
  }

  lemma {:induction false} FindNewlineAfter(p: string, rest: string)
    requires '\n' !in p
    ensures FindNewline(p + "\n" + rest) == |p|
  {
    var s := p + "\n" + rest;
    assert s[|p|] == '\n';
    assert forall j | 0 <= j < |p| :: s[j] == p[j] && p[j] in p;
  }

  lemma {:induction false} LinesCons(p: string, rest: string)
    requires '\n' !in p
    ensures Lines(p + "\n" + rest) == [StripReturn(p)] + Lines(rest)
  {
    var s := p + "\n" + rest;
    FindNewlineAfter(p, rest);
    assert s[..|p|] == p && s[|p| + 1..] == rest;
  }

  /** The lines, each followed by a newline or by a carriage return and a newline. */
  function EndedLines(lines: seq<string>, crs: seq<bool>): string
    requires |crs| == |lines|
  {
    if lines == [] then ""
    else lines[0] + (if crs[0] then "\r\n" else "\n") + EndedLines(lines[1..], crs[1..])
  }

  predicate OneLine(l: string) {
    '\n' !in l && (l != "" ==> l[|l| - 1] != '\r')
  }

  /** Lines are read back whichever way each one ends; a last piece without an end is read as it is. */
  lemma {:induction false} LinesOfEnded(lines: seq<string>, crs: seq<bool>, last: string)
    requires |crs| == |lines| && '\n' !in last
    requires forall l <- lines :: OneLine(l)
    ensures Lines(EndedLines(lines, crs) + last) == lines + if last == "" then [] else [last]
    decreases |lines|
  {
    hide Lines, StripReturn, FindNewline;
    if lines == [] {
      LastLine(last);
      assert "" + last == last;
    } else {
      var p := if crs[0] then lines[0] + "\r" else lines[0];
      var rest := EndedLines(lines[1..], crs[1..]);
      OneEndedLine(lines, crs);
      assert lines[0] in lines && forall l <- lines[1..] :: l in lines;
      LinesOfEnded(lines[1..], crs[1..], last);
      StripOne(lines[0]);
      assert '\n' !in p;
      LinesCons(p, rest + last);
      assert p + "\n" + rest + last == p + "\n" + (rest + last);
    }
  }

  lemma {:induction false} LastLine(last: string)
    requires '\n' !in last
    ensures Lines(last) == if last == "" then [] else [last]
  {
  }

  lemma {:induction false} OneEndedLine(lines: seq<string>, crs: seq<bool>)
    requires |crs| == |lines| && lines != []
    ensures EndedLines(lines, crs) ==
      (if crs[0] then lines[0] + "\r" else lines[0]) + "\n" + EndedLines(lines[1..], crs[1..])
  {
    assert lines[0] + "\r\n" == lines[0] + "\r" + "\n";
  }

  lemma {:induction false} StripOne(l: string)
    requires OneLine(l)
    ensures StripReturn(l) == l && StripReturn(l + "\r") == l
  {
  }

  lemma {:induction false} LinesOfNothing(b: string)
    ensures Lines("" + b) == Lines("") + Lines(b)
  {
    assert "" + b == b;
  }

  lemma {:induction false} LinesOneMore(p: string, rest: string, b: string)
    requires '\n' !in p
    requires Lines(rest + b) == Lines(rest) + Lines(b)
    ensures Lines(p + "\n" + rest + b) == Lines(p + "\n" + rest) + Lines(b)
  {
    hide *;
    LinesCons(p, rest);
    LinesCons(p, rest + b);
    assert p + "\n" + rest + b == p + "\n" + (rest + b);
  }

  lemma {:induction false} FirstLine(a: string) returns (p: string, rest: string)
    requires a != "" && a[|a| - 1] == '\n'
    ensures '\n' !in p && a == p + "\n" + rest && |rest| < |a|
    ensures rest != "" ==> rest[|rest| - 1] == '\n'
  {
    var i := FindNewline(a);
    p, rest := a[..i], a[i + 1..];
  }

  lemma {:induction false} LinesAppend(a: string, b: string)
    requires a != "" && a[|a| - 1] == '\n'
    ensures Lines(a + b) == Lines(a) + Lines(b)
    decreases |a|
  {
    hide *;
    var p, rest := FirstLine(a);
    if rest == "" {
      LinesOfNothing(b);
    } else {
      LinesAppend(rest, b);
    }
    LinesOneMore(p, rest, b);
  }

  lemma {:induction false} FoldAppend(env: Env, r: Reader, a: seq<string>, b: seq<string>)
    ensures FoldLines(env, r, a + b) == FoldLines(env, FoldLines(env, r, a), b)
    decreases |a|
  {
    if a == [] {
      assert a + b == b;
    } else {
      assert (a + b)[0] == a[0] && (a + b)[1..] == a[1..] + b;
      FoldAppend(env, LineStep(env, r, a[0]), a[1..], b);
    }
  }

  /** The event loop equals one pass over the lines of everything up to the last blank line. */
  lemma {:induction false} DrainOneLineFold(env: Env, r: Reader, buf: string)
    ensures Drain(env, r, buf).reader == FoldLines(env, r, Lines(buf[..CompleteLength(buf)]))
    decreases |buf|
  {
    var i := FindBlank(buf);
    if r.stopped {
      StoppedFold(env, r, Lines(buf[..CompleteLength(buf)]));
    } else if i == |buf| {
      CompleteLengthIs(buf, 0);
      assert Lines(buf[..0]) == [];
    } else {
      var head, tail := buf[..i + 2], buf[i + 2..];
      var rest := tail[..CompleteLength(tail)];
      DrainOneLineFold(env, FoldLines(env, r, Lines(head)), tail);
      FoldAppend(env, r, Lines(head), Lines(rest));
      LinesAppend(head, rest);
      CompleteAfterEvent(buf, i);
      if buf[..CompleteLength(buf)] != head + rest {
        LinesAppend(head, "\n");
        FoldAppend(env, r, Lines(head), Lines("\n"));
        BlankLineIsNothing(env, FoldLines(env, r, Lines(head)));
      }
    }
  }

  lemma {:induction false} BlankLineIsNothing(env: Env, r: Reader)
    ensures FoldLines(env, r, Lines("\n")) == r
  {
    assert FindNewline("\n") == 0;
    assert Lines("\n") == [""] + Lines("\n"[1..]) == [""];
    assert LineStep(env, r, "") == r;
    assert FoldLines(env, r, [""]) == FoldLines(env, LineStep(env, r, ""), [""][1..]);
  }

  /** A third newline in a row is the only thing the two cuts can disagree on. */
  lemma {:induction false} CompleteAfterEvent(buf: string, i: nat)
    requires i + 1 < |buf| && buf[i] == '\n' && buf[i + 1] == '\n'
    ensures var head, tail := buf[..i + 2], buf[i + 2..];
      var rest := tail[..CompleteLength(tail)];
      || buf[..CompleteLength(buf)] == head + rest
      || (rest == "" && buf[..CompleteLength(buf)] == head + "\n")
  {
    var tail := buf[i + 2..];
    var e := CompleteLength(tail);
    CompleteLengthSpec(tail);
    if e == 0 && tail != "" && tail[0] == '\n' {
      forall j | i + 2 <= j < |buf| - 1 ensures !(buf[j] == '\n' && buf[j + 1] == '\n') {
        assert tail[j - (i + 2)] == buf[j] && tail[j - (i + 2) + 1] == buf[j + 1];
      }
      CompleteLengthIs(buf, i + 3);
      assert buf[..i + 3] == buf[..i + 2] + "\n";
    } else {
      forall j | i + 2 + e - 1 <= j < |buf| - 1 ensures !(buf[j] == '\n' && buf[j + 1] == '\n') {
        if j >= i + 2 {
          assert tail[j - (i + 2)] == buf[j] && tail[j - (i + 2) + 1] == buf[j + 1];
        } else {
          assert buf[j + 1] == tail[0];
        }
      }
      if e > 0 { assert tail[e - 2] == buf[i + 2 + e - 2] && tail[e - 1] == buf[i + 2 + e - 1]; }
      CompleteLengthIs(buf, i + 2 + e);
      assert buf[..i + 2 + e] == buf[..i + 2] + tail[..e];
    }
  }

  /** Reading a text is one pass over its lines, up to the last blank line. */
  lemma {:induction false} ReaderOneLineFold(env: Env, text: string)
    ensures ReadText(env, text).reader == FoldLines(env, START.reader, Lines(text[..CompleteLength(text)]))
  {
    assert "" + text == text;
    DrainOneLineFold(env, START.reader, text);
  }

  /** Two newlines in a row somewhere. */
  predicate HasBlankLine(text: string) {
    exists j | 0 <= j < |text| - 1 :: text[j] == '\n' && text[j + 1] == '\n'
  }

  lemma {:induction false} DrainShrinks(env: Env, r: Reader, buf: string)
    ensures |Drain(env, r, buf).buf| <= |buf|
    decreases |buf|
  {
    hide FoldLines, Lines, FindBlank;
    var i := FindBlank(buf);
    if r.stopped || i == |buf| {
    } else {
      DrainShrinks(env, FoldLines(env, r, Lines(buf[..i + 2])), buf[i + 2..]);
    }
  }

  /** Every newline follows a carriage return. */
  predicate CrlfOnly(text: string) {
    forall j | 0 <= j < |text| && text[j] == '\n' :: j > 0 && text[j - 1] == '\r'
  }

  /**
   Nothing of a text is consumed, and nothing comes out, exactly when it has no blank line; so
   text with carriage-return newlines only stays unread.
   */
  lemma {:induction false} UnreadIff(env: Env, text: string)
    ensures ReadText(env, text) == Pump(START.reader, text) <==> !HasBlankLine(text)
    ensures CrlfOnly(text) ==> ReadText(env, text) == Pump(START.reader, text)
  {
    StartReads(env, text);
    FindsBlankLine(text);
    NothingToDrain(env, text);
    hide *;
    if FindBlank(text) < |text| { ConsumedIsShorter(env, text); }
  }

  lemma {:induction false} NothingToDrain(env: Env, text: string)
    ensures START.reader == Reader([], false)
    ensures FindBlank(text) == |text| ==> Drain(env, Reader([], false), text) == Pump(Reader([], false), text)
  {
    hide FoldLines, Lines, FindBlank;
  }

  lemma {:induction false} ConsumedIsShorter(env: Env, text: string)
    requires FindBlank(text) < |text|
    ensures |Drain(env, Reader([], false), text).buf| < |text|
  {
    hide *;
    var r, i := Reader([], false), FindBlank(text);
    DrainStep(env, r, text);
    DrainShrinks(env, FoldLines(env, r, Lines(text[..i + 2])), text[i + 2..]);
  }

  lemma {:induction false} FindsBlankLine(text: string)
    ensures HasBlankLine(text) <==> FindBlank(text) < |text|
    ensures CrlfOnly(text) ==> !HasBlankLine(text)
  {
  }

  // ----- a consumer that goes away -----

  function Take<T>(s: seq<T>, n: nat): seq<T> {
    if n <= |s| then s[..n] else s
  }

  /** `cut` is what a consumer that leaves after `k` chunks has seen of `full`. */
  predicate Truncates(cut: Reader, full: Reader, k: nat) {
    && cut.out == Take(full.out, k)
    && (full.stopped ==> cut.stopped)
    && (cut.stopped && !full.stopped ==> |full.out| >= k)
  }

  lemma {:induction false} DeliverTruncates(env: Env, cut: Reader, full: Reader, chunk: StreamChunk, k: nat)
    requires env.limit.None? && Truncates(cut, full, k)
    ensures Truncates(Deliver(env.(limit := Some(k)), cut, chunk), Deliver(env, full, chunk), k)
  {
  }

  lemma {:induction false} LineTruncates(env: Env, cut: Reader, full: Reader, line: string, k: nat)
    requires env.limit.None? && Truncates(cut, full, k)
    ensures Truncates(LineStep(env.(limit := Some(k)), cut, line), LineStep(env, full, line), k)
  {
    var short := env.(limit := Some(k));
    if !full.stopped && Payload(line).Some? && Payload(line).value != DONE_MARKER {
      var event := env.decode(Payload(line).value);
      if event.Some? {
        EmitsInOrder(env, full, event.value);
        EmitsInOrder(short, cut, event.value);
        var text, finish := TextOf(env.backend, event.value), FinishOf(env, event.value);
        assert finish == FinishOf(short, event.value);
        hide TextOf, FinishOf, Emits, DeliverAll;
        var cut', full' := cut, full;
        if text.Some? {
          DeliverTruncates(env, cut, full, TextDelta(text.value), k);
          cut', full' := Deliver(short, cut, TextDelta(text.value)), Deliver(env, full, TextDelta(text.value));
        }
        if finish.Some? {
          DeliverTruncates(env, cut', full', finish.value, k);
        }
      }
    }
  }

  lemma {:induction false} FoldTruncates(env: Env, cut: Reader, full: Reader, lines: seq<string>, k: nat)
    requires env.limit.None? && Truncates(cut, full, k)
    ensures Truncates(FoldLines(env.(limit := Some(k)), cut, lines), FoldLines(env, full, lines), k)
    decreases |lines|
  {
    if lines == [] {
    } else {
      var short := env.(limit := Some(k));
      LineTruncates(env, cut, full, lines[0], k);
      FoldTruncates(env, LineStep(short, cut, lines[0]), LineStep(env, full, lines[0]), lines[1..], k);
    }
  }

  /** A consumer that leaves after `k` chunks has seen exactly the first `k` of the full output. */
  lemma {:induction false} DisconnectTruncates(env: Env, text: string, k: nat)
    requires env.limit.None?
    ensures ReadText(env.(limit := Some(k)), text).reader.out == Take(ReadText(env, text).reader.out, k)
  {
    var short := env.(limit := Some(k));
    var lines := Lines(text[..CompleteLength(text)]);
    ReaderOneLineFold(env, text);
    ReaderOneLineFold(short, text);
    FoldTruncates(env, START.reader, START.reader, lines, k);
  }

  // ----- round trip -----

  /** A stream as a well-behaved server writes it: one payload per event. */
  function Encode(payloads: seq<string>): string {
    if payloads == [] then "" else EventText(payloads[0]) + Encode(payloads[1..])
  }

  function EventText(payload: string): string {
    "data: " + payload + "\n\n"
  }

  /** What the payloads say, with nothing about buffering. */
  function Said(env: Env, payloads: seq<string>): seq<StreamChunk> {
    if payloads == [] then []
    else
      var event := env.decode(payloads[0]);
      (if event.Some? then Emits(env, event.value) else []) + Said(env, payloads[1..])
  }

  lemma {:induction false} FindBlankAfter(p: string, rest: string)
    requires '\n' !in p
    ensures FindBlank(p + "\n\n" + rest) == |p|
  {
    var s := p + "\n\n" + rest;
    assert s[|p|] == '\n' && s[|p| + 1] == '\n';
    assert forall j | 0 <= j < |p| :: s[j] == p[j] && p[j] in p;
  }

  lemma {:induction false} EventLines(payload: string)
    requires OneLine(payload)
    ensures Lines("data: " + payload + "\n\n") == ["data: " + payload, ""]
    ensures Payload("data: " + payload) == Some(payload)
  {
    var line := "data: " + payload;
    assert OneLine(line) by { assert payload != "" ==> line[|line| - 1] == payload[|payload| - 1]; }
    StripOne(line);
    BlankEnd();
    hide Lines, StripReturn;
    LinesCons(line, "\n");
    assert line + "\n" + "\n" == line + "\n\n";
  }

  lemma {:induction false} BlankEnd()
    ensures Lines("\n") == [""]
  {
    LinesCons("", "");
    assert "" + "\n" + "" == "\n";
  }

  lemma {:induction false} ConnectedDelivery(env: Env, out: seq<StreamChunk>, chunks: seq<StreamChunk>)
    requires env.limit.None?
    ensures DeliverAll(env, Reader(out, false), chunks) == Reader(out + chunks, false)
    decreases |chunks|
  {
    if chunks == [] {
      assert out + chunks == out;
    } else {
      ConnectedDelivery(env, out + [chunks[0]], chunks[1..]);
      assert out + [chunks[0]] + chunks[1..] == out + chunks;
    }
  }

  lemma {:induction false} EventStep(env: Env, out: seq<StreamChunk>, payload: string)
    requires env.limit.None? && OneLine(payload)
    ensures FoldLines(env, Reader(out, false), Lines(EventText(payload))) ==
      if payload == "[DONE]" then Reader(out, true) else Reader(out + Said(env, [payload]), false)
  {
    var line := "data: " + payload;
    var r := Reader(out, false);
    EventLines(payload);
    FoldTwo(env, r, line, "");
    var event := env.decode(payload);
    if event.Some? {
      ConnectedDelivery(env, out, Emits(env, event.value));
    }
    assert [payload][1..] == [];
    assert out + [] == out;
    hide Lines, Emits, DeliverAll, FoldLines;
  }

  lemma {:induction false} FoldCons(env: Env, r: Reader, line: string, rest: seq<string>)
    ensures FoldLines(env, r, [line] + rest) == FoldLines(env, LineStep(env, r, line), rest)
  {
    assert ([line] + rest)[1..] == rest;
  }

  lemma {:induction false} FoldTwo(env: Env, r: Reader, a: string, b: string)
    ensures FoldLines(env, r, [a, b]) == LineStep(env, LineStep(env, r, a), b)
  {
    FoldCons(env, r, a, [b]);
    FoldCons(env, LineStep(env, r, a), b, []);
    assert [a] + [b] == [a, b] && [b] + [] == [b];
    hide LineStep;
  }

  lemma {:induction false} DrainEvent(env: Env, r: Reader, payload: string, rest: string)
    requires !r.stopped && OneLine(payload)
    ensures Drain(env, r, EventText(payload) + rest) == Drain(env, FoldLines(env, r, Lines(EventText(payload))), rest)
  {
    var line := "data: " + payload;
    var buf := EventText(payload) + rest;
    FindBlankAfter(line, rest);
    assert buf == line + "\n\n" + rest;
    assert buf[..|line| + 2] == EventText(payload) && buf[|line| + 2..] == rest;
    hide *;
    DrainStep(env, r, buf);
  }

  lemma {:induction false} DrainEncoded(env: Env, out: seq<StreamChunk>, payloads: seq<string>, tail: string)
    requires env.limit.None?
    requires forall p <- payloads :: OneLine(p) && p != "[DONE]"
    ensures Drain(env, Reader(out, false), Encode(payloads) + tail) ==
      Drain(env, Reader(out + Said(env, payloads), false), tail)
    decreases |payloads|
  {
    if payloads == [] {
      assert Encode(payloads) + tail == tail;
      assert out + Said(env, payloads) == out;
    } else {
      var p, rest := payloads[0], payloads[1..];
      var next := out + Said(env, [p]);
      SaidCons(env, p, rest);
      assert [p] + rest == payloads;
      assert Encode(payloads) == EventText(p) + Encode(rest);
      hide *;
      assert Drain(env, Reader(out, false), Encode(payloads) + tail) ==
        Drain(env, Reader(next, false), Encode(rest) + tail) by {
        assert EventText(p) + Encode(rest) + tail == EventText(p) + (Encode(rest) + tail);
        DrainEvent(env, Reader(out, false), p, Encode(rest) + tail);
        EventStep(env, out, p);
      }
      DrainEncoded(env, next, rest, tail);
      assert next + Said(env, rest) == out + Said(env, payloads);
    }
  }

  lemma {:induction false} SaidCons(env: Env, p: string, rest: seq<string>)
    ensures Said(env, [p] + rest) == Said(env, [p]) + Said(env, rest)
  {
    assert ([p] + rest)[1..] == rest && [p][1..] == [];
  }

  /**
   Whatever the chunks, an encoded stream yields what its payloads say and ends at the marker, whatever
   follows.
   */
  lemma {:induction false} EncodedStreamReads(env: Env, payloads: seq<string>, junk: string, chunks: seq<string>)
    requires env.limit.None?
    requires forall p <- payloads :: OneLine(p) && p != "[DONE]"
    requires Flatten(chunks) == Encode(payloads) + (EventText("[DONE]") + junk)
    ensures FeedAll(env, START, chunks) == Pump(Reader(Said(env, payloads), true), "")
  {
    var said := Said(env, payloads);
    ChunkingIsInvisible(env, chunks);
    StartReads(env, Flatten(chunks));
    hide *;
    DrainEncoded(env, [], payloads, EventText("[DONE]") + junk);
    assert [] + said == said;
    MarkerStops(env, said, junk);
  }

  lemma {:induction false} StartReads(env: Env, text: string)
    ensures ReadText(env, text) == Drain(env, Reader([], false), text)
  {
    assert "" + text == text;
  }

  lemma {:induction false} MarkerStops(env: Env, said: seq<StreamChunk>, junk: string)
    requires env.limit.None?
    ensures Drain(env, Reader(said, false), EventText("[DONE]") + junk) == Pump(Reader(said, true), "")
  {
    DrainEvent(env, Reader(said, false), "[DONE]", junk);
    EventStep(env, said, "[DONE]");
  }

  // ----- what an event says, by path -----

  datatype Step = Key(name: string) | Index0

  /** The value at a path into a JSON document. */
  function At(v: Value, path: seq<Step>): Option<Value>
    decreases |path|
  {
    if path == [] then Some(v)
    else
      var child := match path[0]
        case Key(name) => v.Get(name)
        case Index0 => v.First();
      if child.Some? then At(child.value, path[1..]) else None
  }

  function TextAt(v: Value, path: seq<Step>): Option<string> {
    var found := At(v, path);
    if found.Some? then found.value.AsString() else None
  }

  lemma {:induction false} AtKey(v: Value, name: string, rest: seq<Step>)
    ensures At(v, [Key(name)] + rest) ==
      if v.Get(name).Some? then At(v.Get(name).value, rest) else None
  {
    assert ([Key(name)] + rest)[1..] == rest;
  }

  lemma {:induction false} AtFirst(v: Value, rest: seq<Step>)
    ensures At(v, [Index0] + rest) == if v.First().Some? then At(v.First().value, rest) else None
  {
    assert ([Index0] + rest)[1..] == rest;
  }

  lemma {:induction false} AtTwoKeys(v: Value, outer: string, inner: string)
    ensures TextAt(v, [Key(outer), Key(inner)]) == StringIn(v.Get(outer), inner)
  {
    assert [Key(outer), Key(inner)] == [Key(outer)] + [Key(inner)] && [Key(inner)] == [Key(inner)] + [];
    AtKey(v, outer, [Key(inner)]);
    if v.Get(outer).Some? { AtKey(v.Get(outer).value, inner, []); }
  }

  lemma {:induction false} AtOneKey(v: Value, name: string)
    ensures TextAt(v, [Key(name)]) == StringIn(Some(v), name)
  {
    assert [Key(name)] == [Key(name)] + [];
    AtKey(v, name, []);
  }

  lemma {:induction false} AtFirstChoice(v: Value, rest: seq<Step>)
    ensures At(v, [Key("choices"), Index0] + rest) ==
      if FirstChoice(v).Some? then At(FirstChoice(v).value, rest) else None
  {
    assert [Key("choices"), Index0] + rest == [Key("choices")] + ([Index0] + rest);
    AtKey(v, "choices", [Index0] + rest);
    if v.Get("choices").Some? { AtFirst(v.Get("choices").value, rest); }
  }

  const OPENAI_TEXT := [Key("choices"), Index0, Key("delta"), Key("content")]
  const OPENAI_FINISH := [Key("choices"), Index0, Key("finish_reason")]

  /** For every event: the first choice's delta content as text, then its finish reason, without usage. */
  lemma {:induction false} OpenAiEvent(env: Env, event: Value)
    requires env.backend.OpenAi?
    ensures Emits(env, event) ==
      (match TextAt(event, OPENAI_TEXT) case Some(text) => [TextDelta(text)] case None => [])
      + (match TextAt(event, OPENAI_FINISH) case Some(reason) => [Done(reason, None)] case None => [])
  {
    assert OPENAI_TEXT == [Key("choices"), Index0] + [Key("delta"), Key("content")];
    assert OPENAI_FINISH == [Key("choices"), Index0] + [Key("finish_reason")];
    AtFirstChoice(event, [Key("delta"), Key("content")]);
    AtFirstChoice(event, [Key("finish_reason")]);
    if FirstChoice(event).Some? {
      AtTwoKeys(FirstChoice(event).value, "delta", "content");
      AtOneKey(FirstChoice(event).value, "finish_reason");
    }
    hide At, FirstChoice;
  }

  /** For every event: a content delta's text, or a message delta's stop reason with the decoded usage. */
  lemma {:induction false} AnthropicEvent(env: Env, event: Value)
    requires env.backend.Anthropic?
    ensures Emits(env, event) ==
      match TextAt(event, [Key("type")])
      case Some("content_block_delta") =>
        (match TextAt(event, [Key("delta"), Key("text")]) case Some(text) => [TextDelta(text)] case None => [])
      case Some("message_delta") =>
        (match TextAt(event, [Key("delta"), Key("stop_reason")])
         case Some(reason) =>
           [Done(reason, if event.Get("usage").Some? then env.usageOf(event.Get("usage").value) else None)]
         case None => [])
      case _ => []
  {
    AtOneKey(event, "type");
    AtTwoKeys(event, "delta", "text");
    AtTwoKeys(event, "delta", "stop_reason");
    assert "content_block_delta" != "message_delta";
    hide At, StringIn;
  }
}
