// The three event-stream readers of the Go client (client/session.go, client/agent.go).
module SseReaders {
  import opened Wrappers
  import opened Text
  import opened SseStream

  datatype Response = Response(responseType: string, content: string, done: bool, payload: string)

  // How a reader's call ends.
  datatype Status = Completed | ParseFailed | CallbackFailed | TerminalError(content: string) | LineTooLong

  // What the callback received, and how the call ended.
  datatype Outcome = Outcome(events: seq<Response>, status: Status)

  // JSON decoding, None for an error, and the callback: given all events so far, the new one last, whether it
  // accepts it.
  datatype Client = Client(decode: string -> Option<Response>, accepts: seq<Response> -> bool)

  // KnowledgeQAStream, ContinueStream and processAgentSSEStream.
  datatype Reader = KnowledgeQA | Continue | Agent

  // A reader's variables.
  datatype Buffers = Buffers(data: string, eventType: string)

  const EMPTY := Buffers("", "")

  // The characters strings.TrimSpace removes.
  const GO_SPACE: set<char> :=
    {'\t', '\n', '\U{0B}', '\U{0C}', '\r', ' ', '\U{85}', '\U{A0}', '\U{1680}', '\U{2000}', '\U{2001}', '\U{2002}',
     '\U{2003}', '\U{2004}', '\U{2005}', '\U{2006}', '\U{2007}', '\U{2008}', '\U{2009}', '\U{200A}', '\U{2028}',
     '\U{2029}', '\U{202F}', '\U{205F}', '\U{3000}'}

  predicate HasPrefix(s: string, prefix: string) {
    prefix <= s
  }

  // ---------- Reading as a fold over lines ----------

  // A reader at work, or finished early.
  datatype Config = Running(b: Buffers, events: seq<Response>) | Stopped(events: seq<Response>, status: Status)

  // A non-empty line: an event name, data, or something ignored.
  function Field(reader: Reader, b: Buffers, line: string): Buffers {
    if HasPrefix(line, "event:") then
      if reader.Agent? then b else b.(eventType := line[6..])
    else if HasPrefix(line, "data:") then
      b.(data := if reader.Agent? then Strip(line[5..], GO_SPACE) else line[5..])
    else b
  }

  // Whether an empty line completes an event.
  predicate Ready(reader: Reader, b: Buffers) {
    b.data != "" && (reader.Continue? ==> b.eventType == "message")
  }

  // The delivery of one decoded event.
  function Deliver(client: Client, events: seq<Response>, e: Response): Config {
    var sent := events + [e];
    if !client.accepts(sent) then Stopped(sent, CallbackFailed)
    else if e.responseType == "error" && e.done then Stopped(sent, TerminalError(e.content))
    else Running(EMPTY, sent)
  }

  function Next(reader: Reader, client: Client, c: Config, line: string): Config {
    match c
    case Stopped(_, _) => c
    case Running(b, events) =>
      if line != "" then Running(Field(reader, b, line), events)
      else if !Ready(reader, b) then c
      else match client.decode(b.data) {
        case None => Stopped(events, ParseFailed)
        case Some(e) => Deliver(client, events, e)
      }
  }

  function Run(reader: Reader, client: Client, c: Config, lines: seq<string>): Config
    decreases lines
  {
    if lines == [] then c else Run(reader, client, Next(reader, client, c, lines[0]), lines[1..])
  }

  function Finish(c: Config, tooLong: bool): Outcome {
    match c
    case Stopped(events, status) => Outcome(events, status)
    case Running(_, events) => Outcome(events, if tooLong then LineTooLong else Completed)
  }

  // What a reader does with a stream.
  function Receive(reader: Reader, client: Client, stream: string): Outcome {
    var scan := ScanLines(stream);
    Finish(Run(reader, client, Running(EMPTY, []), scan.lines), scan.tooLong)
  }

  lemma {:induction false} RunAppend(reader: Reader, client: Client, c: Config, a: seq<string>, b: seq<string>)
    ensures Run(reader, client, c, a + b) == Run(reader, client, Run(reader, client, c, a), b)
    decreases a
  {
    if a == [] {
      assert a + b == b;
    } else {
      assert (a + b)[1..] == a[1..] + b;
      RunAppend(reader, client, Next(reader, client, c, a[0]), a[1..], b);
    }
  }

  lemma RunOne(reader: Reader, client: Client, c: Config, line: string)
    ensures Run(reader, client, c, [line]) == Next(reader, client, c, line)
  {
    assert [line][1..] == [];
  }

  lemma {:induction false} RunKeepsEvents(reader: Reader, client: Client, c: Config, lines: seq<string>)
    ensures c.events <= Run(reader, client, c, lines).events
    ensures c.Stopped? ==> Run(reader, client, c, lines) == c
    decreases lines
  {
    if lines != [] {
      RunKeepsEvents(reader, client, Next(reader, client, c, lines[0]), lines[1..]);
    }
  }

  // ---------- Lines as they are written ----------

  // A line is an event name, data, or ignored: that is settled by how it begins.
  lemma FieldIs(reader: Reader, b: Buffers, line: string)
    ensures (|line| >= 6 && line[..6] == "event:") ==>
      Field(reader, b, line) == if reader == Agent then b else Buffers(b.data, line[6..])
    ensures (|line| >= 5 && line[..5] == "data:") && reader != Agent ==>
      Field(reader, b, line) == Buffers(line[5..], b.eventType)
    ensures !(|line| >= 6 && line[..6] == "event:") && !(|line| >= 5 && line[..5] == "data:") ==>
      Field(reader, b, line) == b
  {
    if |line| >= 5 && line[..5] == "data:" {
      assert line[0] == 'd';
    }
  }

  // White space in Go, by code points: 9 to 13, 32, and those outside ASCII.
  predicate IsGoSpace(c: char) {
    var n := c as int;
    9 <= n <= 13 || n == 32 || n == 0x85 || n == 0xA0 || n == 0x1680 || 0x2000 <= n <= 0x200A ||
    n == 0x2028 || n == 0x2029 || n == 0x202F || n == 0x205F || n == 0x3000
  }

  lemma GoSpaceIs(c: char)
    ensures c in GO_SPACE <==> IsGoSpace(c)
  {
  }

  lemma AllGoSpace(s: string)
    requires forall i :: 0 <= i < |s| ==> IsGoSpace(s[i])
    ensures AllIn(s, GO_SPACE)
  {
    forall i | 0 <= i < |s| ensures s[i] in GO_SPACE {
      GoSpaceIs(s[i]);
    }
  }

  // The agent reader takes the data without the white space around it.
  lemma AgentData(b: Buffers, before: string, data: string, after: string)
    requires forall i :: 0 <= i < |before| ==> IsGoSpace(before[i])
    requires forall i :: 0 <= i < |after| ==> IsGoSpace(after[i])
    requires data != "" ==> !IsGoSpace(data[0]) && !IsGoSpace(data[|data| - 1])
    ensures Field(Agent, b, "data:" + (before + data + after)) == Buffers(data, b.eventType)
  {
    var line := "data:" + (before + data + after);
    assert line[0] == 'd' && line[5..] == before + data + after;
    AllGoSpace(before);
    AllGoSpace(after);
    if data == "" {
      AllGoSpace(before + data + after);
      StripRightBlank(before + data + after, GO_SPACE);
      StripRightBlank("", GO_SPACE);
    } else {
      GoSpaceIs(data[0]);
      GoSpaceIs(data[|data| - 1]);
      StripPadded(before, data, after, GO_SPACE);
    }
  }

  // ---------- Lines that are too long ----------

  // A reader gives up on the length of a line only if the stream has 4 MiB without a line feed; then it never ends as
  // if the stream were complete.
  lemma TooLongIff(reader: Reader, client: Client, stream: string)
    ensures Receive(reader, client, stream).status == LineTooLong ==> HasLongLine(stream)
    ensures HasLongLine(stream) ==> Receive(reader, client, stream).status != Completed
  {
    ScanIsComplete(stream);
    OverflowsIff(stream);
    StatusOf(reader, client, Running(EMPTY, []), ScanLines(stream).lines);
  }

  lemma {:induction false} StatusOf(reader: Reader, client: Client, c: Config, lines: seq<string>)
    requires c.Stopped? ==> c.status != LineTooLong && c.status != Completed
    ensures var r := Run(reader, client, c, lines); r.Stopped? ==> r.status != LineTooLong && r.status != Completed
    decreases lines
  {
    if lines != [] {
      StatusOf(reader, client, Next(reader, client, c, lines[0]), lines[1..]);
    }
  }

  // ---------- Cut streams ----------

  // The reader after the complete lines of s.
  function AtCut(reader: Reader, client: Client, s: string): Config {
    Run(reader, client, Running(EMPTY, []), CompleteLines(s))
  }

  // The cut leaves a lone carriage return on a line of its own while an event is waiting to be completed: at the
  // end of input that reads as the empty line that completes it.
  predicate CutCompletesEvent(reader: Reader, client: Client, s: string) {
    var c := AtCut(reader, client, s);
    !Overflows(s) && Tail(s) == "\r" && c.Running? && Ready(reader, c.b) && client.decode(c.b.data).Some?
  }

  // At the end of input the last partial line delivers an event in that one case only.
  lemma CutEvents(reader: Reader, client: Client, s: string)
    ensures var before := AtCut(reader, client, s).events;
      Receive(reader, client, s).events ==
        if CutCompletesEvent(reader, client, s) then before + [client.decode(AtCut(reader, client, s).b.data).value]
        else before
  {
    ScanIsComplete(s);
    var c := AtCut(reader, client, s);
    if Overflows(s) || Tail(s) == "" {
      assert CompleteLines(s) + [] == CompleteLines(s);
    } else {
      var line := DropCr(Tail(s));
      RunAppend(reader, client, Running(EMPTY, []), CompleteLines(s), [line]);
      RunOne(reader, client, c, line);
      PartialLine(reader, client, c, Tail(s));
    }
  }

  // A last line that is not closed delivers an event only if it reads as an empty line.
  lemma PartialLine(reader: Reader, client: Client, c: Config, raw: string)
    requires raw != ""
    ensures Next(reader, client, c, DropCr(raw)).events ==
      if raw == "\r" && c.Running? && Ready(reader, c.b) && client.decode(c.b.data).Some?
      then c.events + [client.decode(c.b.data).value] else c.events
  {
    assert DropCr(raw) == "" <==> raw == "\r";
  }

  lemma WholeKeepsCut(reader: Reader, client: Client, s: string, rest: string)
    ensures AtCut(reader, client, s).events <= Receive(reader, client, s + rest).events
  {
    CutLines(s, rest);
    var c := AtCut(reader, client, s);
    if !Overflows(s) {
      var more := ScanLines(Tail(s) + rest).lines;
      RunAppend(reader, client, Running(EMPTY, []), CompleteLines(s), more);
      RunKeepsEvents(reader, client, c, more);
    }
  }

  // However the stream goes on, what a cut stream delivers is a prefix of what the whole one delivers -- exactly
  // unless the cut itself completes an event.
  lemma PrefixSafe(reader: Reader, client: Client, s: string)
    ensures (forall rest :: Receive(reader, client, s).events <= Receive(reader, client, s + rest).events) <==>
            !CutCompletesEvent(reader, client, s)
  {
    CutEvents(reader, client, s);
    if CutCompletesEvent(reader, client, s) {
      CutGoesOn(reader, client, s);
      var whole := Receive(reader, client, s + "x");
      assert !(Receive(reader, client, s).events <= whole.events);
    } else {
      forall rest ensures Receive(reader, client, s).events <= Receive(reader, client, s + rest).events {
        WholeKeepsCut(reader, client, s, rest);
      }
    }
  }

  // One cut and one continuation: safe unless the cut completes an event and the stream goes on with anything but a
  // line feed. Then the carriage return begins a line that is ignored, and the reader goes on as it was at the cut.
  lemma PairSafe(reader: Reader, client: Client, s: string, rest: string)
    ensures !CutCompletesEvent(reader, client, s) || rest == "" || rest[0] == '\n' ==>
      Receive(reader, client, s).events <= Receive(reader, client, s + rest).events
    ensures CutCompletesEvent(reader, client, s) && rest != "" && rest[0] != '\n' ==>
      Receive(reader, client, s + rest) ==
        if LineLength(rest) + 1 >= 4 * 1024 * 1024 then Outcome(AtCut(reader, client, s).events, LineTooLong)
        else
          var scan := ScanLines(AfterLine(rest));
          Finish(Run(reader, client, AtCut(reader, client, s), scan.lines), scan.tooLong)
  {
    CutEvents(reader, client, s);
    if !CutCompletesEvent(reader, client, s) {
      WholeKeepsCut(reader, client, s, rest);
    } else if rest == "" {
      assert s + rest == s;
    } else if rest[0] == '\n' {
      LineFeedCompletes(reader, client, s, rest[1..]);
      assert ['\n'] + rest[1..] == rest;
    } else {
      CutIgnored(reader, client, s, rest);
    }
  }

  lemma GoesOn(reader: Reader, client: Client, s: string, rest: string, scan: Scan)
    requires !Overflows(s) && ScanLines(Tail(s) + rest) == scan
    ensures Receive(reader, client, s + rest) ==
      Finish(Run(reader, client, AtCut(reader, client, s), scan.lines), scan.tooLong)
  {
    CutLines(s, rest);
    RunAppend(reader, client, Running(EMPTY, []), CompleteLines(s), scan.lines);
  }

  lemma ReturnLineFeed(after: string)
    ensures ScanLines("\r" + (['\n'] + after)) == Prepend([""], ScanLines(after))
  {
    var s := "\r" + "\n" + after;
    assert "\r" + (['\n'] + after) == s;
    LineLengthOf("\r", after);
    assert s[..1] == "\r" && s[2..] == after && DropCr("\r") == "";
  }

  lemma LineFeedCompletes(reader: Reader, client: Client, s: string, after: string)
    requires CutCompletesEvent(reader, client, s)
    ensures Receive(reader, client, s).events <= Receive(reader, client, s + (['\n'] + after)).events
  {
    var c, more := AtCut(reader, client, s), ScanLines(after).lines;
    hide Tail, Overflows, Field;
    CutEvents(reader, client, s);
    ReturnLineFeed(after);
    GoesOn(reader, client, s, ['\n'] + after, Prepend([""], ScanLines(after)));
    RunAppend(reader, client, c, [""], more);
    RunOne(reader, client, c, "");
    RunKeepsEvents(reader, client, Next(reader, client, c, ""), more);
  }

  // What follows the line with which the text begins.
  function AfterLine(rest: string): string {
    if LineLength(rest) == |rest| then "" else rest[LineLength(rest) + 1..]
  }

  lemma ReturnKept(raw: string)
    requires |raw| >= 2 && raw[0] == '\r'
    ensures DropCr(raw) != "" && DropCr(raw)[0] == '\r'
  {
  }

  // A line that begins with a carriage return and goes on.
  lemma ScanReturn(rest: string) returns (line: string)
    requires rest != "" && rest[0] != '\n' && LineLength(rest) + 1 < 4 * 1024 * 1024
    ensures line != "" && line[0] == '\r'
    ensures ScanLines("\r" + rest) == Prepend([line], ScanLines(AfterLine(rest)))
  {
    hide ScanLines, DropCr;
    var s, m := "\r" + rest, LineLength(rest);
    LineLengthExtends("\r", rest);
    LineLengthOf("\r", "");
    line := DropCr(s[..m + 1]);
    ReturnKept(s[..m + 1]);
    ScanFirst(s);
    if m < |rest| {
      assert s[m + 2..] == rest[m + 1..];
    } else {
      assert s[..m + 1] == s;
    }
  }

  lemma ScanFirst(s: string)
    requires s != "" && LineLength(s) < 4 * 1024 * 1024
    ensures ScanLines(s) == Prepend([DropCr(s[..LineLength(s)])], ScanLines(AfterLine(s)))
  {
    var n := LineLength(s);
    if n == |s| {
      assert s[..n] == s && [DropCr(s)] + [] == [DropCr(s)];
    }
  }

  lemma CutIgnored(reader: Reader, client: Client, s: string, rest: string)
    requires CutCompletesEvent(reader, client, s) && rest != "" && rest[0] != '\n'
    ensures Receive(reader, client, s + rest) ==
      if LineLength(rest) + 1 >= 4 * 1024 * 1024 then Outcome(AtCut(reader, client, s).events, LineTooLong)
      else
        var scan := ScanLines(AfterLine(rest));
        Finish(Run(reader, client, AtCut(reader, client, s), scan.lines), scan.tooLong)
  {
    var c := AtCut(reader, client, s);
    if LineLength(rest) + 1 >= 4 * 1024 * 1024 {
      LineLengthExtends("\r", rest);
      GoesOn(reader, client, s, rest, Scan([], true));
    } else {
      var line := ScanReturn(rest);
      var scan := ScanLines(AfterLine(rest));
      GoesOn(reader, client, s, rest, Prepend([line], scan));
      RunAppend(reader, client, c, [line], scan.lines);
      IgnoresReturn(reader, client, c, line);
    }
  }

  lemma IgnoresReturn(reader: Reader, client: Client, c: Config, line: string)
    requires line != "" && line[0] == '\r'
    ensures Run(reader, client, c, [line]) == c
  {
    assert !HasPrefix(line, "event:") && !HasPrefix(line, "data:");
    assert [line][1..] == [];
    assert Next(reader, client, c, line) == c;
  }

  lemma LineBefore(line: string, rest: string)
    requires IsLine(line) && rest != ""
    ensures var s := line + "\n" + rest;
      CompleteLines(s) == [line] + CompleteLines(rest) && Tail(s) == Tail(rest) && (Overflows(s) <==> Overflows(rest))
  {
    var s := line + "\n" + rest;
    LineLengthOf(line, rest);
    assert s[..|line|] == line && s[|line| + 1..] == rest;
  }

  lemma LoneReturn()
    ensures CompleteLines("\r") == [] && Tail("\r") == "\r" && !Overflows("\r")
  {
    LineLengthOf("\r", "");
  }

  // Such a cut: after a data line, in the middle of the line end that closes the frame.
  lemma CutInLineEnd(reader: Reader, client: Client, line: string, b: Buffers)
    requires IsLine(line) && line != "" && b == Field(reader, EMPTY, line)
    requires Ready(reader, b) && client.decode(b.data).Some?
    ensures CutCompletesEvent(reader, client, line + "\n" + "\r")
  {
    LineBefore(line, "\r");
    LoneReturn();
    assert [line] + [] == [line];
    RunOne(reader, client, Running(EMPTY, []), line);
    assert AtCut(reader, client, line + "\n" + "\r") == Running(b, []);
  }

  // For any payload the decoder accepts, such as an empty JSON object.
  lemma CutExample(client: Client, d: string)
    requires d != "" && IsLine("data:" + d) && client.decode(d).Some?
    ensures CutCompletesEvent(KnowledgeQA, client, "data:" + d + "\n" + "\r")
  {
    var line := "data:" + d;
    assert line[5..] == d && line[0] == 'd';
    CutInLineEnd(KnowledgeQA, client, line, Buffers(d, ""));
  }

  // If the carriage return was the start of a longer line, the whole stream does not deliver the event.
  lemma CutGoesOn(reader: Reader, client: Client, s: string)
    requires CutCompletesEvent(reader, client, s)
    ensures Receive(reader, client, s + "x").events == AtCut(reader, client, s).events
  {
    CutLines(s, "x");
    var c := AtCut(reader, client, s);
    var line := "\r" + "x";
    LineLengthOf(line, "");
    assert ScanLines(line) == Scan([line], false);
    RunAppend(reader, client, Running(EMPTY, []), CompleteLines(s), [line]);
    RunOne(reader, client, c, line);
  }

  // ---------- Print and read back ----------

  // The decoder undoes the encoding of these events, which is on one line of acceptable length and without white
  // space around it, as JSON objects are.
  predicate IsCodec(encode: Response -> string, client: Client, events: seq<Response>) {
    forall e :: e in events ==>
      client.decode(encode(e)) == Some(e) && encode(e) != "" && IsLine("data:" + encode(e)) &&
      Strip(encode(e), GO_SPACE) == encode(e)
  }

  function FrameLines(encode: Response -> string, e: Response): seq<string> {
    ["event:message", "data:" + encode(e), ""]
  }

  function FramesLines(encode: Response -> string, events: seq<Response>): seq<string> {
    if events == [] then [] else FrameLines(encode, events[0]) + FramesLines(encode, events[1..])
  }

  function PrintEvents(encode: Response -> string, events: seq<Response>): string {
    PrintLines(FramesLines(encode, events))
  }

  // Handing over events one by one, up to the first refused or terminal one.
  function DeliverAll(client: Client, sent: seq<Response>, events: seq<Response>): Outcome
    decreases events
  {
    if events == [] then Outcome(sent, Completed)
    else match Deliver(client, sent, events[0]) {
      case Stopped(all, status) => Outcome(all, status)
      case Running(_, all) => DeliverAll(client, all, events[1..])
    }
  }

  lemma ReadFrame(reader: Reader, client: Client, encode: Response -> string, sent: seq<Response>, e: Response)
    requires IsCodec(encode, client, [e])
    ensures Run(reader, client, Running(EMPTY, sent), FrameLines(encode, e)) == Deliver(client, sent, e)
  {
    assert e in [e];
    var lines := FrameLines(encode, e);
    var data := "data:" + encode(e);
    assert IsLine(data) && data[5..] == encode(e);
    assert "event:message"[6..] == "message";
    var c0 := Running(EMPTY, sent);
    var c1 := Next(reader, client, c0, lines[0]);
    var c2 := Next(reader, client, c1, lines[1]);
    assert data != "" && !HasPrefix(data, "event:") by {
      assert data[0] == 'd';
    }
    assert c2.Running? && c2.b.data == encode(e) && (!reader.Agent? ==> c2.b.eventType == "message");
    var c3 := Next(reader, client, c2, lines[2]);
    assert lines[1..][1..] == [""];
    assert Run(reader, client, c2, [""]) == c3;
  }

  lemma {:induction false} ReadFrames(reader: Reader, client: Client, encode: Response -> string, sent: seq<Response>,
      events: seq<Response>)
    requires IsCodec(encode, client, events)
    ensures Finish(Run(reader, client, Running(EMPTY, sent), FramesLines(encode, events)), false) ==
      DeliverAll(client, sent, events)
    decreases events
  {
    if events != [] {
      var head, tail := FrameLines(encode, events[0]), FramesLines(encode, events[1..]);
      RunAppend(reader, client, Running(EMPTY, sent), head, tail);
      ReadFrame(reader, client, encode, sent, events[0]);
      var c := Deliver(client, sent, events[0]);
      if c.Running? {
        ReadFrames(reader, client, encode, c.events, events[1..]);
      } else {
        RunKeepsEvents(reader, client, c, tail);
      }
    }
  }

  lemma {:induction false} FramesAreLines(client: Client, encode: Response -> string, events: seq<Response>)
    requires IsCodec(encode, client, events)
    ensures forall i :: 0 <= i < |FramesLines(encode, events)| ==> IsLine(FramesLines(encode, events)[i])
  {
    if events != [] {
      FramesAreLines(client, encode, events[1..]);
      assert events[0] in events;
      assert IsLine("event:message") && IsLine("");
    }
  }

  // Printed events are read back in order by all three readers, up to the first one the callback refuses or the
  // first terminal error, which is still delivered.
  lemma ReadBackPrinted(reader: Reader, client: Client, encode: Response -> string, events: seq<Response>)
    requires IsCodec(encode, client, events)
    ensures Receive(reader, client, PrintEvents(encode, events)) == DeliverAll(client, [], events)
  {
    var lines := FramesLines(encode, events);
    var stream := PrintEvents(encode, events);
    FramesAreLines(client, encode, events);
    ScanPrinted(lines, "");
    assert stream + "" == stream && lines + [] == lines;
    ReadFrames(reader, client, encode, [], events);
  }

  // What is delivered is the events up to and including the first at which delivery stops.
  predicate Stops(client: Client, sent: seq<Response>) {
    sent != [] &&
    var e := sent[|sent| - 1];
    !client.accepts(sent) || (e.responseType == "error" && e.done)
  }

  lemma {:induction false} DeliverAllPrefix(client: Client, sent: seq<Response>, events: seq<Response>)
    ensures var all := DeliverAll(client, sent, events).events;
      && sent <= all <= sent + events
      && (forall n :: |sent| < n < |all| ==> !Stops(client, all[..n]))
      && (|all| < |sent + events| ==> |all| > |sent| && Stops(client, all))
    decreases events
  {
    if events != [] {
      var grown := sent + [events[0]];
      var all := DeliverAll(client, sent, events).events;
      if !Stops(client, grown) {
        DeliverAllPrefix(client, grown, events[1..]);
        assert grown + events[1..] == sent + events;
        forall n | |sent| < n < |all| ensures !Stops(client, all[..n]) {
          if n == |grown| {
            assert all[..n] == grown;
          }
        }
      } else {
        assert all == grown;
        assert sent + events == grown + events[1..];
      }
    }
  }

  // ---------- The reader loops ----------

  method KnowledgeQAStream(client: Client, stream: string) returns (outcome: Outcome)
    ensures outcome == Receive(KnowledgeQA, client, stream)
  {
    var scan := ScanLines(stream);
    var lines := scan.lines;
    var dataBuffer, eventType, events := "", "", [];
    ghost var whole := Run(KnowledgeQA, client, Running(EMPTY, []), lines);
    assert lines[0..] == lines;
    for i := 0 to |lines|
      invariant Run(KnowledgeQA, client, Running(Buffers(dataBuffer, eventType), events), lines[i..]) == whole
    {
      var line := lines[i];
      assert lines[i..][1..] == lines[i + 1..];
      if line == "" {
        if dataBuffer != "" {
          var response := client.decode(dataBuffer);
          if response.None? {
            RunKeepsEvents(KnowledgeQA, client, Stopped(events, ParseFailed), lines[i + 1..]);
            return Outcome(events, ParseFailed);
          }
          events := events + [response.value];
          if !client.accepts(events) {
            RunKeepsEvents(KnowledgeQA, client, Stopped(events, CallbackFailed), lines[i + 1..]);
            return Outcome(events, CallbackFailed);
          }
          if response.value.responseType == "error" && response.value.done {
            var status := TerminalError(response.value.content);
            RunKeepsEvents(KnowledgeQA, client, Stopped(events, status), lines[i + 1..]);
            return Outcome(events, status);
          }
          dataBuffer := "";
          eventType := "";
        }
        continue;
      }
      if HasPrefix(line, "event:") {
        assert line[0] == 'e';
        eventType := line[6..];
      }
      if HasPrefix(line, "data:") {
        dataBuffer := line[5..];
      }
    }
    return Outcome(events, if scan.tooLong then LineTooLong else Completed);
  }

  method ContinueStream(client: Client, stream: string) returns (outcome: Outcome)
    ensures outcome == Receive(Continue, client, stream)
  {
    var scan := ScanLines(stream);
    var lines := scan.lines;
    var dataBuffer, eventType, events := "", "", [];
    ghost var whole := Run(Continue, client, Running(EMPTY, []), lines);
    assert lines[0..] == lines;
    for i := 0 to |lines|
      invariant Run(Continue, client, Running(Buffers(dataBuffer, eventType), events), lines[i..]) == whole
    {
      var line := lines[i];
      assert lines[i..][1..] == lines[i + 1..];
      if line == "" {
        if dataBuffer != "" && eventType == "message" {
          var response := client.decode(dataBuffer);
          if response.None? {
            RunKeepsEvents(Continue, client, Stopped(events, ParseFailed), lines[i + 1..]);
            return Outcome(events, ParseFailed);
          }
          events := events + [response.value];
          if !client.accepts(events) {
            RunKeepsEvents(Continue, client, Stopped(events, CallbackFailed), lines[i + 1..]);
            return Outcome(events, CallbackFailed);
          }
          if response.value.responseType == "error" && response.value.done {
            var status := TerminalError(response.value.content);
            RunKeepsEvents(Continue, client, Stopped(events, status), lines[i + 1..]);
            return Outcome(events, status);
          }
          dataBuffer := "";
          eventType := "";
        }
        continue;
      }
      if HasPrefix(line, "event:") {
        assert line[0] == 'e';
        eventType := line[6..];
      }
      if HasPrefix(line, "data:") {
        dataBuffer := line[5..];
      }
    }
    return Outcome(events, if scan.tooLong then LineTooLong else Completed);
  }

  method ProcessAgentSSEStream(client: Client, stream: string) returns (outcome: Outcome)
    ensures outcome == Receive(Agent, client, stream)
  {
    var scan := ScanLines(stream);
    var lines := scan.lines;
    var dataBuffer, events := "", [];
    ghost var whole := Run(Agent, client, Running(EMPTY, []), lines);
    assert lines[0..] == lines;
    for i := 0 to |lines|
      invariant Run(Agent, client, Running(Buffers(dataBuffer, ""), events), lines[i..]) == whole
    {
      var line := lines[i];
      assert lines[i..][1..] == lines[i + 1..];
      if line == "" {
        if dataBuffer != "" {
          var response := client.decode(dataBuffer);
          if response.None? {
            RunKeepsEvents(Agent, client, Stopped(events, ParseFailed), lines[i + 1..]);
            return Outcome(events, ParseFailed);
          }
          events := events + [response.value];
          if !client.accepts(events) {
            RunKeepsEvents(Agent, client, Stopped(events, CallbackFailed), lines[i + 1..]);
            return Outcome(events, CallbackFailed);
          }
          if response.value.responseType == "error" && response.value.done {
            var status := TerminalError(response.value.content);
            RunKeepsEvents(Agent, client, Stopped(events, status), lines[i + 1..]);
            return Outcome(events, status);
          }
          dataBuffer := "";
        }
        continue;
      }
      if HasPrefix(line, "event:") {
        continue;
      }
      if HasPrefix(line, "data:") {
        dataBuffer := Strip(line[5..], GO_SPACE);
      }
    }
    return Outcome(events, if scan.tooLong then LineTooLong else Completed);
  }
}
