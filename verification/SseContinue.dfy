// ContinueStream against KnowledgeQAStream (client/session.go): when the first does what the second does on the
// stream without the frames that are not messages.
module SseContinue {
  import opened Wrappers
  import opened SseStream
  import opened SseReaders

  // ---------- Frames ----------

  // The lines closed by empty lines, frame by frame, and the lines after the last empty one.
  datatype Framed = Framed(frames: seq<seq<string>>, rest: seq<string>)

  function Frames(lines: seq<string>): Framed {
    if lines == [] then Framed([], []) else WithLine(lines[0], Frames(lines[1..]))
  }

  function WithLine(line: string, later: Framed): Framed {
    if line == "" then Framed([[]] + later.frames, later.rest)
    else if later.frames == [] then Framed([], [line] + later.rest)
    else Framed([[line] + later.frames[0]] + later.frames[1..], later.rest)
  }

  // The lines of frames, each closed by an empty line.
  function Unframe(frames: seq<seq<string>>): seq<string> {
    if frames == [] then [] else frames[0] + [""] + Unframe(frames[1..])
  }

  predicate AreBodies(frames: seq<seq<string>>) {
    forall i :: 0 <= i < |frames| ==> "" !in frames[i]
  }

  lemma UnframeCons(body: seq<string>, frames: seq<seq<string>>)
    ensures Unframe([body] + frames) == body + [""] + Unframe(frames)
  {
    assert ([body] + frames)[1..] == frames;
  }

  lemma WithLineUnframe(line: string, later: Framed)
    ensures var framed := WithLine(line, later);
      Unframe(framed.frames) + framed.rest == [line] + (Unframe(later.frames) + later.rest)
  {
    if line == "" {
      UnframeCons([], later.frames);
    } else if later.frames != [] {
      UnframeCons([line] + later.frames[0], later.frames[1..]);
    }
  }

  lemma WithLineBodies(line: string, later: Framed)
    requires AreBodies(later.frames) && "" !in later.rest
    ensures var framed := WithLine(line, later); AreBodies(framed.frames) && "" !in framed.rest
  {
  }

  lemma {:induction false} FramesUnframe(lines: seq<string>)
    ensures var framed := Frames(lines);
      Unframe(framed.frames) + framed.rest == lines && AreBodies(framed.frames) && "" !in framed.rest
  {
    if lines != [] {
      FramesUnframe(lines[1..]);
      WithLineUnframe(lines[0], Frames(lines[1..]));
      WithLineBodies(lines[0], Frames(lines[1..]));
    }
  }

  lemma {:induction false} RestFrames(rest: seq<string>)
    requires "" !in rest
    ensures Frames(rest) == Framed([], rest)
  {
    if rest != [] {
      assert rest[0] in rest;
      RestFrames(rest[1..]);
      assert [rest[0]] + rest[1..] == rest;
    }
  }

  lemma WithLineFirst(line: string, body: seq<string>, later: Framed)
    requires line != ""
    ensures WithLine(line, Framed([body] + later.frames, later.rest)) ==
            Framed([[line] + body] + later.frames, later.rest)
  {
    assert ([body] + later.frames)[1..] == later.frames;
  }

  lemma {:induction false} BodyFrames(body: seq<string>, lines: seq<string>)
    requires "" !in body
    ensures Frames(body + ([""] + lines)) == Framed([body] + Frames(lines).frames, Frames(lines).rest)
  {
    var all := body + ([""] + lines);
    if body == [] {
      assert all[0] == "" && all[1..] == lines;
    } else {
      assert body[0] in body && all[1..] == body[1..] + ([""] + lines);
      BodyFrames(body[1..], lines);
      WithLineFirst(body[0], body[1..], Frames(lines));
      assert [body[0]] + body[1..] == body;
    }
  }

  lemma {:induction false} UnframeFrames(frames: seq<seq<string>>, rest: seq<string>)
    requires AreBodies(frames) && "" !in rest
    ensures Frames(Unframe(frames) + rest) == Framed(frames, rest)
  {
    if frames == [] {
      assert Unframe(frames) + rest == rest;
      RestFrames(rest);
    } else {
      UnframeFrames(frames[1..], rest);
      BodyFrames(frames[0], Unframe(frames[1..]) + rest);
      assert Unframe(frames) + rest == frames[0] + ([""] + (Unframe(frames[1..]) + rest));
      assert [frames[0]] + frames[1..] == frames;
    }
  }

  // What the lines of a frame leave in the buffers of either session reader.
  function Fields(b: Buffers, body: seq<string>): Buffers
    decreases body
  {
    if body == [] then b else Fields(Field(Continue, b, body[0]), body[1..])
  }

  predicate HasField(body: seq<string>, prefix: string) {
    body != [] && (HasPrefix(body[0], prefix) || HasField(body[1..], prefix))
  }

  predicate IsMessage(body: seq<string>) {
    Fields(EMPTY, body).eventType == "message"
  }

  function Messages(frames: seq<seq<string>>): seq<seq<string>> {
    if frames == [] then []
    else (if IsMessage(frames[0]) then [frames[0]] else []) + Messages(frames[1..])
  }

  lemma {:induction false} FieldsOverwrite(b: Buffers, body: seq<string>)
    ensures Fields(b, body).data == if HasField(body, "data:") then Fields(EMPTY, body).data else b.data
    ensures Fields(b, body).eventType ==
      if HasField(body, "event:") then Fields(EMPTY, body).eventType else b.eventType
    decreases body
  {
    if body != [] {
      assert !(HasPrefix(body[0], "event:") && HasPrefix(body[0], "data:")) by {
        if HasPrefix(body[0], "event:") {
          assert body[0][0] == 'e';
        }
      }
      FieldsOverwrite(Field(Continue, b, body[0]), body[1..]);
      FieldsOverwrite(Field(Continue, EMPTY, body[0]), body[1..]);
    }
  }

  // ---------- When the readers agree ----------

  // ContinueStream's buffers after a frame.
  function After(b: Buffers): Buffers {
    if Ready(Continue, b) then EMPTY else b
  }

  // A message frame ends with its own data, a frame of another type completes no event.
  predicate FrameAgrees(b: Buffers, body: seq<string>) {
    if IsMessage(body) then Fields(b, body).data == Fields(EMPTY, body).data else !Ready(Continue, Fields(b, body))
  }

  // That, frame after frame, with what ContinueStream has in its buffers.
  predicate Agrees(b: Buffers, frames: seq<seq<string>>)
    decreases frames
  {
    frames == [] || (FrameAgrees(b, frames[0]) && Agrees(After(Fields(b, frames[0])), frames[1..]))
  }

  // The lines between two empty lines: none at all, or with an event line and a data line among them.
  predicate IsFrame(body: seq<string>) {
    "" !in body && (body == [] || (HasField(body, "event:") && HasField(body, "data:")))
  }

  predicate AreFrames(frames: seq<seq<string>>) {
    forall i :: 0 <= i < |frames| ==> IsFrame(frames[i])
  }

  lemma {:induction false} OwnFramesAgree(b: Buffers, frames: seq<seq<string>>)
    requires !Ready(Continue, b) && AreFrames(frames)
    ensures Agrees(b, frames)
    decreases frames
  {
    if frames != [] {
      assert IsFrame(frames[0]);
      FieldsOverwrite(b, frames[0]);
      OwnFramesAgree(After(Fields(b, frames[0])), frames[1..]);
    }
  }

  // ---------- Agreeing readers ----------

  lemma {:induction false} RunFields(reader: Reader, client: Client, b: Buffers, events: seq<Response>,
      body: seq<string>)
    requires "" !in body && !reader.Agent?
    ensures Run(reader, client, Running(b, events), body) == Running(Fields(b, body), events)
    decreases body
  {
    if body != [] {
      assert body[0] in body;
      RunFields(reader, client, Field(Continue, b, body[0]), events, body[1..]);
    }
  }

  lemma RunFrame(reader: Reader, client: Client, b: Buffers, events: seq<Response>, body: seq<string>,
      after: seq<string>)
    requires "" !in body && !reader.Agent?
    ensures Run(reader, client, Running(b, events), body + [""] + after) ==
      Run(reader, client, Next(reader, client, Running(Fields(b, body), events), ""), after)
  {
    RunAppend(reader, client, Running(b, events), body + [""], after);
    RunAppend(reader, client, Running(b, events), body, [""]);
    RunFields(reader, client, b, events, body);
    RunOne(reader, client, Running(Fields(b, body), events), "");
  }

  // Two runs that agree on everything but what is in the buffers; KnowledgeQAStream's data buffer is empty between
  // frames.
  predicate SameSoFar(c: Config, k: Config) {
    if c.Running? then k.Running? && c.events == k.events && k.b.data == "" else c == k
  }

  // One frame: ContinueStream either treats it as KnowledgeQAStream does, or passes over it.
  lemma FrameStep(client: Client, c: Config, k: Config, body: seq<string>)
    returns (d: Config, e: Config)
    requires c.Running? && SameSoFar(c, k) && FrameAgrees(c.b, body) && "" !in body
    ensures d == Next(Continue, client, Running(Fields(c.b, body), c.events), "")
    ensures e == if IsMessage(body) then Next(KnowledgeQA, client, Running(Fields(k.b, body), k.events), "") else k
    ensures SameSoFar(d, e) && (d.Running? ==> d.b == After(Fields(c.b, body)))
  {
    d := Next(Continue, client, Running(Fields(c.b, body), c.events), "");
    e := if IsMessage(body) then Next(KnowledgeQA, client, Running(Fields(k.b, body), k.events), "") else k;
    FieldsOverwrite(c.b, body);
    FieldsOverwrite(k.b, body);
    FieldsOverwrite(EMPTY, body);
  }

  lemma UnframeFirst(frames: seq<seq<string>>)
    requires frames != []
    ensures Unframe(frames) == frames[0] + [""] + Unframe(frames[1..])
    ensures Unframe(Messages(frames)) ==
      if IsMessage(frames[0]) then frames[0] + [""] + Unframe(Messages(frames[1..])) else Unframe(Messages(frames[1..]))
  {
    var later := Messages(frames[1..]);
    if IsMessage(frames[0]) {
      assert ([frames[0]] + later)[1..] == later;
    } else {
      assert [] + later == later;
    }
  }

  lemma {:induction false} FramesStep(client: Client, c: Config, k: Config, frames: seq<seq<string>>)
    requires AreBodies(frames) && SameSoFar(c, k) && (c.Running? ==> Agrees(c.b, frames))
    ensures SameSoFar(Run(Continue, client, c, Unframe(frames)), Run(KnowledgeQA, client, k, Unframe(Messages(frames))))
    decreases frames
  {
    if c.Stopped? {
      RunKeepsEvents(Continue, client, c, Unframe(frames));
      RunKeepsEvents(KnowledgeQA, client, k, Unframe(Messages(frames)));
    } else if frames != [] {
      var body, later := frames[0], frames[1..];
      assert "" !in body && AreBodies(later);
      UnframeFirst(frames);
      var d, e := FrameStep(client, c, k, body);
      RunFrame(Continue, client, c.b, c.events, body, Unframe(later));
      RunFrame(KnowledgeQA, client, k.b, k.events, body, Unframe(Messages(later)));
      FramesStep(client, d, e, later);
    }
  }

  lemma RestAgrees(client: Client, c: Config, k: Config, rest: seq<string>, tooLong: bool)
    requires SameSoFar(c, k) && "" !in rest
    ensures Finish(Run(Continue, client, c, rest), tooLong) == Finish(Run(KnowledgeQA, client, k, rest), tooLong)
  {
    if c.Running? {
      RunFields(Continue, client, c.b, c.events, rest);
      RunFields(KnowledgeQA, client, k.b, k.events, rest);
    } else {
      RunKeepsEvents(Continue, client, c, rest);
      RunKeepsEvents(KnowledgeQA, client, k, rest);
    }
  }

  // ---------- The stream without the other frames ----------

  // A line that the scanner can deliver.
  predicate Scannable(line: string) {
    '\n' !in line && |Restored(line)| < 4 * 1024 * 1024
  }

  // A line that ends in a carriage return needs another one in front of the line feed.
  function Restored(line: string): string {
    if line != "" && line[|line| - 1] == '\r' then line + "\r" else line
  }

  function Overlong(): (s: string)
    ensures '\n' !in s && |s| == 4 * 1024 * 1024
  {
    seq(4 * 1024 * 1024, _ => 'x')
  }

  // A stream with these lines, and if asked for a line that is too long.
  function Print(scan: Scan): string
    decreases |scan.lines|
  {
    if scan.lines == [] then (if scan.tooLong then Overlong() else "")
    else Restored(scan.lines[0]) + "\n" + Print(Scan(scan.lines[1..], scan.tooLong))
  }

  lemma ScanRestored(line: string, rest: string)
    requires Scannable(line)
    ensures ScanLines(Restored(line) + "\n" + rest) == Prepend([line], ScanLines(rest))
  {
    var raw := Restored(line);
    var s := raw + "\n" + rest;
    assert '\n' !in raw;
    LineLengthOf(raw, rest);
    assert s[..|raw|] == raw && s[|raw| + 1..] == rest;
    assert DropCr(raw) == line;
  }

  lemma OverlongLine()
    ensures ScanLines(Overlong()) == Scan([], true)
  {
    LineLengthOf(Overlong(), "");
  }

  predicate AllScannable(lines: seq<string>) {
    forall i :: 0 <= i < |lines| ==> Scannable(lines[i])
  }

  lemma {:induction false} ScanPrint(scan: Scan)
    requires AllScannable(scan.lines)
    ensures ScanLines(Print(scan)) == scan
    decreases |scan.lines|
  {
    hide Restored, Scannable;
    if scan.lines == [] {
      OverlongLine();
    } else {
      var later := Scan(scan.lines[1..], scan.tooLong);
      var printed := Print(later);
      ScanPrint(later);
      assert Print(scan) == Restored(scan.lines[0]) + "\n" + printed;
      ScanRestored(scan.lines[0], printed);
      assert [scan.lines[0]] + scan.lines[1..] == scan.lines;
    }
  }

  lemma DroppedScannable(raw: string)
    requires '\n' !in raw && |raw| < 4 * 1024 * 1024
    ensures Scannable(DropCr(raw))
  {
  }

  lemma {:induction false} ScanScannable(s: string)
    ensures forall i :: 0 <= i < |ScanLines(s).lines| ==> Scannable(ScanLines(s).lines[i])
    decreases |s|
  {
    var n := LineLength(s);
    if s != "" && n < 4 * 1024 * 1024 {
      LineLengthClean(s);
      DroppedScannable(s[..n]);
      if n == |s| {
        assert s[..n] == s;
      } else {
        ScanScannable(s[n + 1..]);
      }
    }
  }

  lemma {:induction false} UnframeScannable(frames: seq<seq<string>>, rest: seq<string>)
    requires forall line :: line in Unframe(frames) + rest ==> Scannable(line)
    ensures forall line :: line in Unframe(Messages(frames)) + rest ==> Scannable(line)
  {
    if frames != [] {
      UnframeFirst(frames);
      forall line | line in Unframe(frames[1..]) + rest ensures Scannable(line) {
        assert line in Unframe(frames) + rest;
      }
      UnframeScannable(frames[1..], rest);
      forall line | line in Unframe(Messages(frames)) + rest ensures Scannable(line) {
        if line !in Unframe(Messages(frames[1..])) + rest {
          assert line in Unframe(frames) + rest;
        }
      }
    }
  }

  // The stream without the frames that are not messages.
  function Filtered(stream: string): string {
    var scan := ScanLines(stream);
    var framed := Frames(scan.lines);
    Print(Scan(Unframe(Messages(framed.frames)) + framed.rest, scan.tooLong))
  }

  lemma ScanFiltered(stream: string)
    ensures var scan := ScanLines(stream);
      var framed := Frames(scan.lines);
      ScanLines(Filtered(stream)) == Scan(Unframe(Messages(framed.frames)) + framed.rest, scan.tooLong)
  {
    var lines := ScanLines(stream).lines;
    var framed := Frames(lines);
    FramesUnframe(lines);
    ScanScannable(stream);
    UnframeScannable(framed.frames, framed.rest);
    ScanPrint(Scan(Unframe(Messages(framed.frames)) + framed.rest, ScanLines(stream).tooLong));
  }

  // ---------- Exactly when ----------

  // A client that takes everything: the data is the event.
  function Echo(): Client {
    Client(data => Some(Response("answer", data, false, "")), _ => true)
  }

  // How many events ContinueStream completes.
  function Completions(b: Buffers, frames: seq<seq<string>>): nat
    decreases frames
  {
    if frames == [] then 0
    else
      var full := Fields(b, frames[0]);
      (if Ready(Continue, full) then 1 else 0) + Completions(After(full), frames[1..])
  }

  // How many message frames have data of their own.
  function OwnMessages(frames: seq<seq<string>>): nat {
    if frames == [] then 0
    else (if IsMessage(frames[0]) && Fields(EMPTY, frames[0]).data != "" then 1 else 0) + OwnMessages(frames[1..])
  }

  // ContinueStream completes at least the message frames with data of their own, and just these exactly if it agrees.
  lemma {:induction false} CompletionsAgree(b: Buffers, frames: seq<seq<string>>)
    ensures Completions(b, frames) >= OwnMessages(frames)
    ensures Completions(b, frames) == OwnMessages(frames) <==> Agrees(b, frames)
    decreases frames
  {
    if frames != [] {
      FieldsOverwrite(b, frames[0]);
      FieldsOverwrite(EMPTY, frames[0]);
      CompletionsAgree(After(Fields(b, frames[0])), frames[1..]);
    }
  }

  lemma EchoNext(reader: Reader, b: Buffers, events: seq<Response>)
    ensures Next(reader, Echo(), Running(b, events), "") ==
      if Ready(reader, b) then Running(EMPTY, events + [Response("answer", b.data, false, "")]) else Running(b, events)
  {
  }

  lemma {:induction false} EchoContinue(b: Buffers, events: seq<Response>, frames: seq<seq<string>>)
    requires AreBodies(frames)
    ensures var c := Run(Continue, Echo(), Running(b, events), Unframe(frames));
      c.Running? && |c.events| == |events| + Completions(b, frames)
    decreases frames
  {
    if frames != [] {
      var full := Fields(b, frames[0]);
      assert "" !in frames[0] && AreBodies(frames[1..]);
      UnframeFirst(frames);
      RunFrame(Continue, Echo(), b, events, frames[0], Unframe(frames[1..]));
      EchoNext(Continue, full, events);
      var more := if Ready(Continue, full) then events + [Response("answer", full.data, false, "")] else events;
      EchoContinue(After(full), more, frames[1..]);
    }
  }

  lemma {:induction false} EchoMessages(b: Buffers, events: seq<Response>, frames: seq<seq<string>>)
    requires AreBodies(frames) && b.data == ""
    ensures var k := Run(KnowledgeQA, Echo(), Running(b, events), Unframe(Messages(frames)));
      k.Running? && |k.events| == |events| + OwnMessages(frames)
    decreases frames
  {
    if frames != [] {
      var full := Fields(b, frames[0]);
      assert "" !in frames[0] && AreBodies(frames[1..]);
      UnframeFirst(frames);
      if IsMessage(frames[0]) {
        FieldsOverwrite(b, frames[0]);
        FieldsOverwrite(EMPTY, frames[0]);
        RunFrame(KnowledgeQA, Echo(), b, events, frames[0], Unframe(Messages(frames[1..])));
        EchoNext(KnowledgeQA, full, events);
        if full.data != "" {
          EchoMessages(EMPTY, events + [Response("answer", full.data, false, "")], frames[1..]);
        } else {
          EchoMessages(full, events, frames[1..]);
        }
      } else {
        EchoMessages(b, events, frames[1..]);
      }
    }
  }

  lemma RestKeepsEvents(reader: Reader, client: Client, c: Config, rest: seq<string>)
    requires c.Running? && "" !in rest && !reader.Agent?
    ensures Run(reader, client, c, rest).events == c.events
  {
    RunFields(reader, client, c.b, c.events, rest);
  }

  lemma ReceiveFramed(reader: Reader, client: Client, stream: string, frames: seq<seq<string>>, rest: seq<string>)
    requires ScanLines(stream).lines == Unframe(frames) + rest
    ensures Receive(reader, client, stream) == Finish(
      Run(reader, client, Run(reader, client, Running(EMPTY, []), Unframe(frames)), rest), ScanLines(stream).tooLong)
  {
    RunAppend(reader, client, Running(EMPTY, []), Unframe(frames), rest);
  }

  // One client, two agreeing readers: the same events and the same end of the call.
  lemma AgreeingReaders(client: Client, stream: string)
    requires Agrees(EMPTY, Frames(ScanLines(stream).lines).frames)
    ensures Receive(Continue, client, stream) == Receive(KnowledgeQA, client, Filtered(stream))
  {
    var scan := ScanLines(stream);
    var framed := Frames(scan.lines);
    FramesUnframe(scan.lines);
    ScanFiltered(stream);
    ReceiveFramed(Continue, client, stream, framed.frames, framed.rest);
    ReceiveFramed(KnowledgeQA, client, Filtered(stream), Messages(framed.frames), framed.rest);
    var start := Running(EMPTY, []);
    FramesStep(client, start, start, framed.frames);
    RestAgrees(client, Run(Continue, client, start, Unframe(framed.frames)),
               Run(KnowledgeQA, client, start, Unframe(Messages(framed.frames))), framed.rest, scan.tooLong);
  }

  lemma EchoReaders(stream: string)
    ensures var frames := Frames(ScanLines(stream).lines).frames;
      && |Receive(Continue, Echo(), stream).events| == Completions(EMPTY, frames)
      && |Receive(KnowledgeQA, Echo(), Filtered(stream)).events| == OwnMessages(frames)
  {
    var scan := ScanLines(stream);
    var framed := Frames(scan.lines);
    FramesUnframe(scan.lines);
    ScanFiltered(stream);
    ReceiveFramed(Continue, Echo(), stream, framed.frames, framed.rest);
    ReceiveFramed(KnowledgeQA, Echo(), Filtered(stream), Messages(framed.frames), framed.rest);
    var start := Running(EMPTY, []);
    EchoContinue(EMPTY, [], framed.frames);
    EchoMessages(EMPTY, [], framed.frames);
    RestKeepsEvents(Continue, Echo(), Run(Continue, Echo(), start, Unframe(framed.frames)), framed.rest);
    RestKeepsEvents(KnowledgeQA, Echo(), Run(KnowledgeQA, Echo(), start, Unframe(Messages(framed.frames))),
                    framed.rest);
  }

  // ContinueStream does for every client what KnowledgeQAStream does on the stream without the frames that are not
  // messages, exactly if no stale data and no stale event type completes an event.
  lemma ContinueIsFilteredKnowledgeQA(stream: string)
    ensures (forall client :: Receive(Continue, client, stream) == Receive(KnowledgeQA, client, Filtered(stream))) <==>
            Agrees(EMPTY, Frames(ScanLines(stream).lines).frames)
  {
    var frames := Frames(ScanLines(stream).lines).frames;
    if Agrees(EMPTY, frames) {
      forall client ensures Receive(Continue, client, stream) == Receive(KnowledgeQA, client, Filtered(stream)) {
        AgreeingReaders(client, stream);
      }
    } else {
      EchoReaders(stream);
      CompletionsAgree(EMPTY, frames);
      assert Receive(Continue, Echo(), stream) != Receive(KnowledgeQA, Echo(), Filtered(stream));
    }
  }

  // So it does on every stream whose frames carry an event line and a data line of their own.
  lemma OwnFieldsSuffice(client: Client, stream: string)
    requires AreFrames(Frames(ScanLines(stream).lines).frames)
    ensures Receive(Continue, client, stream) == Receive(KnowledgeQA, client, Filtered(stream))
  {
    OwnFramesAgree(EMPTY, Frames(ScanLines(stream).lines).frames);
    AgreeingReaders(client, stream);
  }

  // Without a data line of its own a message frame gets the stale data of the frame passed over before it, whatever
  // payload the decoder accepts.
  lemma StaleData(client: Client, d: string)
    requires d != "" && IsLine("data:" + d) && client.decode(d).Some?
    ensures var stream := PrintLines(Unframe([["event:ping", "data:" + d], ["event:message"]]));
      && Receive(Continue, client, stream).events == [client.decode(d).value]
      && Receive(KnowledgeQA, client, Filtered(stream)).events == []
  {
    var ping, message := ["event:ping", "data:" + d], ["event:message"];
    var stream := PrintLines(Unframe([ping, message]));
    hide Fields, ScanLines, Run, Unframe, Filtered;
    StaleFields(d);
    StaleLines(ping, message);
    AllLines(ping, message);
    ScanAll(Unframe([ping, message]));
    StaleFrames(stream, ping, message);
    StaleRun(client, d, ping, message);
  }

  lemma StaleFrames(stream: string, ping: seq<string>, message: seq<string>)
    requires "" !in ping && "" !in message && ScanLines(stream) == Scan(Unframe([ping, message]), false)
    requires !IsMessage(ping) && IsMessage(message)
    ensures ScanLines(Filtered(stream)) == Scan(message + [""], false)
  {
    assert Unframe([ping, message]) + [] == Unframe([ping, message]);
    UnframeFrames([ping, message], []);
    ScanFiltered(stream);
    StaleMessages(ping, message);
    StaleLines(ping, message);
    assert message + [""] + [] == message + [""];
  }

  lemma AllLines(a: seq<string>, b: seq<string>)
    requires (forall i :: 0 <= i < |a| ==> IsLine(a[i])) && (forall i :: 0 <= i < |b| ==> IsLine(b[i]))
    ensures var lines := a + [""] + (b + [""]); forall i :: 0 <= i < |lines| ==> IsLine(lines[i])
  {
  }

  lemma StaleMessages(ping: seq<string>, message: seq<string>)
    requires !IsMessage(ping) && IsMessage(message)
    ensures Messages([ping, message]) == [message]
  {
    assert [ping, message][1..] == [message] && [message][1..] == [];
    assert Messages([message]) == [message];
  }

  lemma StaleRun(client: Client, d: string, ping: seq<string>, message: seq<string>)
    requires "" !in ping && "" !in message && d != "" && client.decode(d).Some?
    requires Fields(EMPTY, ping) == Buffers(d, "ping")
    requires Fields(Buffers(d, "ping"), message) == Buffers(d, "message")
    requires Fields(EMPTY, message) == Buffers("", "message")
    ensures Run(Continue, client, Running(EMPTY, []), ping + [""] + (message + [""])).events == [client.decode(d).value]
    ensures Run(KnowledgeQA, client, Running(EMPTY, []), message + [""]).events == []
  {
    assert message + [""] + [] == message + [""];
    RunFrame(Continue, client, EMPTY, [], ping, message + [""]);
    RunFrame(Continue, client, Buffers(d, "ping"), [], message, []);
    RunFrame(KnowledgeQA, client, EMPTY, [], message, []);
  }

  lemma StaleLines(ping: seq<string>, message: seq<string>)
    ensures Unframe([message]) == message + [""]
    ensures Unframe([ping, message]) == ping + [""] + (message + [""])
  {
    assert [ping, message][1..] == [message] && [message][1..] == [];
    assert Unframe([]) == [];
  }

  lemma FieldsOfTwo(b: Buffers, x: string, y: string)
    ensures Fields(b, [x]) == Field(Continue, b, x)
    ensures Fields(b, [x, y]) == Field(Continue, Field(Continue, b, x), y)
  {
    FieldsCons(b, x, []);
    FieldsCons(b, x, [y]);
    FieldsCons(Field(Continue, b, x), y, []);
    assert [x] + [] == [x] && [y] + [] == [y] && [x] + [y] == [x, y];
  }

  lemma FieldsCons(b: Buffers, x: string, rest: seq<string>)
    ensures Fields(b, [x] + rest) == Fields(Field(Continue, b, x), rest)
  {
    assert ([x] + rest)[1..] == rest;
  }

  lemma StaleFields(d: string)
    ensures Fields(EMPTY, ["event:ping", "data:" + d]) == Buffers(d, "ping")
    ensures Fields(Buffers(d, "ping"), ["event:message"]) == Buffers(d, "message")
    ensures Fields(EMPTY, ["event:message"]) == Buffers("", "message")
  {
    var line := "data:" + d;
    hide Fields;
    EventField(EMPTY, "ping");
    EventField(EMPTY, "message");
    EventField(Buffers(d, "ping"), "message");
    DataField(Buffers("", "ping"), d);
    assert "event:" + "ping" == "event:ping" && "event:" + "message" == "event:message";
    FieldsOfTwo(EMPTY, "event:ping", line);
    FieldsOfTwo(EMPTY, "event:message", "");
    FieldsOfTwo(Buffers(d, "ping"), "event:message", "");
  }

  lemma EventField(b: Buffers, name: string)
    ensures Field(Continue, b, "event:" + name) == b.(eventType := name)
  {
    assert ("event:" + name)[6..] == name;
  }

  lemma DataField(b: Buffers, d: string)
    ensures Field(Continue, b, "data:" + d) == b.(data := d)
  {
    var line := "data:" + d;
    assert line[5..] == d && line[0] == 'd';
  }

  lemma ScanAll(lines: seq<string>)
    requires forall i :: 0 <= i < |lines| ==> IsLine(lines[i])
    ensures ScanLines(PrintLines(lines)) == Scan(lines, false)
  {
    ScanPrinted(lines, "");
    assert PrintLines(lines) + "" == PrintLines(lines) && lines + [] == lines;
  }
}
