/** The client's presenter (SC_ClientPresenter): the console input loop
    that turns lines into frames, the interpretation of the frames the
    server sends, and the two command sets (local and remote). The console,
    the audio bell and the threads are modelled by the session state. */
module ClientPresenter {
  import opened Wrappers
  import opened JavaString
  import opened Wire

  /** A message shown to the user: the sender label and the text. */
  datatype Shown = Shown(sender: string, message: string)

  /** The client as both of its threads see it: the frames written to the
      server, the messages shown, the interrupt flags of the socket-reading
      thread and of the console thread, and whether the socket is closed. */
  datatype Session = Session(
    sent: seq<string>,
    shown: seq<Shown>,
    inputStopped: bool,
    outputStopped: bool,
    closed: bool)

  /** The separator of `split(" ", 2)`. */
  predicate IsSpace(c: char) { c == ' ' }

  /** The command word and arguments of a client-side command line. */
  datatype Words = Words(command: string, arguments: string)

  function SplitWords(input: string): (r: Words)
    ensures ' ' !in input ==> r == Words(input, "")
    ensures ' ' in input ==> input == r.command + " " + r.arguments && ' ' !in r.command
  {
    var parts := SplitOnce(input, IsSpace);
    if |parts| == 1 then Words(parts[0], "")
    else
      assert forall i | 0 <= i < |parts[0]| :: parts[0][i] == input[i];
      assert [input[|parts[0]|]] == " ";
      Words(parts[0], parts[1])
  }

  /** `sendQuery` from the console thread: a frame written to a closed
      socket fails, and the failure raises the console thread's flag. */
  function Send(st: Session, frame: string): (r: Session)
    ensures !st.closed ==> r == st.(sent := st.sent + [frame])
    ensures st.closed ==> r == st.(outputStopped := true)
  {
    if st.closed then st.(outputStopped := true) else st.(sent := st.sent + [frame])
  }

  /** The response of `readRemoteCommand` and whether it was a kick. */
  datatype Remote = Remote(text: string, kicked: bool)

  /** `readRemoteCommand`: "/kick reason" (the word compared ignoring case)
      stops both threads and reports the reason; anything else is not
      interpreted. */
  function ReadRemoteCommand(input: string): (r: Remote)
    ensures r.kicked <==> EqualsIgnoreCase(SplitWords(input).command, "/kick")
    ensures r.kicked ==> r.text == "Kicked from server: " + SplitWords(input).arguments
    ensures !r.kicked ==> r.text == "Command not interpreted on client"
  {
    var w := SplitWords(input);
    if EqualsIgnoreCase(w.command, "/kick") then Remote("Kicked from server: " + w.arguments, true)
    else Remote("Command not interpreted on client", false)
  }

  /** The kick the server sends with a reason is understood by the client
      as a kick with that reason. */
  lemma KickUnderstood(reason: string)
    ensures ReadRemoteCommand("/kick " + reason) == Remote("Kicked from server: " + reason, true)
  {
    var input := "/kick " + reason;
    var w := SplitWords(input);
    assert input == w.command + " " + w.arguments;
    assert input[|w.command|] == ' ';
    assert forall k | 0 <= k < 5 :: input[k] != ' ';
    NoSpaceInPrefix(input, w.command);
    assert input[5] == ' ';
    assert |w.command| == 5;
    assert w.command == input[..5] == "/kick";
    assert w.arguments == input[6..];
  }

  lemma NoSpaceInPrefix(input: string, prefix: string)
    requires ' ' !in prefix && prefix <= input
    ensures forall k | 0 <= k < |prefix| :: input[k] != ' '
  {
    forall k | 0 <= k < |prefix| ensures input[k] != ' ' {
      assert input[k] == prefix[k];
    }
  }

  /** What reading a frame from the server did: the message shown (none
      for an illegal frame) and whether it was a kick. */
  datatype Inbound = Inbound(shown: Option<Shown>, kicked: bool)

  /** The client's `readQuery(query)` for one trimmed frame: an illegal
      frame is ignored; a command payload is interpreted and its response
      shown; any other payload is shown under the sender label. */
  function ReadQuery(query: string): (r: Inbound)
    ensures !ClientAccepts(ClientFields(query)) ==> r == Inbound(None, false)
    ensures ClientAccepts(ClientFields(query)) ==>
              var f := ClientFields(query);
              && r.shown.Some? && r.shown.value.sender == f[2]
              && (!IsCommand(f[3]) ==> r == Inbound(Some(Shown(f[2], f[3])), false))
              && (IsCommand(f[3]) ==> r.kicked == ReadRemoteCommand(f[3]).kicked
                                      && r.shown.value.message == ReadRemoteCommand(f[3]).text)
  {
    var f := ClientFields(query);
    if !ClientAccepts(f) then Inbound(None, false)
    else if IsCommand(f[3]) then
      var remote := ReadRemoteCommand(f[3]);
      Inbound(Some(Shown(f[2], remote.text)), remote.kicked)
    else Inbound(Some(Shown(f[2], f[3])), false)
  }

  /** A frame the server builds for a plain message reaches the user as
      that message under that sender label. */
  lemma {:induction false} MessageShown(sender: string, m: string)
    requires US !in sender && EOT !in sender
    requires |m| > 0 && US !in m && EOT !in m && !IsTrimmable(m[|m| - 1]) && !IsCommand(m)
    ensures ReadQuery(Trim(RecvBody(sender, m))) == Inbound(Some(Shown(sender, m)), false)
  {
    RecvRoundTrip(sender, m);
  }

  /** The kick frame the server sends is shown with its reason and stops
      the client. */
  lemma {:induction false} KickShown(sender: string, reason: string)
    requires US !in sender && EOT !in sender
    requires |reason| > 0 && US !in reason && EOT !in reason && !IsTrimmable(reason[|reason| - 1])
    ensures ReadQuery(Trim(RecvBody(sender, "/kick " + reason)))
              == Inbound(Some(Shown(sender, "Kicked from server: " + reason)), true)
  {
    var m := "/kick " + reason;
    assert US !in m && EOT !in m && m[|m| - 1] == reason[|reason| - 1];
    RecvRoundTrip(sender, m);
    MatchesSlashesIff(m);
    KickUnderstood(reason);
  }

  /** `readLocalCommand`: "/disconnect reason" (the word compared ignoring
      case) sends the farewell frame and stops both threads; any other
      command is left for the server (the source's `null`). */
  function ReadLocalCommand(st: Session, input: string): (r: Option<Session>)
    ensures r.Some? <==> EqualsIgnoreCase(SplitWords(input).command, "/disconnect")
    ensures r.Some? ==>
              var told := Send(st, SendFrame("/disconnect " + SplitWords(input).arguments));
              r.value == told.(inputStopped := true, outputStopped := true)
  {
    var w := SplitWords(input);
    if EqualsIgnoreCase(w.command, "/disconnect") then
      var told := Send(st, SendFrame("/disconnect " + w.arguments));
      Some(told.(inputStopped := true, outputStopped := true))
    else None
  }

  /** Lines 177-201 of `run`, over the lines the user types: while neither
      thread is interrupted, an empty line is refused; a non-empty line is
      first offered to the local commands and then sent as a frame in every
      case, a handled "/disconnect" included (the labelled break leaves only
      the `if`). */
  function Interact(st: Session, lines: seq<string>): (r: Session)
    ensures |st.sent| <= |r.sent| && r.sent[..|st.sent|] == st.sent
    ensures r.shown == st.shown && r.closed == st.closed
    ensures st.inputStopped || st.outputStopped ==> r == st
    decreases |lines|
  {
    if |lines| == 0 || st.inputStopped || st.outputStopped then st
    else
      var line := lines[0];
      if line == "" then Interact(st, lines[1..])
      else
        var handled := if IsCommand(line) then ReadLocalCommand(st, line) else None;
        var before := if handled.Some? then handled.value else st;
        Interact(Send(before, SendFrame(line)), lines[1..])
  }

  /** The frames one line produces when the loop takes it. */
  function FramesOf(line: string): (r: seq<string>)
    ensures line == "" ==> r == []
    ensures |r| <= 2
  {
    if line == "" then []
    else if IsCommand(line) && EqualsIgnoreCase(SplitWords(line).command, "/disconnect") then
      [SendFrame("/disconnect " + SplitWords(line).arguments), SendFrame(line)]
    else [SendFrame(line)]
  }

  /** Whether taking the line ends the loop. */
  predicate Farewell(line: string) {
    line != "" && IsCommand(line) && EqualsIgnoreCase(SplitWords(line).command, "/disconnect")
  }

  /** The frames the loop sends for a series of lines on an open socket:
      every line up to and including the first farewell contributes its
      frames, and nothing after the farewell is sent. */
  function Expected(lines: seq<string>): seq<string>
    decreases |lines|
  {
    if |lines| == 0 then []
    else if Farewell(lines[0]) then FramesOf(lines[0])
    else FramesOf(lines[0]) + Expected(lines[1..])
  }

  /** On an open socket with both threads running, the loop sends exactly
      the expected frames: none for empty lines, one per other line, and for
      the first "/disconnect" the farewell frame followed by the line's own
      frame, after which the loop stops. */
  lemma {:induction false} InteractSends(st: Session, lines: seq<string>)
    requires !st.closed && !st.inputStopped && !st.outputStopped
    ensures Interact(st, lines).sent == st.sent + Expected(lines)
    ensures (exists i | 0 <= i < |lines| :: Farewell(lines[i])) ==>
              Interact(st, lines).inputStopped && Interact(st, lines).outputStopped
    decreases |lines|
  {
    if |lines| > 0 {
      if Farewell(lines[0]) {
        InteractFarewell(st, lines);
      } else if lines[0] == "" {
        InteractSkip(st, lines);
        InteractSends(st, lines[1..]);
        FarewellLater(lines);
      } else {
        var f := SendFrame(lines[0]);
        InteractPlain(st, lines);
        InteractSends(Send(st, f), lines[1..]);
        assert st.sent + ([f] + Expected(lines[1..])) == (st.sent + [f]) + Expected(lines[1..]);
        FarewellLater(lines);
      }
    }
  }

  /** A farewell line sends the farewell frame and its own, and stops the
      loop. */
  lemma InteractFarewell(st: Session, lines: seq<string>)
    requires !st.closed && !st.inputStopped && !st.outputStopped
    requires |lines| > 0 && Farewell(lines[0])
    ensures Interact(st, lines).sent == st.sent + Expected(lines)
    ensures Interact(st, lines).inputStopped && Interact(st, lines).outputStopped
  {
    var line := lines[0];
    var bye := SendFrame("/disconnect " + SplitWords(line).arguments);
    var stopped := Send(st, bye).(inputStopped := true, outputStopped := true);
    assert Interact(st, lines) == Send(stopped, SendFrame(line));
    assert Expected(lines) == [bye, SendFrame(line)];
  }

  /** An empty line is refused: nothing is sent and the loop goes on. */
  lemma InteractSkip(st: Session, lines: seq<string>)
    requires !st.inputStopped && !st.outputStopped
    requires |lines| > 0 && lines[0] == ""
    ensures Interact(st, lines) == Interact(st, lines[1..])
    ensures Expected(lines) == Expected(lines[1..])
  {
    assert FramesOf(lines[0]) == [];
  }

  /** Any other line sends its own frame and the loop goes on. */
  lemma InteractPlain(st: Session, lines: seq<string>)
    requires !st.closed && !st.inputStopped && !st.outputStopped
    requires |lines| > 0 && lines[0] != "" && !Farewell(lines[0])
    ensures Interact(st, lines) == Interact(Send(st, SendFrame(lines[0])), lines[1..])
    ensures Expected(lines) == [SendFrame(lines[0])] + Expected(lines[1..])
  {
    var line := lines[0];
    var handled := if IsCommand(line) then ReadLocalCommand(st, line) else None;
    assert handled.None?;
  }

  lemma FarewellLater(lines: seq<string>)
    requires |lines| > 0 && !Farewell(lines[0])
    ensures (exists i | 0 <= i < |lines| :: Farewell(lines[i])) ==>
              exists i | 0 <= i < |lines[1..]| :: Farewell(lines[1..][i])
  {
    if exists i | 0 <= i < |lines| :: Farewell(lines[i]) {
      var i :| 0 <= i < |lines| && Farewell(lines[i]);
      assert lines[1..][i - 1] == lines[i];
    }
  }

  /** No frame is ever sent for an empty line: every frame the loop sends
      carries a non-empty line or the farewell; and the loop sends something
      exactly when some line is not empty. */
  lemma {:induction false} ExpectedNonEmpty(lines: seq<string>)
    ensures forall f | f in Expected(lines) ::
              exists l | l in lines && l != "" :: f == SendFrame(l)
                                                 || f == SendFrame("/disconnect " + SplitWords(l).arguments)
    ensures |Expected(lines)| > 0 <==> exists i | 0 <= i < |lines| :: lines[i] != ""
    decreases |lines|
  {
    if |lines| > 0 {
      ExpectedNonEmpty(lines[1..]);
      if lines[0] == "" {
        assert Expected(lines) == Expected(lines[1..]);
        if exists i | 0 <= i < |lines| :: lines[i] != "" {
          var i :| 0 <= i < |lines| && lines[i] != "";
          assert lines[1..][i - 1] == lines[i];
        }
        if exists i | 0 <= i < |lines[1..]| :: lines[1..][i] != "" {
          var i :| 0 <= i < |lines[1..]| && lines[1..][i] != "";
          assert lines[i + 1] == lines[1..][i];
        }
      } else {
        assert SendFrame(lines[0]) in FramesOf(lines[0]);
      }
    }
  }

  /** No line before the `i`-th ends the loop. */
  predicate NoFarewellBefore(lines: seq<string>, i: int)
    requires 0 <= i <= |lines|
  {
    forall j | 0 <= j < i :: !Farewell(lines[j])
  }

  /** Every non-empty line that the loop reaches, up to and including the
      first "/disconnect", is sent as a frame of its own. */
  lemma {:induction false} EveryLineSent(lines: seq<string>, i: nat)
    requires i < |lines| && lines[i] != "" && NoFarewellBefore(lines, i)
    ensures SendFrame(lines[i]) in Expected(lines)
    decreases i
  {
    if i == 0 {
      assert SendFrame(lines[0]) in FramesOf(lines[0]);
    } else {
      assert !Farewell(lines[0]);
      assert lines[1..][i - 1] == lines[i];
      assert NoFarewellBefore(lines[1..], i - 1) by {
        forall j | 0 <= j < i - 1 ensures !Farewell(lines[1..][j]) {
          assert lines[1..][j] == lines[j + 1];
        }
      }
      EveryLineSent(lines[1..], i - 1);
    }
  }
}
