/** The text protocol shared by server and client: control characters, the
    signature, the two frame builders, the two frame validators and the rule
    that decides whether a payload is a command. */
module Wire {
  import opened JavaString

  /** Start of Heading: the lead-in of every frame. */
  const SOH: char := '\U{1}'
  /** Unit Separator: separates the fields of a frame. */
  const US: char := '\U{1F}'
  /** End of Transmission: terminates a frame. */
  const EOT: char := '\U{4}'
  /** The fixed eight-character protocol signature. */
  const SIGNATURE: string := "EDN_SC  "
  /** Direction token of client-to-server frames. */
  const SEND: string := "SEND"
  /** Direction token of server-to-client frames. */
  const RECV: string := "RECV"

  predicate IsUS(c: char) { c == US }
  predicate IsEOT(c: char) { c == EOT }

  /** `s.matches(".*US+.*|.*EOT+.*")`: the payload check of both validators. */
  predicate HasControl(s: string) {
    MatchesRun(s, IsUS) || MatchesRun(s, IsEOT)
  }

  /** `s.matches(".*US+.*|.*EOT+.*|.*\\s+.*")`: the name check of `setName`
      and `setAddress`. */
  predicate HasControlOrSpace(s: string) {
    HasControl(s) || MatchesRun(s, IsRegexSpace)
  }

  /** `isCommand`, identical on server and client: longer than one character,
      a leading slash, and not matching `/{2,}.*`. */
  predicate IsCommand(s: string) {
    |s| > 1 && s[0] == '/' && !MatchesSlashes(s)
  }

  /** For text without line terminators, a command is a slash followed by
      anything but a second slash: a doubled slash escapes a message. */
  lemma IsCommandPlain(s: string)
    requires NoLineTerminator(s)
    ensures IsCommand(s) <==> |s| > 1 && s[0] == '/' && s[1] != '/'
  {
    MatchesSlashesIff(s);
    if |s| >= 2 {
      assert NoLineTerminator(s[2..]) by {
        forall k | 0 <= k < |s[2..]| ensures !IsLineTerminator(s[2..][k]) {
          assert s[2..][k] == s[k + 2];
        }
      }
    }
  }

  /** Without line terminators, the payload check is plain containment. */
  lemma HasControlPlain(s: string)
    requires NoLineTerminator(s)
    ensures HasControl(s) <==> US in s || EOT in s
  {
    MatchesRunPlain(s, IsUS);
    MatchesRunPlain(s, IsEOT);
  }

  /** Whatever the line terminators, a payload without US and EOT passes the
      payload check. */
  lemma NoControl(s: string)
    requires US !in s && EOT !in s
    ensures !HasControl(s)
  {
    if MatchesRun(s, IsUS) {
      MatchesRunHasMember(s, IsUS);
    }
    if MatchesRun(s, IsEOT) {
      MatchesRunHasMember(s, IsEOT);
    }
  }

  /** Without line terminators, the name check is containment of US, EOT or
      a `\s` character. */
  lemma HasControlOrSpacePlain(s: string)
    requires NoLineTerminator(s)
    ensures HasControlOrSpace(s) <==>
              US in s || EOT in s || exists k | 0 <= k < |s| :: IsRegexSpace(s[k])
  {
    HasControlPlain(s);
    MatchesRunPlain(s, IsRegexSpace);
  }

  /** The client's `makeQuery(m)`: SOH, signature, US, "SEND", US, the
      message, EOT. */
  function SendFrame(m: string): string {
    SendBody(m) + [EOT]
  }

  /** The server's `makeQuery(sender, m)`: SOH, signature, US, "RECV", US,
      the sender label, US, the message, EOT. */
  function RecvFrame(sender: string, m: string): string {
    RecvBody(sender, m) + [EOT]
  }

  /** The fields of a client frame, joined by US. */
  function SendCore(m: string): string {
    SIGNATURE + [US] + (SEND + [US] + m)
  }

  /** The fields of a server frame, joined by US. */
  function RecvCore(sender: string, m: string): string {
    SIGNATURE + [US] + (RECV + [US] + (sender + [US] + m))
  }

  /** The server's `isValidQuery` over `query.split(US, 3)`. */
  predicate ServerAccepts(fields: seq<string>) {
    && |fields| == 3
    && fields[0] == SIGNATURE
    && fields[1] == SEND
    && !HasControl(fields[2])
  }

  /** The client's `isValidQuery` over `query.split(US, 4)`. */
  predicate ClientAccepts(fields: seq<string>) {
    && |fields| == 4
    && fields[0] == SIGNATURE
    && fields[1] == RECV
    && !HasControl(fields[3])
  }

  /** The fields the server reads from a dispatched frame. */
  function ServerFields(frame: string): (r: seq<string>)
    ensures 1 <= |r| <= 3
  {
    SplitLimit(frame, US, 3)
  }

  /** The fields the client reads from a dispatched frame. */
  function ClientFields(frame: string): (r: seq<string>)
    ensures 1 <= |r| <= 4
  {
    SplitLimit(frame, US, 4)
  }

  /** A frame built by `makeQuery` is closed by its only EOT. */
  lemma {:induction false} FrameCloses(body: string)
    requires EOT !in body
    ensures Pieces(body + [EOT], EOT) == [body, ""]
  {
    var s := body + [EOT];
    assert s[|body|] == EOT;
    var k := IndexOf(s, EOT);
    assert k == |body|;
    assert s[..k] == body && s[k + 1..] == "";
  }

  /** The body of a client frame, once `trim()` has removed the lead-in. */
  lemma SendBodyTrim(m: string)
    requires |m| > 0 && !IsTrimmable(m[|m| - 1])
    ensures Trim(SendBody(m)) == SendCore(m)
  {
    assert SendBody(m) == [SOH] + SendCore(m) + "";
    TrimPadded([SOH], SendCore(m), "");
  }

  /** A client message that starts above U+0020 reaches the server with its
      trailing characters up to U+0020 trimmed off. */
  lemma SendBodyTrimEnd(x: string) returns (m: string)
    requires |x| > 0 && !IsTrimmable(x[0])
    ensures 0 < |m| <= |x| && m == x[..|m|] && !IsTrimmable(m[|m| - 1])
    ensures AllTrimmable(x[|m|..])
    ensures Trim(SendBody(x)) == SendCore(m)
  {
    m := TrimEnd(x);
    TrimEndCut(x);
    var q := x[|m|..];
    assert x == m + q;
    assert SendBody(x) == [SOH] + SendCore(m) + q;
    TrimPadded([SOH], SendCore(m), q);
  }

  /** The lead-in and body of a client frame, before its EOT. */
  function SendBody(m: string): string {
    [SOH] + SendCore(m)
  }

  /** The lead-in and body of a server frame, before its EOT. */
  function RecvBody(sender: string, m: string): string {
    [SOH] + RecvCore(sender, m)
  }

  lemma SendCloses(m: string)
    requires EOT !in m
    ensures Pieces(SendFrame(m), EOT) == [SendBody(m), ""]
  {
    assert EOT !in SendBody(m);
    FrameCloses(SendBody(m));
  }

  lemma SendFieldsOf(m: string)
    ensures ServerFields(SendCore(m)) == [SIGNATURE, SEND, m]
  {
    TokensPlain();
    ThreeFields(SIGNATURE, SEND, m);
  }

  /** Two separator-free fields and a last one, joined by separators, split
      back into those three. */
  lemma ThreeFields(a: string, b: string, m: string)
    requires US !in a && US !in b
    ensures SplitLimit(a + [US] + (b + [US] + m), US, 3) == [a, b, m]
  {
    SplitLimitCons(b, US, m, 2);
    SplitLimitCons(a, US, b + [US] + m, 3);
    ThreeInARow(a, b, m);
  }

  lemma ThreeInARow(a: string, b: string, m: string)
    ensures [a] + ([b] + [m]) == [a, b, m]
  {
  }

  /** Round trip of a client frame through the server's reading: the
      framer closes it at its only EOT, `trim()` strips the SOH, and the
      limit-3 split gives back signature, direction and the message, which the
      server accepts. */
  lemma {:induction false} SendRoundTrip(m: string)
    requires |m| > 0 && US !in m && EOT !in m && !IsTrimmable(m[|m| - 1])
    ensures Pieces(SendFrame(m), EOT) == [SendBody(m), ""]
    ensures ServerFields(Trim(SendBody(m))) == [SIGNATURE, SEND, m]
    ensures ServerAccepts(ServerFields(Trim(SendBody(m))))
  {
    SendCloses(m);
    SendBodyTrim(m);
    SendFieldsOf(m);
    NoControl(m);
  }

  lemma RecvCloses(sender: string, m: string)
    requires EOT !in sender && EOT !in m
    ensures Pieces(RecvFrame(sender, m), EOT) == [RecvBody(sender, m), ""]
  {
    assert EOT !in RecvBody(sender, m);
    FrameCloses(RecvBody(sender, m));
  }

  lemma RecvBodyTrim(sender: string, m: string)
    requires |m| > 0 && !IsTrimmable(m[|m| - 1])
    ensures Trim(RecvBody(sender, m)) == RecvCore(sender, m)
  {
    assert RecvBody(sender, m) == [SOH] + RecvCore(sender, m) + "";
    TrimPadded([SOH], RecvCore(sender, m), "");
  }

  lemma RecvFieldsOf(sender: string, m: string)
    requires US !in sender
    ensures ClientFields(RecvCore(sender, m)) == [SIGNATURE, RECV, sender, m]
  {
    TokensPlain();
    FourFields(SIGNATURE, RECV, sender, m);
  }

  /** The signature and the direction tokens hold no separator. */
  lemma TokensPlain()
    ensures US !in SIGNATURE && US !in SEND && US !in RECV
  {
    assert SIGNATURE == ['E', 'D', 'N', '_', 'S', 'C', ' ', ' '];
  }

  /** Three separator-free fields and a last one, joined by separators,
      split back into those four. */
  lemma FourFields(a: string, b: string, c: string, m: string)
    requires US !in a && US !in b && US !in c
    ensures SplitLimit(a + [US] + (b + [US] + (c + [US] + m)), US, 4) == [a, b, c, m]
  {
    FieldByField(a, b, c, m);
    FourInARow(a, b, c, m);
  }

  lemma FieldByField(a: string, b: string, c: string, m: string)
    requires US !in a && US !in b && US !in c
    ensures SplitLimit(a + [US] + (b + [US] + (c + [US] + m)), US, 4) == [a] + ([b] + ([c] + [m]))
  {
    SplitLimitCons(c, US, m, 2);
    SplitLimitCons(b, US, c + [US] + m, 3);
    SplitLimitCons(a, US, b + [US] + (c + [US] + m), 4);
  }

  lemma FourInARow(a: string, b: string, c: string, m: string)
    ensures [a] + ([b] + ([c] + [m])) == [a, b, c, m]
  {
  }

  /** Round trip of a server frame through the client's reading: signature,
      direction, sender label and message come back, and the client accepts
      the frame. */
  lemma {:induction false} RecvRoundTrip(sender: string, m: string)
    requires US !in sender && EOT !in sender
    requires |m| > 0 && US !in m && EOT !in m && !IsTrimmable(m[|m| - 1])
    ensures Pieces(RecvFrame(sender, m), EOT) == [RecvBody(sender, m), ""]
    ensures ClientFields(Trim(RecvBody(sender, m))) == [SIGNATURE, RECV, sender, m]
    ensures ClientAccepts(ClientFields(Trim(RecvBody(sender, m))))
  {
    RecvCloses(sender, m);
    RecvBodyTrim(sender, m);
    RecvFieldsOf(sender, m);
    NoControl(m);
  }

  lemma TrimmableCons(c: char, m: string)
    requires IsTrimmable(c) && AllTrimmable(m)
    ensures AllTrimmable([c] + m)
  {
    forall i | 0 <= i < |[c] + m| ensures IsTrimmable(([c] + m)[i]) {
      if i > 0 { assert ([c] + m)[i] == m[i - 1]; }
    }
  }

  /** A message made only of characters up to U+0020 (for example a line of
      blanks) loses its payload field to `trim()`, together with the US before
      it: the server then sees two fields and rejects the frame. */
  lemma {:induction false} BlankSendRejected(m: string)
    requires AllTrimmable(m)
    ensures ServerFields(Trim(SendBody(m))) == [SIGNATURE, SEND]
    ensures !ServerAccepts(ServerFields(Trim(SendBody(m))))
  {
    var core := SIGNATURE + [US] + SEND;
    var pad := [US] + m;
    assert SendCore(m) == core + pad;
    assert SendBody(m) == [SOH] + core + pad;
    TrimmableCons(US, m);
    TrimPadded([SOH], core, pad);
    SplitLimitCons(SIGNATURE, US, SEND, 3);
    SplitLimitLast(SEND, US, 2);
  }
}
