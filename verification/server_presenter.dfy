/** The server's presenter (SC_ServerPresenter): admission of new clients,
    kicking, and the routing of every query a client sends. */
module ServerPresenter {
  import opened Wrappers
  import opened JavaString
  import opened Wire
  import opened ClientRecord
  import opened ClientManager

  /** A frame written to the socket of client `to`. */
  datatype Sent = Sent(to: Id, frame: string)

  /** What one thread of the server sees and does: the registry, the frames
      delivered so far, and its own interrupt flag. */
  datatype Step = Step(server: Server, sent: seq<Sent>, interrupted: bool)

  /** `sendQuery`: a frame written to an open socket is delivered; writing
      to a closed socket fails, and the failure raises the interrupt flag
      of the sending thread. */
  function Send(st: Step, to: Id, frame: string): (r: Step)
    ensures r.server == st.server
    ensures to !in st.server.closed ==> r.sent == st.sent + [Sent(to, frame)] && r.interrupted == st.interrupted
    ensures to in st.server.closed ==> r.sent == st.sent && r.interrupted
  {
    if to in st.server.closed then st.(interrupted := true)
    else st.(sent := st.sent + [Sent(to, frame)])
  }

  /** The frame that tells a client why it was kicked. */
  function KickFrame(cfg: Config, reason: string): string {
    RecvFrame(cfg.name, "/kick " + reason)
  }

  /** The effect of `kick(id, reason)` seen from the state `st` before it:
      the client is no longer registered, nobody else's registration
      changed, the kick frame is delivered unless the socket was already
      closed, the socket ends up closed unless the thread was interrupted,
      and the thread's interrupt flag ends up clear. */
  ghost predicate Kicked(cfg: Config, st: Step, r: Step, id: Id, reason: string) {
    && r.server.heap == st.server.heap
    && (forall x :: x in r.server.members <==> x in st.server.members && x != id)
    && r.sent == st.sent + (if id in st.server.closed then [] else [Sent(id, KickFrame(cfg, reason))])
    && (id in r.server.closed <==> id in st.server.closed || !st.interrupted)
    && r.server.closed - {id} == st.server.closed - {id}
    && !r.interrupted
  }

  /** `kick(client, reason)`. The pause before the forced close throws when
      the thread's interrupt flag is set, which clears the flag and skips
      the close. */
  function Kick(cfg: Config, st: Step, id: Id, reason: string): (r: Step)
    requires Valid(st.server) && id in st.server.heap
    ensures Valid(r.server) && Kicked(cfg, st, r, id, reason)
  {
    var told := Send(st, id, KickFrame(cfg, reason));
    var gone := told.(server := Deregister(told.server, id));
    if gone.interrupted then gone.(interrupted := false)
    else gone.(server := gone.server.(closed := gone.server.closed + {id}))
  }

  /** The outcome of `register(socket)`: the state afterwards and the
      admitted client, if any. */
  datatype Admission = Admission(step: Step, admitted: Option<Id>)

  lemma RemoveLast(ids: seq<Id>, id: Id)
    requires id !in ids && Distinct(ids)
    ensures Remove(ids + [id], id) == ids
  {
    var r := Remove(ids + [id], id);
    assert Distinct(ids + [id]) by { ConsDistinctLast(ids, id); }
    assert |r| == |ids|;
    forall k | 0 <= k < |ids| ensures r[k] == ids[k] {
      RemoveKeepsOrder(ids + [id], id, k);
    }
  }

  lemma ConsDistinctLast(ids: seq<Id>, id: Id)
    requires id !in ids && Distinct(ids)
    ensures Distinct(ids + [id])
  {
    var r := ids + [id];
    forall i, j | 0 <= i < j < |r| ensures r[i] != r[j] {
      if j == |ids| { assert r[i] == ids[i]; }
    }
  }

  /** Removing an element that is not among the first `k + 1` leaves them
      in place. */
  lemma {:induction false} RemoveKeepsOrder(ids: seq<Id>, id: Id, k: nat)
    requires k < |ids| && id !in ids[..k + 1]
    ensures k < |Remove(ids, id)| && Remove(ids, id)[k] == ids[k]
  {
    assert ids[0] != id by { assert ids[0] == ids[..k + 1][0]; }
    if k > 0 {
      assert ids[1..][..k] == ids[..k + 1][1..];
      RemoveKeepsOrder(ids[1..], id, k - 1);
    }
  }

  /** `register(socket)` on the accepting thread (whose interrupt flag is
      clear): the new record is registered; if that makes no more than the
      capacity it receives the lecture and is admitted, otherwise it is
      kicked with "Server fully occupied" and its socket closed. */
  function Register(cfg: Config, s: Server, sent: seq<Sent>, id: Id, hash: int): (r: Admission)
    requires Valid(s) && id !in s.heap
    ensures Valid(r.step.server) && r.step.server.heap == s.heap[id := NewClient(hash)]
    ensures r.admitted.Some? <==> |s.members| + 1 <= cfg.maxClients
    ensures r.admitted.Some? ==>
              && r.admitted.value == id
              && r.step == Step(s.(heap := r.step.server.heap, members := s.members + [id]),
                                sent + [Sent(id, RecvFrame(cfg.name, cfg.lecture))], false)
    ensures r.admitted.None? ==>
              && r.step.server.members == s.members
              && r.step.server.closed == s.closed + {id}
              && r.step.sent == sent + [Sent(id, KickFrame(cfg, "Server fully occupied"))]
    ensures |s.members| <= cfg.maxClients ==> |r.step.server.members| <= cfg.maxClients
  {
    var t := Admit(s, id, hash);
    if |t.members| <= cfg.maxClients then
      Admission(Step(t, sent + [Sent(id, RecvFrame(cfg.name, cfg.lecture))], false), Some(id))
    else
      var k := Kick(cfg, Step(t, sent, false), id, "Server fully occupied");
      RemoveLast(s.members, id);
      assert forall x :: x in k.server.members <==> x in s.members;
      assert k.server.members == Remove(t.members, id);
      Admission(k, None)
  }

  /** The reply `readQuery` pushes for an accepted query: who it is from,
      whom it is for, and the text. */
  datatype Routed = Routed(step: Step, sender: string, recipient: Id, message: string)

  /** Does the record address the server itself? */
  predicate AddressesServer(cfg: Config, c: Client) {
    EqualsIgnoreCase(c.address, cfg.name) || EqualsIgnoreCase(c.address, "Server")
  }

  /** The routing of an accepted query with payload `m` from registered
      client `id`, in the source's order: a command is answered by the
      server; a message addressed to the server gets the configured
      response; a message to an unregistered address gets a notice; any
      other message is forwarded to the addressee under the sender's name. */
  function Route(cfg: Config, st: Step, id: Id, m: string): (r: Routed)
    requires Valid(st.server) && id in st.server.heap
    requires IsRegistered(st.server, st.server.heap[id].name)
    ensures Valid(r.step.server) && r.step.server.heap.Keys == st.server.heap.Keys
    ensures r.step.server.closed == st.server.closed && r.step.sent == st.sent
    ensures !IsCommand(m) ==> r.step == st
    ensures IsCommand(m) && EqualsIgnoreCase(Parse(m).command, "/disconnect") ==>
              r.step.server.heap == st.server.heap
    ensures IsCommand(m) ==>
              var reply := ReadCommand(cfg, st.server, st.server.heap[id].name, m);
              r.message == reply.text && r.step.server == reply.server
    ensures IsCommand(m) ==>
              && r.sender == cfg.name && r.recipient == id
              && (r.step.interrupted <==>
                    (st.interrupted || EqualsIgnoreCase(Parse(m).command, "/disconnect")))
    ensures !IsCommand(m) && AddressesServer(cfg, st.server.heap[id]) ==>
              r == Routed(st, cfg.name, id, cfg.response)
    ensures !IsCommand(m) && !AddressesServer(cfg, st.server.heap[id])
            && !IsRegistered(st.server, st.server.heap[id].address) ==>
              r == Routed(st, cfg.name, id, st.server.heap[id].address + " is not registered")
    ensures !IsCommand(m) && !AddressesServer(cfg, st.server.heap[id])
            && IsRegistered(st.server, st.server.heap[id].address) ==>
              && r.sender == st.server.heap[id].name && r.message == m
              && r.recipient in st.server.members
              && EqualsIgnoreCase(st.server.heap[r.recipient].name, st.server.heap[id].address)
    ensures r.recipient != id ==>
              !IsCommand(m) && r.sender == st.server.heap[id].name && r.message == m
  {
    var c := st.server.heap[id];
    if IsCommand(m) then
      var reply := ReadCommand(cfg, st.server, c.name, m);
      Routed(st.(server := reply.server, interrupted := st.interrupted || reply.interrupt),
             cfg.name, id, reply.text)
    else if AddressesServer(cfg, c) then
      Routed(st, cfg.name, id, cfg.response)
    else if !IsRegistered(st.server, c.address) then
      Routed(st, cfg.name, id, c.address + " is not registered")
    else
      Routed(st, c.name, Caller(st.server, c.address), m)
  }

  /** The spam check after every accepted query: the record's counters are
      updated, and a flagged client is kicked. */
  function Throttle(cfg: Config, st: Step, id: Id, now: int): (r: Step)
    requires Valid(st.server) && id in st.server.heap
    ensures Valid(r.server) && r.server.heap.Keys == st.server.heap.Keys
    ensures var check := IsSpamming(cfg, st.server.heap[id], now);
            var counted := st.(server := st.server.(heap := st.server.heap[id := check.client]));
            && (check.spamming ==> Kicked(cfg, counted, r, id, "You sent too many messages at a time"))
            && (!check.spamming ==> r == counted)
  {
    var check := IsSpamming(cfg, st.server.heap[id], now);
    var counted := st.(server := st.server.(heap := st.server.heap[id := check.client]));
    if check.spamming then Kick(cfg, counted, id, "You sent too many messages at a time")
    else counted
  }

  /** `readQuery(client, query)` for one trimmed frame from client `id`
      at time `now`. */
  function ReadQuery(cfg: Config, st: Step, id: Id, query: string, now: int): (r: Step)
    requires Valid(st.server) && id in st.server.heap
    ensures Valid(r.server) && r.server.heap.Keys == st.server.heap.Keys
    ensures !IsRegistered(st.server, st.server.heap[id].name) ==>
              Kicked(cfg, st, r, id, "You are not registered")
    ensures IsRegistered(st.server, st.server.heap[id].name) && !ServerAccepts(ServerFields(query)) ==>
              Kicked(cfg, st, r, id, "Your client sent an illegal query")
    ensures IsRegistered(st.server, st.server.heap[id].name) && ServerAccepts(ServerFields(query)) ==>
              var routed := Route(cfg, st, id, ServerFields(query)[2]);
              var pushed := Send(routed.step, routed.recipient, RecvFrame(routed.sender, routed.message));
              && st.sent <= pushed.sent <= r.sent
              && r == Throttle(cfg, pushed, id, now)
  {
    var c := st.server.heap[id];
    var fields := ServerFields(query);
    if !IsRegistered(st.server, c.name) then
      Kick(cfg, st.(server := Deregister(st.server, id)), id, "You are not registered")
    else if !ServerAccepts(fields) then
      Kick(cfg, st.(server := Deregister(st.server, id)), id, "Your client sent an illegal query")
    else
      var routed := Route(cfg, st, id, fields[2]);
      var pushed := Send(routed.step, routed.recipient, RecvFrame(routed.sender, routed.message));
      Throttle(cfg, pushed, id, now)
  }

  /** Every frame `readQuery` writes goes back to the sender, except a
      forwarded message, which carries the sender's name and the payload
      unchanged. */
  lemma {:induction false} OthersGetOnlyForwards(cfg: Config, st: Step, id: Id, query: string, now: int)
    requires Valid(st.server) && id in st.server.heap
    ensures var r := ReadQuery(cfg, st, id, query, now);
            && st.sent <= r.sent
            && forall k | |st.sent| <= k < |r.sent| ::
                 r.sent[k].to == id
                 || (ServerAccepts(ServerFields(query))
                     && r.sent[k].frame == RecvFrame(st.server.heap[id].name, ServerFields(query)[2]))
  {
    var r := ReadQuery(cfg, st, id, query, now);
    var fields := ServerFields(query);
    if !IsRegistered(st.server, st.server.heap[id].name) {
      KickTellsOnlyTarget(cfg, st, r, id, "You are not registered");
    } else if !ServerAccepts(fields) {
      KickTellsOnlyTarget(cfg, st, r, id, "Your client sent an illegal query");
    } else {
      RoutedTellsSenderOrAddressee(cfg, st, id, fields[2], now);
    }
  }

  /** An accepted query with payload `m` writes to the sender's socket,
      or the sender's name and `m` to another one. */
  lemma RoutedTellsSenderOrAddressee(cfg: Config, st: Step, id: Id, m: string, now: int)
    requires Valid(st.server) && id in st.server.heap
    requires IsRegistered(st.server, st.server.heap[id].name)
    ensures var routed := Route(cfg, st, id, m);
            var pushed := Send(routed.step, routed.recipient, RecvFrame(routed.sender, routed.message));
            var r := Throttle(cfg, pushed, id, now);
            && st.sent <= r.sent
            && forall k | |st.sent| <= k < |r.sent| ::
                 r.sent[k].to == id || r.sent[k].frame == RecvFrame(st.server.heap[id].name, m)
  {
    var routed := Route(cfg, st, id, m);
    var pushed := Send(routed.step, routed.recipient, RecvFrame(routed.sender, routed.message));
    var r := Throttle(cfg, pushed, id, now);
    ThrottleTellsOnlyTarget(cfg, pushed, id, now);
    forall k | |st.sent| <= k < |r.sent|
      ensures r.sent[k].to == id || r.sent[k].frame == RecvFrame(st.server.heap[id].name, m)
    {
      if k < |pushed.sent| {
        assert r.sent[k] == pushed.sent[k] == Sent(routed.recipient, RecvFrame(routed.sender, routed.message));
      }
    }
  }

  /** A kick writes to no socket but the kicked client's. */
  lemma KickTellsOnlyTarget(cfg: Config, st: Step, r: Step, id: Id, reason: string)
    requires Kicked(cfg, st, r, id, reason)
    ensures st.sent <= r.sent
    ensures forall k | |st.sent| <= k < |r.sent| :: r.sent[k].to == id
  {
  }

  /** Nor does the spam check, which at most kicks the client it checks. */
  lemma ThrottleTellsOnlyTarget(cfg: Config, st: Step, id: Id, now: int)
    requires Valid(st.server) && id in st.server.heap
    ensures st.sent <= Throttle(cfg, st, id, now).sent
    ensures forall k | |st.sent| <= k < |Throttle(cfg, st, id, now).sent| ::
              Throttle(cfg, st, id, now).sent[k].to == id
  {
    var check := IsSpamming(cfg, st.server.heap[id], now);
    var counted := st.(server := st.server.(heap := st.server.heap[id := check.client]));
    if check.spamming {
      KickTellsOnlyTarget(cfg, counted, Throttle(cfg, st, id, now), id, "You sent too many messages at a time");
    }
  }

  /** A registered client's well-formed message, addressed to another
      registered client whose socket is open, is forwarded to that client
      under the sender's name, whatever the outcome of the spam check. */
  lemma {:induction false} MessageForwarded(cfg: Config, st: Step, id: Id, m: string, now: int)
    requires Valid(st.server) && id in st.server.heap
    requires IsRegistered(st.server, st.server.heap[id].name)
    requires |m| > 0 && US !in m && EOT !in m && m[|m| - 1] > ' ' && !IsCommand(m)
    requires !AddressesServer(cfg, st.server.heap[id])
    requires IsRegistered(st.server, st.server.heap[id].address)
    requires Caller(st.server, st.server.heap[id].address) !in st.server.closed
    ensures var r := ReadQuery(cfg, st, id, Trim(SendBody(m)), now);
            |r.sent| > |st.sent|
            && r.sent[|st.sent|] == Sent(Caller(st.server, st.server.heap[id].address),
                                        RecvFrame(st.server.heap[id].name, m))
  {
    SendRoundTrip(m);
    var routed := Route(cfg, st, id, m);
    var pushed := Send(routed.step, routed.recipient, RecvFrame(routed.sender, routed.message));
    assert pushed.sent == st.sent + [Sent(Caller(st.server, st.server.heap[id].address),
                                          RecvFrame(st.server.heap[id].name, m))];
  }

  /** A registered client's well-formed message to the server itself is
      answered with the configured response. */
  lemma {:induction false} ServerResponds(cfg: Config, st: Step, id: Id, m: string, now: int)
    requires Valid(st.server) && id in st.server.heap && id !in st.server.closed
    requires IsRegistered(st.server, st.server.heap[id].name)
    requires |m| > 0 && US !in m && EOT !in m && m[|m| - 1] > ' ' && !IsCommand(m)
    requires AddressesServer(cfg, st.server.heap[id])
    ensures var r := ReadQuery(cfg, st, id, Trim(SendBody(m)), now);
            |r.sent| > |st.sent| && r.sent[|st.sent|] == Sent(id, RecvFrame(cfg.name, cfg.response))
  {
    SendRoundTrip(m);
    var pushed := Send(st, id, RecvFrame(cfg.name, cfg.response));
    assert pushed.sent == st.sent + [Sent(id, RecvFrame(cfg.name, cfg.response))];
  }

  /** A frame whose payload is blank is illegal: its sender is kicked. */
  lemma {:induction false} BlankMessageKicks(cfg: Config, st: Step, id: Id, m: string, now: int)
    requires Valid(st.server) && id in st.server.heap
    requires IsRegistered(st.server, st.server.heap[id].name)
    requires AllTrimmable(m)
    ensures var r := ReadQuery(cfg, st, id, Trim(SendBody(m)), now);
            Kicked(cfg, st, r, id, "Your client sent an illegal query")
  {
    BlankSendRejected(m);
  }

  /** A command word that the server does not know is answered from the
      server with "Command not interpreted", whatever the spam check says. */
  lemma {:induction false} UnknownCommandAnswered(cfg: Config, st: Step, id: Id, m: string, now: int)
    requires Valid(st.server) && id in st.server.heap && id !in st.server.closed
    requires IsRegistered(st.server, st.server.heap[id].name)
    requires |m| > 0 && US !in m && EOT !in m && m[|m| - 1] > ' '
    requires IsCommand(m) && !Interpreted(Parse(m).command)
    ensures var r := ReadQuery(cfg, st, id, Trim(SendBody(m)), now);
            |r.sent| > |st.sent|
            && r.sent[|st.sent|] == Sent(id, RecvFrame(cfg.name, "Command not interpreted"))
  {
    SendRoundTrip(m);
    var routed := Route(cfg, st, id, m);
    assert routed.step == st && routed.recipient == id && routed.sender == cfg.name;
    assert routed.message == "Command not interpreted";
    var pushed := Send(st, id, RecvFrame(cfg.name, "Command not interpreted"));
    assert pushed.sent == st.sent + [Sent(id, RecvFrame(cfg.name, "Command not interpreted"))];
  }

  /** The command word of a payload that starts with "/disconnect" followed
      by nothing or by a space. */
  lemma DisconnectWord(m: string)
    requires |m| >= 11 && m[..11] == "/disconnect" && (|m| == 11 || m[11] == ' ')
    ensures Parse(m).command == "/disconnect"
  {
    var inv := Parse(m);
    assert forall k | 0 <= k < 11 :: m[k] == "/disconnect"[k];
    if |m| > 11 {
      assert IsBlank(m[11]);
      assert |inv.command| <= 11;
      assert |inv.command| == 11;
      assert inv.command == m[..11];
    }
  }

  /** What the server reads from the client's farewell "/disconnect " +
      reason: a well-formed frame whose payload, once trimmed, is a command
      with the word "/disconnect", also when the reason is empty. */
  lemma FarewellPayload(reason: string) returns (m: string)
    requires US !in reason && EOT !in reason
    ensures ServerFields(Trim(SendBody("/disconnect " + reason))) == [SIGNATURE, SEND, m]
    ensures ServerAccepts([SIGNATURE, SEND, m])
    ensures IsCommand(m) && Parse(m).command == "/disconnect"
  {
    m := FarewellCommand(reason);
    SendFieldsOf(m);
    NoControl(m);
  }

  lemma FarewellCommand(reason: string) returns (m: string)
    requires US !in reason && EOT !in reason
    ensures Trim(SendBody("/disconnect " + reason)) == SendCore(m)
    ensures US !in m && EOT !in m
    ensures IsCommand(m) && Parse(m).command == "/disconnect"
  {
    var x := "/disconnect " + reason;
    assert x[..11] == "/disconnect" && x[11] == ' ';
    m := WordKept(x, 11);
    assert m[..11] == "/disconnect" && (|m| == 11 || m[11] == ' ');
    DisconnectWord(m);
    assert m[1] == m[..11][1];
    SlashWord(m);
  }

  /** A slash followed by anything but a slash starts a command. */
  lemma SlashWord(m: string)
    requires |m| > 1 && m[0] == '/' && m[1] != '/'
    ensures IsCommand(m)
  {
    MatchesSlashesIff(m);
  }

  /** Trimming a message whose first `n` characters start and end above
      U+0020 keeps those characters and, when there is more, the one after. */
  lemma WordKept(x: string, n: nat) returns (m: string)
    requires 0 < n < |x| && !IsTrimmable(x[0]) && !IsTrimmable(x[n - 1])
    requires US !in x && EOT !in x
    ensures Trim(SendBody(x)) == SendCore(m)
    ensures n <= |m| <= |x| && m[..n] == x[..n] && (|m| == n || m[n] == x[n])
    ensures US !in m && EOT !in m
  {
    m := SendBodyTrimEnd(x);
    assert m[..n] == x[..n];
    assert forall k | 0 <= k < |m| :: m[k] == x[k];
  }

  /** `readQuery` on the farewell "/disconnect " + reason of a registered
      client. It is acknowledged to the sender, and the record its name
      resolves to (`Caller`, the sender itself while names are distinct) is
      deregistered. Unless the spam check trips, the thread's interrupt flag
      is left raised. If it trips, the sender is kicked as well, and on an
      open socket the kick clears the flag and leaves the socket open. */
  lemma {:induction false} DisconnectQuery(cfg: Config, st: Step, id: Id, reason: string, now: int)
    requires Valid(st.server) && id in st.server.heap
    requires IsRegistered(st.server, st.server.heap[id].name)
    requires US !in reason && EOT !in reason
    ensures var q := ReadQuery(cfg, st, id, Trim(SendBody("/disconnect " + reason)), now);
            var c := Caller(st.server, st.server.heap[id].name);
            var spamming := IsSpamming(cfg, st.server.heap[id], now).spamming;
            && (id !in st.server.closed ==>
                  |q.sent| > |st.sent| && q.sent[|st.sent|] == Sent(id, RecvFrame(cfg.name, "Disconnect acknowledged")))
            && (!spamming ==> q.interrupted)
            && (!spamming ==> forall x :: x in q.server.members <==> x in st.server.members && x != c)
            && (spamming ==> forall x :: x in q.server.members <==> x in st.server.members && x != c && x != id)
            && (spamming && id !in st.server.closed ==> !q.interrupted && id !in q.server.closed)
  {
    var m := FarewellPayload(reason);
    var name := st.server.heap[id].name;
    var reply := ReadCommand(cfg, st.server, name, m);
    assert reply == Disconnect(st.server, name);
    var routed := Route(cfg, st, id, m);
    assert routed.step.server == reply.server && routed.message == "Disconnect acknowledged";
    assert routed.step.interrupted && routed.recipient == id && routed.sender == cfg.name;
    var pushed := Send(routed.step, id, RecvFrame(cfg.name, "Disconnect acknowledged"));
    assert pushed.server.heap[id] == st.server.heap[id];
    assert pushed.server.closed == st.server.closed;
    assert id !in st.server.closed ==> pushed.sent[|st.sent|] == Sent(id, RecvFrame(cfg.name, "Disconnect acknowledged"));
  }
}
