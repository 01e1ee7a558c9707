# Simple Comms — a Dafny model of the relay protocol

Simple Comms is a text relay ("chat hub"): a server accepts client
connections, registers each one under a display name, routes messages between
clients by name, interprets slash commands (`/help`, `/getname`, `/setname`,
`/getaddress`, `/setaddress`, `/disconnect`), throttles spammers and kicks
misbehaving clients. A client runs an input loop that sends the user's lines
and a listener loop that shows what the server relays back.

This project models, as pure Dafny functions over immutable data:

- the wire format: `SEND` frames (client to server) and `RECV` frames (server
  to client), both `SOH SIGNATURE US kind US … EOT`, the two validators, the
  command test and the reserved keyword set (module `Wire`, with the Java
  string semantics it relies on — `trim`, `split` with and without a limit,
  `equalsIgnoreCase`, and the `.*X+.*` regular expressions — in `JavaString`);
- the framer shared by both read loops: each read is appended to a buffer,
  the buffer is split at `EOT`, complete pieces are trimmed and dispatched and
  the unterminated tail is kept (module `Framing`);
- the client record `SC_ClientObject` (module `ClientRecord`), including the
  16-bit wrap-around of its spam counter;
- the server's client manager: registry, lookup by name, spam check and the
  command interpreter (module `ClientManager`);
- the server presenter: register with capacity check, kick, and the routing
  of every incoming query (module `ServerPresenter`);
- the server socket: the accept loop and one worker's read loop, including
  the "Something went wrong" kick after a broken read and the loop condition
  on the thread's interrupt flag (module `ServerSocket`);
- the client presenter (incoming queries, local and remote commands, the
  input loop) and the client's listener loop (modules `ClientPresenter`,
  `ClientSocket`);
- `ConfigFileReader.read` (module `ConfigFile`), with an encoder for
  well-formed configuration files, with blank lines between blocks and
  padded header, footer and lead-out lines, and the round trip through it.

The server state is a heap of every client record ever created, keyed by an
`Id` that stands for the Java object identity, a sequence of the registered
ids and the set of ids whose socket is closed. A server step also carries the
frames sent and the worker thread's interrupt flag, because the flag decides
whether a worker keeps reading and whether a kick force-closes the socket.

Behaviours of the code that the model keeps although they look unintended:

- `/setname` checks the new name (keywords, control characters, uniqueness)
  before it cuts the name to 16 characters, so a 17-character name whose
  first 16 characters are an existing name is accepted and produces a
  duplicate (`ClientManager.TruncationDuplicatesName`).
- The spam check runs after every routed query, commands included, and a
  flagged query does not refresh the client's last-message time.
- A `/disconnect` that also trips the spam check leaves the worker running:
  the kick consumes the interrupt flag that `/disconnect` set, so the socket is
  not force-closed and the loop condition stays true
  (`ServerSocket.SpammedDisconnectKeepsWorker`).
- `/disconnect` deregisters whichever registered client its sender's name
  resolves to, so once two clients share a name, a disconnect from the second
  removes the first (`ClientManager.DisconnectTakesFirstNamesake`).
- After a broken read the socket is already closed when the kick runs
  (try-with-resources closes the reader first), so the "Something went wrong"
  frame is never delivered.
- A client's `/disconnect` line is sent twice: once as the farewell frame
  built by the local command and once more by the input loop after the
  labelled break.

## Model

| member | source | states |
|---|---|---|
| JavaString.Trim | src/eden/simplecomms/server/SC_ServerSocket.java:189 | the trimmed frame is no longer than the input and, when not empty, starts and ends with a character above U+0020 |
| JavaString.TrimCuts | src/eden/simplecomms/server/SC_ServerSocket.java:189 | the trimmed frame is a contiguous slice of the input, and everything cut off on either side is at most U+0020 |
| JavaString.SplitLimitJoin | src/eden/simplecomms/server/SC_ServerPresenter.java:189 | the fields of `split(US, limit)` joined back with the delimiter give the frame again |
| JavaString.SplitLimitFields | src/eden/simplecomms/server/SC_ServerPresenter.java:189 | only the last field of a limited split can contain the delimiter, and only when the limit cut the split short |
| JavaString.SplitOnce | src/eden/simplecomms/server/SC_ServerPresenter.java:551-553 | a first-match split gives one piece exactly when no separator occurs, otherwise two pieces with the input equal to first + separator + second and no separator in the first |
| JavaString.EqualsIgnoreCaseTransitive | src/eden/simplecomms/server/SC_ServerPresenter.java:466-472 | case-insensitive name equality is transitive, so a name matching two records makes those records' names equal too |
| JavaString.MatchesSlashesIff | src/eden/simplecomms/server/SC_ServerPresenter.java:374-379 | `/{2,}.*` matches exactly when the string starts with two slashes and has no line terminator after them |
| JavaString.IntToDecimal | src/eden/simplecomms/client/SC_ClientObject.java:96 | the decimal rendering of a hash code starts with '-' exactly for negative values, and the digits after it read back as the magnitude |
| Wire.IsCommandPlain | src/eden/simplecomms/server/SC_ServerPresenter.java:374-379 | for a string without line terminators, isCommand holds exactly when it starts with '/' followed by a character other than '/' |
| Wire.HasControlPlain | src/eden/simplecomms/server/SC_ServerPresenter.java:359-365 | the payload regex matches a string without line terminators exactly when it contains US or EOT |
| Wire.NoControl | src/eden/simplecomms/server/SC_ServerPresenter.java:359-365 | a payload free of US and EOT passes the payload check whatever line terminators it holds |
| Wire.SendRoundTrip | src/eden/simplecomms/server/SC_ServerPresenter.java:359-365 | a client message with no US or EOT and a non-blank end survives makeQuery, the EOT split and trim, and is split back into signature, SEND and the message, which the server accepts |
| Wire.RecvRoundTrip | src/eden/simplecomms/client/SC_ClientPresenter.java:270-276 | a server frame from a sender and message free of US and EOT is split back into signature, RECV, sender and message, which the client accepts |
| Wire.ThreeFields | src/eden/simplecomms/server/SC_ServerPresenter.java:189 | two US-free fields and a last field joined by US come back from `split(US, 3)` as exactly those three fields, the last one whatever it holds |
| Wire.FourFields | src/eden/simplecomms/client/SC_ClientPresenter.java:219 | three US-free fields and a last field joined by US come back from `split(US, 4)` as exactly those four fields |
| Wire.BlankSendRejected | src/eden/simplecomms/server/SC_ServerPresenter.java:359-365 | a frame whose message trims away to nothing has only two fields and is rejected by the server's validator |
| Framing.Feed | src/eden/simplecomms/server/SC_ServerSocket.java:173-182 | after a read the kept buffer is the text after the last EOT of buffer plus chunk; the segments handed on are the EOT-closed segments (exactly, when none is empty; up to the empty ones `split` drops otherwise); without an EOT nothing is handed on |
| Framing.RunMatchesStream | src/eden/simplecomms/server/SC_ServerSocket.java:164-190 | reading the stream in any chunks keeps the text after the stream's last EOT and hands on its non-empty EOT-closed segments, as one read of the whole stream would |
| Framing.RunExact | src/eden/simplecomms/client/SC_ClientSocket.java:107-133 | when no segment of the stream is empty, the segments handed on over all reads are exactly the stream's EOT-closed segments |
| Framing.FramesSurviveAnyChunking | src/eden/simplecomms/server/SC_ServerSocket.java:164-190 | a sequence of client frames, however the stream cuts them into reads, is delivered as exactly the trimmed bodies of those frames, in order |
| Framing.OneFrameRead | src/eden/simplecomms/server/SC_ServerSocket.java:173-182 | one SEND frame arriving in one read is dispatched as one trimmed body and leaves an empty buffer |
| ClientRecord.ToShort | src/eden/simplecomms/client/SC_ClientObject.java:186-188 | the spam counter is kept in the signed 16-bit range and equals its argument modulo 2^16 |
| ClientRecord.ShortWraps | src/eden/simplecomms/client/SC_ClientObject.java:186-188 | incrementing the counter past 32767 wraps it to -32768 |
| ClientRecord.DefaultNameInjective | src/eden/simplecomms/client/SC_ClientObject.java:96 | connections with different hash codes get different default names |
| ClientRecord.NewClient | src/eden/simplecomms/client/SC_ClientObject.java:81-100 | a new record is named "Client" followed by its hash code, addresses "Server", and has last time 0 and spam count 0 |
| ClientRecord.WithSpams | src/eden/simplecomms/client/SC_ClientObject.java:186-188 | setting the spam count narrows it to a short and leaves name, address and last time unchanged |
| ClientManager.Keywords | src/eden/simplecomms/server/SC_ServerPresenter.java:405-414 | the reserved set holds the server's own name and "Server", "Client", "System", "Administrator", "Admin", at most six names |
| ClientManager.Find | src/eden/simplecomms/server/SC_ServerPresenter.java:452-472 | lookup by name finds a registered record exactly when some registered name equals it ignoring case, and the one found is a member whose name matches |
| ClientManager.Remove | src/eden/simplecomms/server/SC_ServerPresenter.java:509-511 | removing an id from the registry leaves every other member, drops that id, keeps the members distinct and shortens the sequence by one when it was present |
| ClientManager.Admit | src/eden/simplecomms/server/SC_ServerPresenter.java:493-499 | admitting a fresh id stores a new default record and adds exactly that id to the members, keeping the registry valid |
| ClientManager.IsSpamming | src/eden/simplecomms/server/SC_ServerPresenter.java:524-538 | a query within the timeout increments the counter and keeps the last time, one after it resets the counter and records the time; the query is flagged exactly when the incremented counter reaches the threshold |
| ClientManager.CounterIsQuickRun | src/eden/simplecomms/server/SC_ServerPresenter.java:524-538 | from a clear counter, the spam counter is the length of the run of queries, ending with the last one checked, that each came less than the timeout after the one before; the series is flagged exactly when that run reaches the threshold, and an unflagged series has checked every query and recorded the last one's time |
| ClientManager.FlaggedOnlyAfterThreshold | src/eden/simplecomms/server/SC_ServerPresenter.java:524-538 | from a clear counter, a series is flagged exactly when it holds `threshold` queries in a row that each came less than the timeout after the one before: it is flagged at the last query of such a run, and a series that is not flagged holds no such run |
| ClientManager.SpamScenario | src/eden/simplecomms/server/SC_ServerPresenter.java:524-538 | with a 5000 ms timeout and threshold 3, queries at 0, 1000, 2000 are flagged on the third, while 0, 1000, 6000 are not flagged and end with a clear counter |
| ClientManager.Parse | src/eden/simplecomms/server/SC_ServerPresenter.java:551-553 | a command line is split at its first space or tab into the command word and the rest; the word holds no blank |
| ClientManager.GetName | src/eden/simplecomms/server/SC_ServerPresenter.java:583-585 | the reply is "Your are " followed by the stored name of a registered client whose name matches the one asked under, ignoring case |
| ClientManager.GetAddress | src/eden/simplecomms/server/SC_ServerPresenter.java:610-614 | the reply reports the caller's stored address |
| ClientManager.SetName | src/eden/simplecomms/server/SC_ServerPresenter.java:587-608 | a name that is no keyword, has no control character or space, is not a command and is not taken is stored cut to 16 characters with a "Name set from … to …" reply and nothing else changes; any other name changes nothing and replies "Name not set. Can not be used" |
| ClientManager.SetNameKeepsNamesDistinct | src/eden/simplecomms/server/SC_ServerPresenter.java:587-608 | a rename to a name of at most 16 characters keeps registered names distinct ignoring case |
| ClientManager.TruncationDuplicatesName | src/eden/simplecomms/server/SC_ServerPresenter.java:593-603 | in a registry holding "abcdefghijklmnop", renaming another client to "abcdefghijklmnopq" succeeds and leaves two clients with the same name |
| ClientManager.CutClash | src/eden/simplecomms/server/SC_ServerPresenter.java:593-603 | whenever a usable, unregistered new name cut to 16 characters is another registered client's name, the rename succeeds and two clients end up with the same name |
| ClientManager.SetAddress | src/eden/simplecomms/server/SC_ServerPresenter.java:616-634 | a keyword, control character or command is refused, a registered name is stored as the address, and an unknown name is refused as not registered; only the success case changes state |
| ClientManager.Disconnect | src/eden/simplecomms/server/SC_ServerPresenter.java:636-640 | disconnect sets the interrupt flag, removes exactly the record the caller's name resolves to from the registry and replies "Disconnect acknowledged" |
| ClientManager.CallerIsSelf | src/eden/simplecomms/server/SC_ServerPresenter.java:636-640 | while registered names are distinct ignoring case, a registered client's own name resolves to that client, so disconnect removes the sender itself |
| ClientManager.DisconnectTakesFirstNamesake | src/eden/simplecomms/server/SC_ServerPresenter.java:636-640 | with two registered clients of the same name, a disconnect under that name removes the first of them and keeps the second |
| ClientManager.ReadCommand | src/eden/simplecomms/server/SC_ServerPresenter.java:551-581 | the flag is set exactly for /disconnect in any case; other commands leave the registry's members alone; each of the six command words, compared ignoring case, selects its sub-command (/disconnect the disconnect, the setters with the rest of the line); /help replies with the help text and an unknown command with "Command not interpreted" |
| ServerPresenter.Send | src/eden/simplecomms/server/SC_ServerSocket.java:213-236 | a frame to an open socket is recorded as sent; writing to a closed socket sends nothing and sets the interrupt flag |
| ServerPresenter.Kick | src/eden/simplecomms/server/SC_ServerPresenter.java:299-334 | a kick deregisters the client, sends "/kick reason" from the server unless the socket is closed, closes the socket only when the flag was clear, and ends with the flag clear |
| ServerPresenter.Register | src/eden/simplecomms/server/SC_ServerPresenter.java:269-289 | a connection is admitted exactly when the registry has room; admitted ones get the lecture, refused ones are kicked with "Server fully occupied" and closed; the registry never exceeds capacity |
| ServerPresenter.Route | src/eden/simplecomms/server/SC_ServerPresenter.java:203-240 | a command goes to the command interpreter: its reply text goes back to the sender from the server's name and its registry is the one that results; a message addressed to the server is answered with the response, one addressed to a registered client is forwarded under the sender's name, one to an unknown name gets an error back |
| ServerPresenter.Throttle | src/eden/simplecomms/server/SC_ServerPresenter.java:241-252 | after each routed query the spam check runs; a flagged client is kicked for spamming, otherwise only its counter and time change |
| ServerPresenter.ReadQuery | src/eden/simplecomms/server/SC_ServerPresenter.java:184-256 | an unregistered sender is kicked as not registered, an invalid frame as an illegal query, and a valid one is routed and throttled |
| ServerPresenter.OthersGetOnlyForwards | src/eden/simplecomms/server/SC_ServerPresenter.java:184-256 | handling one query never sends a third client anything but the forwarded "sender: message" frame |
| ServerPresenter.KickTellsOnlyTarget | src/eden/simplecomms/server/SC_ServerPresenter.java:299-334 | a kick writes only to the kicked client's socket |
| ServerPresenter.MessageForwarded | src/eden/simplecomms/server/SC_ServerPresenter.java:229-235 | a plain message from a client addressed to another registered client reaches that client as a RECV frame from the sender |
| ServerPresenter.ServerResponds | src/eden/simplecomms/server/SC_ServerPresenter.java:221-228 | a message addressed to the server itself is answered from the server and forwarded to nobody |
| ServerPresenter.UnknownCommandAnswered | src/eden/simplecomms/server/SC_ServerPresenter.java:214-218 | a command whose word the server does not know gets "Command not interpreted" back from the server's name |
| ServerPresenter.BlankMessageKicks | src/eden/simplecomms/server/SC_ServerPresenter.java:190-200 | a frame whose message is blank gets its registered sender kicked for an illegal query |
| ServerPresenter.DisconnectQuery | src/eden/simplecomms/server/SC_ServerPresenter.java:184-256 | the client's farewell "/disconnect " + reason, the reason possibly empty, is acknowledged to the sender and deregisters the record the sender's name resolves to; the flag stays set unless the spam check trips, in which case the sender is kicked as well, the flag ends clear and an open socket stays open |
| ServerPresenter.FarewellPayload | src/eden/simplecomms/client/SC_ClientPresenter.java:370-371 | the farewell frame, whatever the reason and also with none, is accepted by the server as a command whose word is "/disconnect" |
| ServerSocket.AcceptAll | src/eden/simplecomms/server/SC_ServerSocket.java:96-119 | accepting a series of connections creates a record for each of them and no other, and the registry grows by exactly the clients given a worker |
| ServerSocket.AcceptsInOrder | src/eden/simplecomms/server/SC_ServerSocket.java:96-119 | the clients given a worker are some of the connections, in the order in which they connected |
| ServerSocket.CapacityHolds | src/eden/simplecomms/server/SC_ServerSocket.java:103-109 | however many connections arrive, the registry never holds more than the maximum |
| ServerSocket.AdmitsUpToCapacity | src/eden/simplecomms/server/SC_ServerSocket.java:103-109 | a server within its capacity starts workers for the first connections, in order, as many as it has free places, or for all of them if they are fewer |
| ServerSocket.Advance | src/eden/simplecomms/server/SC_ServerSocket.java:140-203 | a broken read closes the socket and then kicks the client with "Something went wrong"; a read without EOT only grows the buffer and changes nothing else; otherwise the frames are dispatched in order, and the worker keeps running exactly when the flag is clear and the socket open, closing the socket when it stops |
| ServerSocket.Serve | src/eden/simplecomms/server/SC_ServerSocket.java:140-203 | over any series of reads the records stay, frames are only ever appended, and a worker that has stopped has its socket closed |
| ServerSocket.WorkerFollowsFramer | src/eden/simplecomms/server/SC_ServerSocket.java:164-190 | while the worker runs, the queries it has handled and its buffer are exactly what the framer makes of all reads so far |
| ServerSocket.BrokenReadKicks | src/eden/simplecomms/server/SC_ServerSocket.java:193-199 | after a broken read the worker stops, the client is deregistered, its socket is closed and no frame reaches it |
| ServerSocket.DisconnectEndsWorker | src/eden/simplecomms/server/SC_ServerSocket.java:153-154 | the farewell "/disconnect " + reason read in one piece by a client that is not spamming stops the worker |
| ServerSocket.SpammedDisconnectKeepsWorker | src/eden/simplecomms/server/SC_ServerSocket.java:153-154 | a farewell that trips the spam check leaves the worker running with an open socket |
| ClientPresenter.SplitWords | src/eden/simplecomms/client/SC_ClientPresenter.java:340 | a line is cut at its first space into the command word and the arguments |
| ClientPresenter.ReadRemoteCommand | src/eden/simplecomms/client/SC_ClientPresenter.java:358-368 | /kick in any case reports the kick with its reason; anything else is "Command not interpreted on client" |
| ClientPresenter.KickUnderstood | src/eden/simplecomms/client/SC_ClientPresenter.java:383-387 | the payload of a server kick frame is understood by the client as a kick with the same reason |
| ClientPresenter.ReadQuery | src/eden/simplecomms/client/SC_ClientPresenter.java:216-238 | an invalid frame is ignored; a command payload is interpreted; any other payload is shown with its sender |
| ClientPresenter.MessageShown | src/eden/simplecomms/client/SC_ClientPresenter.java:216-238 | a RECV frame carrying a plain message from a sender is shown as that sender's message |
| ClientPresenter.KickShown | src/eden/simplecomms/client/SC_ClientPresenter.java:216-238 | a RECV frame carrying the server's kick is recognised as a kick |
| ClientPresenter.ReadLocalCommand | src/eden/simplecomms/client/SC_ClientPresenter.java:338-381 | /disconnect in any case sends the farewell frame and stops both loops; any other line is not a local command |
| ClientPresenter.InteractSends | src/eden/simplecomms/client/SC_ClientPresenter.java:177-201 | the input loop sends, in order, one frame per non-empty line plus the farewell before a /disconnect line, and a /disconnect stops both loops |
| ClientPresenter.ExpectedNonEmpty | src/eden/simplecomms/client/SC_ClientPresenter.java:177-201 | every frame sent carries a non-empty line or a farewell, and the loop sends something exactly when some line is not empty |
| ClientPresenter.EveryLineSent | src/eden/simplecomms/client/SC_ClientPresenter.java:177-201 | every non-empty line up to and including the first /disconnect is sent as a frame of its own |
| ClientSocket.Deliver | src/eden/simplecomms/client/SC_ClientSocket.java:128-133 | delivering frames shows their messages in order after what was already shown, and a kick stops the input loop |
| ClientSocket.DeliverShows | src/eden/simplecomms/client/SC_ClientSocket.java:128-133 | what is shown is exactly what was shown before followed by the messages of the delivered frames |
| ClientSocket.Advance | src/eden/simplecomms/client/SC_ClientSocket.java:107-145 | a broken read closes the connection and stops; a read without EOT only grows the buffer; otherwise the frames are delivered in order, the batch's messages are shown, nothing is sent, and the listener goes on exactly when the input loop was not stopped, closing the connection when it stops |
| ClientSocket.Listen | src/eden/simplecomms/client/SC_ClientSocket.java:93-146 | the listener's connection is closed exactly when it stopped, and listening never sends anything |
| ClientSocket.ListenerFollowsFramer | src/eden/simplecomms/client/SC_ClientSocket.java:107-133 | while the listener runs, the frames it handled and its buffer are what the framer makes of all reads so far |
| ClientSocket.KickEndsListener | src/eden/simplecomms/client/SC_ClientSocket.java:128-145 | a kick frame read in one piece stops the listener and closes the connection |
| ClientSocket.MessageArrives | src/eden/simplecomms/client/SC_ClientSocket.java:128-133 | a message frame read in one piece is shown with its sender |
| ConfigFile.SkipPlain | src/eden/common/ConfigFileReader.java:97-102 | lines that are not footers do not move the entry counter of the skip loop |
| ConfigFile.SkipTo | src/eden/common/ConfigFileReader.java:97-102 | in a file that opens with well-formed entry blocks, whatever follows them, the skip loop passes whole blocks, with their blank lines and padded header and footer lines, one footer per entry, up to the block sought |
| ConfigFile.SkipBlank | src/eden/common/ConfigFileReader.java:105-107 | blank lines are passed over and the position returned holds a non-blank line, or the file ran out |
| ConfigFile.SkipBlanks | src/eden/common/ConfigFileReader.java:105-107 | a run of blank lines is passed over up to the first line that is not blank |
| ConfigFile.ReadDataPlain | src/eden/common/ConfigFileReader.java:111-120 | the data lines up to the next footer are joined as they are, without separators and untrimmed |
| ConfigFile.Read | src/eden/common/ConfigFileReader.java:77-135 | a negative index is refused exactly when it is negative; an empty file is the end of file before any entry; a first line other than the file name and a colon is a bad signature |
| ConfigFile.ReadRendered | src/eden/common/ConfigFileReader.java:77-135 | reading entry k of a well-formed file returns that entry's data lines joined, whatever blank lines come before the blocks and the lead-out and however headers, footers and the lead-out are padded with blanks |
| ConfigFile.ReadIndented | src/eden/common/ConfigFileReader.java:31-34 | a file with indented headers and footers and a blank line between its blocks reads back its second entry |
| ConfigFile.ReadLeadOut | src/eden/common/ConfigFileReader.java:105-124 | reading one past the last entry passes the blank lines before the lead-out and reports the lead-out, numbered as the last entry, however it is padded |
| ConfigFile.ReadPastEnd | src/eden/common/ConfigFileReader.java:97-130 | reading further past the lead-out counts the lead-out as a footer and reports end of file |
| ConfigFile.ReadBadHeader | src/eden/common/ConfigFileReader.java:105-126 | a stray line that is neither blank, a header nor the lead-out, after the well-formed blocks and any blank lines, makes reading the next entry report a bad header after the last entry counted |

## Left out

- Sockets, streams and the byte encoding: reads are modelled as counts plus
  characters, writes as a sequence of sent frames.
- Threads and their interleaving: each function runs one thread's steps over
  the shared state; the thread pool, `synchronized`, `join` and the client's
  join timeout are not modelled.
- Send failures other than writing to a closed socket.
- `System.currentTimeMillis`: the time of each query is a parameter (a clock
  indexed by the number of queries handled).
- The overflow of the `long` last-message time.
- Unicode case folding: `equalsIgnoreCase` and `toLowerCase` fold ASCII only.
- The iteration order of the server's `HashSet` of clients: lookup takes the
  first match in registration order.
- Loading the static configuration and parsing its byte, short and int values;
  the configuration is a parameter.
- Shutdown of server and client (`shutdown()`), logging, the debug output of
  the modal flag, audio, the console scanner and the command-line entry points.
- End of stream: a read of -1 adds nothing, so the Java loop may spin; the
  model only describes the reads that happen.
- The messages wrapped into exceptions by the configuration reader: the model
  returns the error kind with its line or index.
- ClientManager.Truncate16: counts characters as Unicode scalar values, while
  Java's `length()` and `substring(0, 16)` count UTF-16 code units; a name
  with characters beyond U+FFFF is cut at a different place, and Java may cut
  a surrogate pair in two. Strings are sequences of characters throughout.
- ServerSocket.Serve: states nothing about which frames are sent while
  serving, because each step is described by `Advance`.
