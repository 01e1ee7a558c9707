/** The server's client registry and command interpreter (the inner class
    `ClientManager` of SC_ServerPresenter). The configured constants of the
    enclosing presenter are passed explicitly as a `Config`. */
module ClientManager {
  import opened Wrappers
  import opened JavaString
  import opened Wire
  import opened ClientRecord

  /** The presenter's configured constants: server name, capacity, lecture,
      self-response and help texts, spam window (ms) and spam threshold. */
  datatype Config = Config(
    name: string,
    maxClients: int,
    lecture: string,
    response: string,
    help: string,
    spamTimeout: int,
    spamThreshold: Short)

  /** `makeKEYWORDS`: names no client may take or address. */
  function Keywords(cfg: Config): (r: set<string>)
    ensures cfg.name in r && "Server" in r && "Client" in r
    ensures "System" in r && "Administrator" in r && "Admin" in r
    ensures |r| <= 6
  {
    {cfg.name, "Server", "Client", "System", "Administrator", "Admin"}
  }

  /** Some keyword equals `s` ignoring case. */
  predicate IsKeyword(cfg: Config, s: string) {
    exists k | k in Keywords(cfg) :: EqualsIgnoreCase(k, s)
  }

  /** Identity of a client record (its socket). */
  type Id = nat

  /** Every client record ever created, keyed by identity (a deregistered
      record lives on in the worker that holds it); the registered ones in
      insertion order; and the identities whose socket has been closed. */
  datatype Server = Server(heap: map<Id, Client>, members: seq<Id>, closed: set<Id>)

  predicate Distinct(ids: seq<Id>) {
    forall i, j | 0 <= i < j < |ids| :: ids[i] != ids[j]
  }

  predicate Valid(s: Server) {
    && (forall id | id in s.members :: id in s.heap)
    && Distinct(s.members)
    && s.closed <= s.heap.Keys
  }

  /** The name of the `i`-th registered client. */
  function NameAt(s: Server, i: int): string
    requires Valid(s) && 0 <= i < |s.members|
  {
    s.heap[s.members[i]].name
  }

  /** `isRegistered(name)`: some registered client has this name, ignoring case. */
  predicate IsRegistered(s: Server, name: string)
    requires Valid(s)
  {
    exists i | 0 <= i < |s.members| :: EqualsIgnoreCase(NameAt(s, i), name)
  }

  /** The first registered position at or after `from` whose name matches. */
  function IndexByName(s: Server, name: string, from: nat): (r: Option<nat>)
    requires Valid(s) && from <= |s.members|
    ensures r.Some? ==> from <= r.value < |s.members| && EqualsIgnoreCase(NameAt(s, r.value), name)
    ensures r.Some? ==> forall j | from <= j < r.value :: !EqualsIgnoreCase(NameAt(s, j), name)
    ensures r.None? ==> forall j | from <= j < |s.members| :: !EqualsIgnoreCase(NameAt(s, j), name)
    decreases |s.members| - from
  {
    if from == |s.members| then None
    else if EqualsIgnoreCase(NameAt(s, from), name) then Some(from)
    else IndexByName(s, name, from + 1)
  }

  /** `getClient(name)`: a registered client with this name, or none. The
      source takes any match from a hash set; the model takes the first in
      registration order. */
  function Find(s: Server, name: string): (r: Option<Id>)
    requires Valid(s)
    ensures r.Some? <==> IsRegistered(s, name)
    ensures r.Some? ==> r.value in s.members && r.value in s.heap
                        && EqualsIgnoreCase(s.heap[r.value].name, name)
  {
    match IndexByName(s, name, 0)
    case None => None
    case Some(i) => Some(s.members[i])
  }

  /** The registration list without `id`. */
  function Remove(ids: seq<Id>, id: Id): (r: seq<Id>)
    ensures forall x :: x in r <==> x in ids && x != id
    ensures Distinct(ids) ==> Distinct(r)
    ensures id !in ids ==> r == ids
    ensures Distinct(ids) && id in ids ==> |r| == |ids| - 1
  {
    if |ids| == 0 then []
    else
      var tail := Remove(ids[1..], id);
      assert ids == [ids[0]] + ids[1..];
      if ids[0] == id then
        assert Distinct(ids) ==> id !in ids[1..];
        tail
      else
        assert Distinct(ids) ==> ids[0] !in tail && Distinct(ids[1..]) by {
          if Distinct(ids) {
            assert forall k | 0 <= k < |ids[1..]| :: ids[1..][k] == ids[k + 1];
          }
        }
        ConsDistinct(ids[0], tail);
        [ids[0]] + tail
  }

  lemma ConsDistinct(x: Id, ids: seq<Id>)
    ensures Distinct([x] + ids) <==> x !in ids && Distinct(ids)
  {
    var r := [x] + ids;
    if x !in ids && Distinct(ids) {
      forall i, j | 0 <= i < j < |r| ensures r[i] != r[j] {
        if i > 0 { assert r[i] == ids[i - 1] && r[j] == ids[j - 1]; }
        else { assert r[j] == ids[j - 1]; }
      }
    }
    if Distinct(r) {
      forall i, j | 0 <= i < j < |ids| ensures ids[i] != ids[j] {
        assert ids[i] == r[i + 1] && ids[j] == r[j + 1];
      }
      forall k | 0 <= k < |ids| ensures ids[k] != x {
        assert ids[k] == r[k + 1] && x == r[0];
      }
    }
  }

  /** `deregister(client)`: afterwards the client is not registered, every
      other registration stays, and nothing else changes. */
  function Deregister(s: Server, id: Id): (r: Server)
    requires Valid(s)
    ensures Valid(r) && r.heap == s.heap && r.closed == s.closed
    ensures forall x :: x in r.members <==> x in s.members && x != id
    ensures |r.members| <= |s.members|
  {
    s.(members := Remove(s.members, id))
  }

  /** `register(socket)` of the registry: a fresh record with the default
      name is added; the registry never refuses it. */
  function Admit(s: Server, id: Id, hash: int): (r: Server)
    requires Valid(s) && id !in s.heap
    ensures Valid(r)
    ensures r.members == s.members + [id] && r.heap == s.heap[id := NewClient(hash)]
    ensures r.closed == s.closed
  {
    Server(s.heap[id := NewClient(hash)], s.members + [id], s.closed)
  }

  /** The outcome of `isSpamming`: the verdict and the updated record. */
  datatype SpamCheck = SpamCheck(spamming: bool, client: Client)

  /** `isSpamming(client, now)`. A query within the spam window increments
      the counter (as a short) and is flagged once the counter reaches the
      threshold; a later one resets the counter. A flagged query leaves the
      time of the last query unchanged; every other query records `now`. */
  function IsSpamming(cfg: Config, c: Client, now: int): (r: SpamCheck)
    ensures r.client.name == c.name && r.client.address == c.address
    ensures now - c.lastTime < cfg.spamTimeout ==> r.client.spams == ToShort(c.spams + 1)
    ensures now - c.lastTime >= cfg.spamTimeout ==> r.client.spams == 0 && !r.spamming
    ensures r.spamming <==> now - c.lastTime < cfg.spamTimeout && r.client.spams >= cfg.spamThreshold
    ensures r.spamming ==> r.client.lastTime == c.lastTime
    ensures !r.spamming ==> r.client.lastTime == now
  {
    if now - c.lastTime < cfg.spamTimeout then
      var counted := WithSpams(c, c.spams + 1);
      if counted.spams >= cfg.spamThreshold then SpamCheck(true, counted)
      else SpamCheck(false, WithLastTime(counted, now))
    else
      SpamCheck(false, WithLastTime(WithSpams(c, 0), now))
  }

  /** A query a full spam window after the previous one is never flagged
      and clears the counter. */
  lemma SlowQueryResets(cfg: Config, c: Client, now: int)
    requires now - c.lastTime >= cfg.spamTimeout
    ensures IsSpamming(cfg, c, now) == SpamCheck(false, c.(spams := 0, lastTime := now))
  {
  }

  /** The checks over a series of query times, stopping at the first flagged
      one: how many queries were checked, whether the last was flagged, and
      the record afterwards. */
  datatype SpamRun = SpamRun(checked: nat, flagged: bool, client: Client)

  function CheckAll(cfg: Config, c: Client, times: seq<int>): (r: SpamRun)
    ensures r.checked <= |times|
    ensures !r.flagged ==> r.checked == |times|
    decreases |times|
  {
    if |times| == 0 then SpamRun(0, false, c)
    else
      var prev := CheckAll(cfg, c, times[..|times| - 1]);
      if prev.flagged then prev
      else
        var check := IsSpamming(cfg, prev.client, times[|times| - 1]);
        SpamRun(prev.checked + 1, check.spamming, check.client)
  }

  /** The `k`-th query came within the spam window of the one before it
      (of the record's last time, for the first). */
  predicate Quick(cfg: Config, c: Client, times: seq<int>, k: int)
    requires 0 <= k < |times|
  {
    times[k] - (if k == 0 then c.lastTime else times[k - 1]) < cfg.spamTimeout
  }

  /** Every query from the `lo`-th up to the `hi`-th (exclusive) was quick. */
  predicate AllQuick(cfg: Config, c: Client, times: seq<int>, lo: int, hi: int)
    requires 0 <= lo <= hi <= |times|
  {
    forall k | lo <= k < hi :: Quick(cfg, c, times, k)
  }

  /** The `threshold` queries ending before the `e`-th were all quick. */
  predicate QuickWindow(cfg: Config, c: Client, times: seq<int>, e: int)
    requires 0 <= cfg.spamThreshold <= e <= |times|
  {
    AllQuick(cfg, c, times, e - cfg.spamThreshold, e)
  }

  /** What the checks over `times` leave behind: the counter is the
      length of the run of quick queries ending with the last one checked,
      the series is flagged exactly when that run reached the threshold, and
      an unflagged series has checked every query and recorded the time of
      the last. */
  predicate CountsQuickRun(cfg: Config, c: Client, times: seq<int>, run: SpamRun) {
    && 0 <= run.client.spams <= run.checked <= |times|
    && AllQuick(cfg, c, times, run.checked - run.client.spams, run.checked)
    && (run.checked == run.client.spams || !Quick(cfg, c, times, run.checked - run.client.spams - 1))
    && (run.flagged <==> run.client.spams >= cfg.spamThreshold)
    && (!run.flagged ==> run.checked == |times|
                         && run.client.lastTime == (if |times| == 0 then c.lastTime else times[|times| - 1]))
  }

  /** Starting from a cleared counter, the counter is the length of the run
      of quick queries that ends with the last one checked. */
  lemma {:induction false} CounterIsQuickRun(cfg: Config, c: Client, times: seq<int>)
    requires c.spams == 0 && cfg.spamThreshold >= 1
    ensures CountsQuickRun(cfg, c, times, CheckAll(cfg, c, times))
    decreases |times|
  {
    var n := |times|;
    if n > 0 {
      var init := times[..n - 1];
      CounterIsQuickRun(cfg, c, init);
      QuickPrefix(cfg, c, times);
      var prev := CheckAll(cfg, c, init);
      if prev.flagged {
        FlaggedRunKept(cfg, c, times, prev);
      } else {
        QuickRunStep(cfg, c, times, prev);
      }
    }
  }

  /** A flagged run stays as it was when a query is added. */
  lemma FlaggedRunKept(cfg: Config, c: Client, times: seq<int>, prev: SpamRun)
    requires |times| > 0 && prev.flagged
    requires CountsQuickRun(cfg, c, times[..|times| - 1], prev)
    ensures CountsQuickRun(cfg, c, times, prev)
  {
    QuickPrefix(cfg, c, times);
    assert AllQuick(cfg, c, times[..|times| - 1], prev.checked - prev.client.spams, prev.checked);
  }

  /** One more check after an unflagged run extends or resets the run. */
  lemma QuickRunStep(cfg: Config, c: Client, times: seq<int>, prev: SpamRun)
    requires |times| > 0 && !prev.flagged && cfg.spamThreshold >= 1
    requires CountsQuickRun(cfg, c, times[..|times| - 1], prev)
    ensures var check := IsSpamming(cfg, prev.client, times[|times| - 1]);
            CountsQuickRun(cfg, c, times, SpamRun(prev.checked + 1, check.spamming, check.client))
  {
    var n := |times|;
    QuickPrefix(cfg, c, times);
    var check := IsSpamming(cfg, prev.client, times[n - 1]);
    if Quick(cfg, c, times, n - 1) {
      assert check.client.spams == prev.client.spams + 1;
    } else {
      assert check.client.spams == 0;
    }
  }

  /** So a client is flagged exactly when `threshold` queries in a row have
      each come within the spam window of the one before: at the end of the
      first such run, and a series that is not flagged holds no such run. */
  lemma {:induction false} FlaggedOnlyAfterThreshold(cfg: Config, c: Client, times: seq<int>)
    requires c.spams == 0 && cfg.spamThreshold >= 1
    ensures var run := CheckAll(cfg, c, times);
            run.flagged ==> run.checked >= cfg.spamThreshold
                            && AllQuick(cfg, c, times, run.checked - cfg.spamThreshold, run.checked)
    ensures var run := CheckAll(cfg, c, times);
            !run.flagged ==> forall e | cfg.spamThreshold <= e <= |times| :: !QuickWindow(cfg, c, times, e)
    decreases |times|
  {
    var n := |times|;
    var run := CheckAll(cfg, c, times);
    CounterIsQuickRun(cfg, c, times);
    if n > 0 {
      var init := times[..n - 1];
      FlaggedOnlyAfterThreshold(cfg, c, init);
      CounterIsQuickRun(cfg, c, init);
      var prev := CheckAll(cfg, c, init);
      if !prev.flagged {
        QuickPrefix(cfg, c, times);
        var r := prev.client.spams;
        if n >= cfg.spamThreshold && QuickWindow(cfg, c, times, n) {
          assert Quick(cfg, c, times, n - 1);
          if r < n - 1 {
            assert !Quick(cfg, c, init, n - 2 - r);
            assert n - 2 - r < n - cfg.spamThreshold;
          }
          assert run.flagged;
        }
        if !run.flagged {
          forall e | cfg.spamThreshold <= e < n
            ensures !QuickWindow(cfg, c, times, e)
          {
            WindowPrefix(cfg, c, times, e);
          }
        }
      }
    }
  }

  /** A window that ends before the last query is the same in the series
      without it. */
  lemma WindowPrefix(cfg: Config, c: Client, times: seq<int>, e: int)
    requires 0 <= cfg.spamThreshold <= e < |times|
    ensures QuickWindow(cfg, c, times[..|times| - 1], e) == QuickWindow(cfg, c, times, e)
  {
    var init := times[..|times| - 1];
    QuickPrefix(cfg, c, times);
    if QuickWindow(cfg, c, times, e) {
      forall k | e - cfg.spamThreshold <= k < e ensures Quick(cfg, c, init, k) {
        assert Quick(cfg, c, times, k);
      }
    }
    if QuickWindow(cfg, c, init, e) {
      forall k | e - cfg.spamThreshold <= k < e ensures Quick(cfg, c, times, k) {
        assert Quick(cfg, c, init, k);
      }
    }
  }

  /** Dropping the last query leaves the others' quickness alone. */
  lemma QuickPrefix(cfg: Config, c: Client, times: seq<int>)
    requires |times| > 0
    ensures forall k | 0 <= k < |times| - 1 ::
              Quick(cfg, c, times[..|times| - 1], k) == Quick(cfg, c, times, k)
  {
    var init := times[..|times| - 1];
    forall k | 0 <= k < |times| - 1
      ensures Quick(cfg, c, init, k) == Quick(cfg, c, times, k)
    {
      assert init[k] == times[k];
      if k > 0 { assert init[k - 1] == times[k - 1]; }
    }
  }

  /** With a 5000 ms window and a threshold of 3, queries at 0, 1000 and
      2000 ms flag the third; after a run, a query at 6000 ms following one
      at 1000 ms resets the counter instead. */
  lemma SpamScenario(c: Client)
    requires c.lastTime == 0 && c.spams == 0
    ensures var cfg := Config("S", 2, "", "", "", 5000, 3);
            && CheckAll(cfg, c, [0, 1000, 2000]).flagged
            && CheckAll(cfg, c, [0, 1000, 2000]).checked == 3
            && !CheckAll(cfg, c, [0, 1000, 6000]).flagged
            && CheckAll(cfg, c, [0, 1000, 6000]).client.spams == 0
  {
    var cfg := Config("S", 2, "", "", "", 5000, 3);
    assert [0, 1000, 2000][..2] == [0, 1000];
    assert [0, 1000, 6000][..2] == [0, 1000];
    assert [0, 1000][..1] == [0];
    assert [0][..0] == [];
  }

  /** Registered names are pairwise different, ignoring case. */
  predicate NamesDistinct(s: Server)
    requires Valid(s)
  {
    forall i, j | 0 <= i < |s.members| && 0 <= j < |s.members| && i != j ::
      !EqualsIgnoreCase(NameAt(s, i), NameAt(s, j))
  }

  /** The separators of `split("[ \t]", 2)`. */
  predicate IsBlank(c: char) { c == ' ' || c == '\t' }

  /** A command line cut at its first blank into the command word and its
      arguments (empty when there is no blank). */
  datatype Invocation = Invocation(command: string, arguments: string)

  function Parse(input: string): (r: Invocation)
    ensures (forall i | 0 <= i < |input| :: !IsBlank(input[i])) ==> r == Invocation(input, "")
    ensures (exists i | 0 <= i < |input| :: IsBlank(input[i])) ==>
              |r.command| < |input| && input == r.command + [input[|r.command|]] + r.arguments
              && IsBlank(input[|r.command|])
    ensures forall i | 0 <= i < |r.command| :: !IsBlank(r.command[i])
  {
    var parts := SplitOnce(input, IsBlank);
    if |parts| == 1 then Invocation(parts[0], "")
    else
      assert forall i | 0 <= i < |parts[0]| :: parts[0][i] == input[i];
      Invocation(parts[0], parts[1])
  }

  /** What `readCommand` and its sub-commands hand back: the registry
      afterwards, whether the worker thread's interrupt flag was raised,
      and the response text. */
  datatype Reply = Reply(server: Server, interrupt: bool, text: string)

  /** The name rule shared by `setName` and `setAddress`: not a keyword, no
      US, EOT or whitespace, not a command, not empty. */
  predicate Nameable(cfg: Config, n: string) {
    !IsKeyword(cfg, n) && !HasControlOrSpace(n) && !IsCommand(n) && |n| > 0
  }

  /** Names are cut to their first sixteen characters. */
  function Truncate16(n: string): (r: string)
    ensures |r| <= 16 && r <= n
    ensures |n| <= 16 ==> r == n
  {
    if |n| > 16 then n[..16] else n
  }

  /** The registered client `getClient(name)` resolves to. */
  function Caller(s: Server, name: string): (r: Id)
    requires Valid(s) && IsRegistered(s, name)
    ensures r in s.members && r in s.heap && EqualsIgnoreCase(s.heap[r].name, name)
  {
    Find(s, name).value
  }

  /** `getName`: reports the name of the caller's record. */
  function GetName(s: Server, name: string): (r: string)
    requires Valid(s) && IsRegistered(s, name)
    ensures |r| >= 9 && r[..9] == "Your are " && EqualsIgnoreCase(r[9..], name)
    ensures exists c | c in s.members && EqualsIgnoreCase(s.heap[c].name, name) ::
              r == "Your are " + s.heap[c].name
  {
    "Your are " + s.heap[Caller(s, name)].name
  }

  /** `getAddress`: reports the address of the caller's record. */
  function GetAddress(s: Server, name: string): (r: string)
    requires Valid(s) && IsRegistered(s, name)
    ensures exists c | c in s.members && EqualsIgnoreCase(s.heap[c].name, name) ::
              r == "You are now addressing future messages to " + s.heap[c].address
  {
    "You are now addressing future messages to " + s.heap[Caller(s, name)].address
  }

  /** `setName`: a usable name that no registered client holds (ignoring
      case) is taken, cut to sixteen characters; otherwise nothing changes. */
  function SetName(cfg: Config, s: Server, name: string, newName: string): (r: Reply)
    requires Valid(s) && IsRegistered(s, name)
    ensures Valid(r.server) && r.server.members == s.members && r.server.closed == s.closed
    ensures r.server.heap.Keys == s.heap.Keys && !r.interrupt
    ensures !(Nameable(cfg, newName) && !IsRegistered(s, newName)) ==>
              r == Reply(s, false, "Name not set. Can not be used")
    ensures Nameable(cfg, newName) && !IsRegistered(s, newName) ==>
              var c := Caller(s, name);
              && r.server.heap[c] == s.heap[c].(name := Truncate16(newName))
              && (forall x | x in s.heap && x != c :: r.server.heap[x] == s.heap[x])
              && r.text == "Name set from " + s.heap[c].name + " to " + Truncate16(newName)
  {
    if Nameable(cfg, newName) && !IsRegistered(s, newName) then
      var c := Caller(s, name);
      var newer := Truncate16(newName);
      Reply(s.(heap := s.heap[c := WithName(s.heap[c], newer)]), false,
            "Name set from " + s.heap[c].name + " to " + newer)
    else
      Reply(s, false, "Name not set. Can not be used")
  }

  /** A rename to a name of at most sixteen characters keeps registered
      names pairwise different. */
  lemma {:induction false} SetNameKeepsNamesDistinct(cfg: Config, s: Server, name: string, newName: string)
    requires Valid(s) && IsRegistered(s, name) && NamesDistinct(s) && |newName| <= 16
    ensures NamesDistinct(SetName(cfg, s, name, newName).server)
  {
    var r := SetName(cfg, s, name, newName).server;
    if Nameable(cfg, newName) && !IsRegistered(s, newName) {
      var c := Caller(s, name);
      forall i, j | 0 <= i < |r.members| && 0 <= j < |r.members| && i != j
        ensures !EqualsIgnoreCase(NameAt(r, i), NameAt(r, j))
      {
        if r.members[i] == c {
          assert r.members[j] != c;
          assert NameAt(r, i) == newName && NameAt(r, j) == NameAt(s, j);
          EqualsIgnoreCaseSymmetric(NameAt(s, j), newName);
        } else if r.members[j] == c {
          assert NameAt(r, j) == newName && NameAt(r, i) == NameAt(s, i);
        } else {
          assert NameAt(r, i) == NameAt(s, i) && NameAt(r, j) == NameAt(s, j);
        }
      }
    }
  }

  /** Two registered clients, one holding a sixteen-character name. */
  const Crowded: Server := Server(map[1 := Client("Client1", "Server", 0, 0),
                                      2 := Client("abcdefghijklmnop", "Server", 0, 0)], [1, 2], {})

  const Sample: Config := Config("S", 2, "", "", "", 5000, 3)

  lemma CrowdedIsValid()
    ensures Valid(Crowded) && NamesDistinct(Crowded) && IsRegistered(Crowded, "Client1")
    ensures Caller(Crowded, "Client1") == 1
  {
    assert NameAt(Crowded, 0) == "Client1" && NameAt(Crowded, 1) == "abcdefghijklmnop";
    assert !EqualsIgnoreCase(NameAt(Crowded, 0), NameAt(Crowded, 1));
    assert EqualsIgnoreCase(NameAt(Crowded, 0), "Client1");
    assert IndexByName(Crowded, "Client1", 0) == Some(0);
  }

  /** Only keywords of its own length can match a name ignoring case. */
  lemma NotKeywordByLength(cfg: Config, n: string)
    requires |n| != |cfg.name| && |n| != 6 && |n| != 13 && |n| != 5
    ensures !IsKeyword(cfg, n)
  {
  }

  lemma LongNameClean()
    ensures !HasControlOrSpace("abcdefghijklmnopq")
  {
    var n := "abcdefghijklmnopq";
    forall k | 0 <= k < |n| ensures 'a' <= n[k] <= 'q' { }
    HasControlOrSpacePlain(n);
  }

  lemma LongNameUsable()
    ensures Valid(Crowded)
    ensures Nameable(Sample, "abcdefghijklmnopq") && !IsRegistered(Crowded, "abcdefghijklmnopq")
  {
    CrowdedIsValid();
    NotKeywordByLength(Sample, "abcdefghijklmnopq");
    LongNameClean();
  }

  /** The uniqueness check precedes the cut to sixteen characters, so a
      seventeen-character name whose first sixteen characters are another
      client's name is accepted and yields two clients of the same name. */
  lemma TruncationDuplicatesName()
    ensures Valid(Crowded) && NamesDistinct(Crowded) && IsRegistered(Crowded, "Client1")
    ensures SetName(Sample, Crowded, "Client1", "abcdefghijklmnopq").text
              == "Name set from " + "Client1" + " to " + "abcdefghijklmnop"
    ensures !NamesDistinct(SetName(Sample, Crowded, "Client1", "abcdefghijklmnopq").server)
  {
    CrowdedIsValid();
    LongNameUsable();
    assert Truncate16("abcdefghijklmnopq") == Crowded.heap[2].name;
    CutClash(Sample, Crowded, "Client1", "abcdefghijklmnopq", 2);
  }

  /** A rename whose cut name is the name of another registered client
      leaves two clients of that name. */
  lemma CutClash(cfg: Config, s: Server, name: string, newName: string, other: Id)
    requires Valid(s) && IsRegistered(s, name)
    requires Nameable(cfg, newName) && !IsRegistered(s, newName)
    requires other in s.members && other != Caller(s, name)
    requires s.heap[other].name == Truncate16(newName)
    ensures !NamesDistinct(SetName(cfg, s, name, newName).server)
  {
    var c := Caller(s, name);
    var r := SetName(cfg, s, name, newName).server;
    var i :| 0 <= i < |s.members| && s.members[i] == c;
    var j :| 0 <= j < |s.members| && s.members[j] == other;
    assert NameAt(r, i) == Truncate16(newName) == NameAt(r, j);
  }

  /** `setAddress`: a usable name of a registered client becomes the
      caller's address; otherwise nothing changes, and the response says
      which rule refused it. */
  function SetAddress(cfg: Config, s: Server, name: string, newAddress: string): (r: Reply)
    requires Valid(s) && IsRegistered(s, name)
    ensures Valid(r.server) && r.server.members == s.members && r.server.closed == s.closed
    ensures r.server.heap.Keys == s.heap.Keys && !r.interrupt
    ensures r.server.heap != s.heap ==> Nameable(cfg, newAddress) && IsRegistered(s, newAddress)
    ensures !Nameable(cfg, newAddress) ==>
              r == Reply(s, false, "Address not set. Name can not be used")
    ensures Nameable(cfg, newAddress) && !IsRegistered(s, newAddress) ==>
              r == Reply(s, false, "Address not set. " + newAddress + " is not registered")
    ensures Nameable(cfg, newAddress) && IsRegistered(s, newAddress) ==>
              var c := Caller(s, name);
              && r.server.heap[c] == s.heap[c].(address := newAddress)
              && (forall x | x in s.heap && x != c :: r.server.heap[x] == s.heap[x])
              && r.text == "Future messages Will be sent to " + newAddress
  {
    if !Nameable(cfg, newAddress) then
      Reply(s, false, "Address not set. Name can not be used")
    else if IsRegistered(s, newAddress) then
      var c := Caller(s, name);
      Reply(s.(heap := s.heap[c := WithAddress(s.heap[c], newAddress)]), false,
            "Future messages Will be sent to " + newAddress)
    else
      Reply(s, false, "Address not set. " + newAddress + " is not registered")
  }

  /** `disconnect`: raises the interrupt flag of the worker thread and
      deregisters the caller's record. */
  function Disconnect(s: Server, name: string): (r: Reply)
    requires Valid(s) && IsRegistered(s, name)
    ensures Valid(r.server) && r.interrupt && r.text == "Disconnect acknowledged"
    ensures r.server.heap == s.heap && r.server.closed == s.closed
    ensures |r.server.members| == |s.members| - 1
    ensures exists c | c in s.members && EqualsIgnoreCase(s.heap[c].name, name) ::
              forall x :: x in r.server.members <==> x in s.members && x != c
    ensures forall x :: x in r.server.members <==> x in s.members && x != Caller(s, name)
  {
    var c := Caller(s, name);
    Reply(Deregister(s, c), true, "Disconnect acknowledged")
  }

  /** While registered names are distinct, a registered client's own name
      resolves to that client, so `disconnect` removes the caller itself. */
  lemma CallerIsSelf(s: Server, id: Id)
    requires Valid(s) && NamesDistinct(s) && id in s.members
    ensures IsRegistered(s, s.heap[id].name) && Caller(s, s.heap[id].name) == id
  {
    var i :| 0 <= i < |s.members| && s.members[i] == id;
    assert EqualsIgnoreCase(NameAt(s, i), s.heap[id].name);
    var c := Caller(s, s.heap[id].name);
    var j :| 0 <= j < |s.members| && s.members[j] == c;
    assert EqualsIgnoreCase(NameAt(s, j), NameAt(s, i));
    assert j == i;
  }

  /** Two registered clients that share a name. */
  const Twins: Server := Server(map[1 := Client("Twin", "Server", 0, 0),
                                    2 := Client("Twin", "Server", 0, 0)], [1, 2], {})

  /** `disconnect` looks the caller up by name, so once two clients share a
      name, a disconnect by the second removes the first. */
  lemma DisconnectTakesFirstNamesake()
    ensures Valid(Twins) && IsRegistered(Twins, Twins.heap[2].name)
    ensures Disconnect(Twins, Twins.heap[2].name).server.members == [2]
  {
    assert NameAt(Twins, 0) == "Twin";
    assert IndexByName(Twins, "Twin", 0) == Some(0);
    assert Remove([1, 2][1..], 1) == [2];
  }

  /** `readCommand(name, input)`: the command word, compared ignoring case,
      selects the sub-command, which receives the rest of the line. */
  function ReadCommand(cfg: Config, s: Server, name: string, input: string): (r: Reply)
    requires Valid(s) && IsRegistered(s, name)
    ensures Valid(r.server) && r.server.heap.Keys == s.heap.Keys && r.server.closed == s.closed
    ensures r.interrupt <==> EqualsIgnoreCase(Parse(input).command, "/disconnect")
    ensures !r.interrupt ==> r.server.members == s.members
    ensures r.interrupt ==> r.server.heap == s.heap
    ensures EqualsIgnoreCase(Parse(input).command, "/help") ==> r == Reply(s, false, cfg.help)
    ensures EqualsIgnoreCase(Parse(input).command, "/getName") ==> r == Reply(s, false, GetName(s, name))
    ensures EqualsIgnoreCase(Parse(input).command, "/getAddress") ==> r == Reply(s, false, GetAddress(s, name))
    ensures EqualsIgnoreCase(Parse(input).command, "/setName") ==> r == SetName(cfg, s, name, Parse(input).arguments)
    ensures EqualsIgnoreCase(Parse(input).command, "/setAddress") ==> r == SetAddress(cfg, s, name, Parse(input).arguments)
    ensures EqualsIgnoreCase(Parse(input).command, "/disconnect") ==> r == Disconnect(s, name)
    ensures !Interpreted(Parse(input).command) ==> r == Reply(s, false, "Command not interpreted")
  {
    var inv := Parse(input);
    var command := inv.command;
    DisconnectIsOwnWord(command);
    WordsDiffer(command);
    if EqualsIgnoreCase(command, "/help") then Reply(s, false, cfg.help)
    else if EqualsIgnoreCase(command, "/getName") then Reply(s, false, GetName(s, name))
    else if EqualsIgnoreCase(command, "/setName") then SetName(cfg, s, name, inv.arguments)
    else if EqualsIgnoreCase(command, "/getAddress") then Reply(s, false, GetAddress(s, name))
    else if EqualsIgnoreCase(command, "/setAddress") then SetAddress(cfg, s, name, inv.arguments)
    else if EqualsIgnoreCase(command, "/disconnect") then Disconnect(s, name)
    else Reply(s, false, "Command not interpreted")
  }

  /** A word equal to "/disconnect" ignoring case equals no other command
      word. */
  lemma DisconnectIsOwnWord(c: string)
    ensures EqualsIgnoreCase(c, "/disconnect") ==>
              && !EqualsIgnoreCase(c, "/help") && !EqualsIgnoreCase(c, "/getName")
              && !EqualsIgnoreCase(c, "/setName") && !EqualsIgnoreCase(c, "/getAddress")
              && !EqualsIgnoreCase(c, "/setAddress")
  {
    if EqualsIgnoreCase(c, "/disconnect") {
      assert ToLowerAscii(c[1]) == 'd';
    }
  }

  /** The words `/getName` and `/setName`, and `/getAddress` and
      `/setAddress`, differ in their second letter whatever the case. */
  lemma WordsDiffer(c: string)
    ensures EqualsIgnoreCase(c, "/getName") ==> !EqualsIgnoreCase(c, "/setName")
    ensures EqualsIgnoreCase(c, "/getAddress") ==> !EqualsIgnoreCase(c, "/setAddress")
  {
    if |c| > 1 {
      assert ToLowerAscii(c[1]) == ToLowerAscii("/getName"[1]) ==> ToLowerAscii(c[1]) != ToLowerAscii("/setName"[1]);
    }
  }

  /** The command words the server interprets. */
  predicate Interpreted(command: string) {
    || EqualsIgnoreCase(command, "/help")
    || EqualsIgnoreCase(command, "/getName")
    || EqualsIgnoreCase(command, "/setName")
    || EqualsIgnoreCase(command, "/getAddress")
    || EqualsIgnoreCase(command, "/setAddress")
    || EqualsIgnoreCase(command, "/disconnect")
  }
}
