/** The per-client record the server keeps (SC_ClientObject): name, routing
    address, time of the last query and spam counter. The socket, reader and
    writer are final; the model lets them stand as the record's identity,
    its key in the server's heap, which no operation rebinds. */
module ClientRecord {
  import opened JavaString

  /** A Java `short`. */
  type Short = x: int | -32768 <= x < 32768

  /** The cast `(short) n`: the 16-bit two's-complement value congruent to
      `n` modulo 2^16. */
  function ToShort(n: int): (r: Short)
    ensures (r - n) % 65536 == 0
    ensures -32768 <= n < 32768 ==> r == n
  {
    (n + 32768) % 65536 - 32768
  }

  /** The cast wraps: one more than the largest short is the smallest. */
  lemma ShortWraps()
    ensures ToShort(32767 + 1) == -32768
  {
  }

  datatype Client = Client(name: string, address: string, lastTime: int, spams: Short)

  /** The default name: "Client" followed by the socket's hash code. */
  function DefaultName(hash: int): (r: string)
    ensures |r| > 6 && r[..6] == "Client"
    ensures forall i | 6 <= i < |r| :: r[i] == '-' || '0' <= r[i] <= '9'
  {
    "Client" + IntToDecimal(hash)
  }

  /** Sockets with different hash codes get different default names. */
  lemma DefaultNameInjective(a: int, b: int)
    requires DefaultName(a) == DefaultName(b)
    ensures a == b
  {
    var x, y := IntToDecimal(a), IntToDecimal(b);
    assert x == DefaultName(a)[6..] && y == DefaultName(b)[6..];
    if a < 0 {
      assert DigitsValue(x[1..]) == DigitsValue(y[1..]);
    }
  }

  /** `new SC_ClientObject(socket)`: the default name, addressing the server,
      no query seen yet and no spam counted. */
  function NewClient(hash: int): (c: Client)
    ensures c.name == DefaultName(hash) && c.address == "Server"
    ensures c.lastTime == 0 && c.spams == 0
  {
    Client(DefaultName(hash), "Server", 0, 0)
  }

  /** `setName`: only the name changes, and reads back as set. */
  function WithName(c: Client, name: string): (r: Client)
    ensures r.name == name
    ensures r.address == c.address && r.lastTime == c.lastTime && r.spams == c.spams
  {
    c.(name := name)
  }

  /** `setAddress`: only the address changes, and reads back as set. */
  function WithAddress(c: Client, address: string): (r: Client)
    ensures r.address == address
    ensures r.name == c.name && r.lastTime == c.lastTime && r.spams == c.spams
  {
    c.(address := address)
  }

  /** `setLastTime`: only the time changes, and reads back as set. */
  function WithLastTime(c: Client, time: int): (r: Client)
    ensures r.lastTime == time
    ensures r.name == c.name && r.address == c.address && r.spams == c.spams
  {
    c.(lastTime := time)
  }

  /** `setSpams(int)` stores `(short) n`: the value reads back unchanged when
      it fits in a short, wrapped modulo 2^16 otherwise; nothing else changes. */
  function WithSpams(c: Client, n: int): (r: Client)
    ensures (r.spams - n) % 65536 == 0
    ensures -32768 <= n < 32768 ==> r.spams == n
    ensures r.name == c.name && r.address == c.address && r.lastTime == c.lastTime
  {
    c.(spams := ToShort(n))
  }
}
