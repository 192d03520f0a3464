/** The PORT/PASV address codec of `ClientModel`: the six comma-separated
    numbers `h1,h2,h3,h4,p1,p2` that stand for an IPv4 address and a port,
    with port = p1 * 256 + p2. */
module AddrCodec {
  import opened PyBuiltins

  /** What `addr_to_ip_and_port` returns when it cannot find six fields. */
  const InvalidAddr: string := "system 0 invalid addr\r\n"

  /** What `addr_to_ip_and_port` hands back: the error string, an
      `(ip, port)` pair, or the `ValueError` that `int()` raises on a port
      field that is not a decimal literal. */
  datatype Decoded = Invalid(msg: string) | IpPort(ip: string, port: int) | NotAnInteger

  /** `addr_to_ip_and_port(addr)`: split on commas, then decode the fields. */
  function AddrToIpAndPort(addr: string): (d: Decoded)
    ensures d.Invalid? <==> |Split(addr, ',')| < 6
    ensures d.Invalid? ==> d.msg == InvalidAddr
  {
    DecodeFieldList(Split(addr, ','))
  }

  /** The decoding `addr_to_ip_and_port` applies to the comma-separated fields. */
  function DecodeFieldList(fields: seq<string>): Decoded
  {
    if |fields| < 6 then Invalid(InvalidAddr)
    else
      var ip := Join(fields[..4], '.');
      match (Int(fields[|fields| - 2]), Int(fields[|fields| - 1]))
      case (Some(hi), Some(lo)) => IpPort(ip, hi * 256 + lo)
      case _ => NotAnInteger
  }

  /** `ip_and_port_to_addr(ip, port)`: the dotted fields of `ip`, then
      `port / 256` and `port % 256`, joined with commas.
      Deliberate deviation, the only one in this module: the source writes
      `port / 256`, which Python 3 evaluates as float division (giving e.g.
      `"82.0"`); it is modelled as integer division, the evident intent. */
  function IpAndPortToAddr(ip: string, port: nat): (addr: string)
    ensures ',' !in ip ==> Split(addr, ',') == Split(ip, '.') + [Str(port / 256), Str(port % 256)]
  {
    var fields := Split(ip, '.') + [Str(port / 256), Str(port % 256)];
    if ',' !in ip then
      assert forall i :: 0 <= i < |fields| ==> ',' !in fields[i] by {
        forall i | 0 <= i < |fields| ensures ',' !in fields[i] {
          if i >= |fields| - 2 {
            assert AllDigits(fields[i]);
          }
        }
      }
      SplitJoin(fields, ',');
      Join(fields, ',')
    else
      Join(fields, ',')
  }

  /** Decoding an address made of comma-free fields: fewer than six fields
      give the error string; otherwise the ip is the first four fields
      joined with dots and the port is built from the LAST two fields only,
      with no range check on any field, and the fields in between are
      ignored. */
  lemma DecodeFields(fields: seq<string>)
    requires |fields| >= 1
    requires forall i :: 0 <= i < |fields| ==> ',' !in fields[i]
    ensures |fields| < 6 ==> AddrToIpAndPort(Join(fields, ',')) == Invalid(InvalidAddr)
    ensures |fields| >= 6 ==>
      AddrToIpAndPort(Join(fields, ',')) ==
        match (Int(fields[|fields| - 2]), Int(fields[|fields| - 1]))
        case (Some(hi), Some(lo)) => IpPort(Join(fields[..4], '.'), 256 * hi + lo)
        case _ => NotAnInteger
  {
    JoinDecodes(fields);
    if |fields| >= 6 {
      LongFieldList(fields);
    }
  }

  /** Joining comma-free fields and decoding decodes the fields themselves. */
  lemma JoinDecodes(fields: seq<string>)
    requires |fields| >= 1
    requires forall i :: 0 <= i < |fields| ==> ',' !in fields[i]
    ensures AddrToIpAndPort(Join(fields, ',')) == DecodeFieldList(fields)
  {
    SplitJoin(fields, ',');
  }

  /** Six or more fields decode by the last two alone. */
  lemma LongFieldList(fields: seq<string>)
    requires |fields| >= 6
    ensures DecodeFieldList(fields) ==
      match (Int(fields[|fields| - 2]), Int(fields[|fields| - 1]))
      case (Some(hi), Some(lo)) => IpPort(Join(fields[..4], '.'), 256 * hi + lo)
      case _ => NotAnInteger
  {
  }

  /** Encoding then decoding: an ip with fewer than four dotted fields is
      refused, and otherwise the decoded ip is its first four fields and the
      decoded port is the port, for every port (no 16-bit bound is needed
      under integer division). */
  lemma DecodeEncode(ip: string, port: nat)
    requires ',' !in ip
    ensures |Split(ip, '.')| < 4 ==> AddrToIpAndPort(IpAndPortToAddr(ip, port)) == Invalid(InvalidAddr)
    ensures |Split(ip, '.')| >= 4 ==>
      AddrToIpAndPort(IpAndPortToAddr(ip, port)) == IpPort(Join(Split(ip, '.')[..4], '.'), port)
  {
    EncodedDecodes(ip, port);
    if |Split(ip, '.')| >= 4 {
      DecodeNumberFields(Split(ip, '.'), port / 256, port % 256);
      assert 256 * (port / 256) + port % 256 == port;
    }
  }

  /** Four or more fields followed by two written numbers decode to the
      first four fields and the port those numbers stand for. */
  lemma DecodeNumberFields(g: seq<string>, a: nat, b: nat)
    requires |g| >= 4
    ensures DecodeFieldList(g + [Str(a), Str(b)]) == IpPort(Join(g[..4], '.'), 256 * a + b)
  {
    var f := g + [Str(a), Str(b)];
    LongFieldList(f);
    assert f[|f| - 2] == Str(a) && f[|f| - 1] == Str(b);
    IntStr(a);
    IntStr(b);
    assert f[..4] == g[..4];
  }

  /** Decoding an encoded address decodes the ip's dotted fields and the two port fields. */
  lemma EncodedDecodes(ip: string, port: nat)
    requires ',' !in ip
    ensures AddrToIpAndPort(IpAndPortToAddr(ip, port)) ==
      DecodeFieldList(Split(ip, '.') + [Str(port / 256), Str(port % 256)])
  {
  }

  /** The round trip: for an ip of exactly four dotted fields (a dotted
      quad, or any four comma-free fields) and any port,
      `addr_to_ip_and_port(ip_and_port_to_addr(ip, port)) == (ip, port)`. */
  lemma RoundTrip(ip: string, port: nat)
    requires ',' !in ip && |Split(ip, '.')| == 4
    ensures AddrToIpAndPort(IpAndPortToAddr(ip, port)) == IpPort(ip, port)
  {
    DecodeEncode(ip, port);
    var f := Split(ip, '.');
    assert f[..4] == f;
    JoinSplit(ip, '.');
  }
}
