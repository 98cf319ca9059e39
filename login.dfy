/**
 * The login page (ClientApp/static/js/login.js): it validates an
 * IP:PORT address, tests the connection by waiting for the server's
 * handshake, redirects to the dashboard with the host part, and can scan
 * the twenty nearest hosts of the local subnet on three common ports.
 * Sockets, timers and fetch are inputs here: the events a test connection
 * sees, whether an address answers, and the local address the page is
 * served from.
 */
module Login {
  import opened Wrappers
  import opened Text
  import opened Ipv4

  // ---------------------------------------------------------------- validateAddress

  /** The port group of the address pattern: one to five digits. */
  predicate PortPattern(p: string) {
    1 <= |p| <= 5 && AllDigits(p)
  }

  /** The whole-string address pattern, IP ':' PORT; the port text it captures. */
  function AddressMatch(s: string): Option<string> {
    var parts := Split(s, ':');
    if |parts| == 2 && DottedQuad(parts[0]) && PortPattern(parts[1]) then Some(parts[1]) else None
  }

  const MaxPort: nat := 65535

  /** validateAddress: the address itself when it matches and its port is 1..65535, else null. */
  function ValidateAddress(address: string): Option<string> {
    match AddressMatch(address)
    case None => None
    case Some(port) => if DecimalValue(port) < 1 || DecimalValue(port) > MaxPort then None else Some(address)
  }

  /** A dotted quad, ':' and one to five digits match, capturing the digits. */
  lemma AddressMatches(host: string, port: string)
    requires DottedQuad(host) && PortPattern(port)
    ensures AddressMatch(host + ":" + port) == Some(port)
  {
    QuadHasNoColon(host);
    SplitFront(host, port, ':');
    SplitWhole(port, ':');
  }

  /** Whatever matches is a dotted quad, ':' and the captured digits. */
  lemma MatchIsHostAndPort(s: string)
    requires AddressMatch(s).Some?
    ensures s == Split(s, ':')[0] + ":" + AddressMatch(s).value
    ensures DottedQuad(Split(s, ':')[0]) && PortPattern(AddressMatch(s).value)
  {
    JoinSplit(s, ':');
    var parts := Split(s, ':');
    assert parts[1..] == [parts[1]];
  }

  /**
   * For an address of the right shape the verdict depends on the port
   * alone: 1..65535 returns the address unchanged, 0 and anything above
   * 65535 return null.
   */
  lemma ValidateAddressIff(host: string, port: string)
    requires DottedQuad(host) && PortPattern(port)
    ensures ValidateAddress(host + ":" + port).Some? <==> 1 <= DecimalValue(port) <= MaxPort
    ensures ValidateAddress(host + ":" + port).Some? ==> ValidateAddress(host + ":" + port).value == host + ":" + port
  {
    AddressMatches(host, port);
  }

  /** An accepted address is returned unchanged and is a dotted quad with a port in 1..65535. */
  lemma ValidatedShape(s: string)
    requires ValidateAddress(s).Some?
    ensures ValidateAddress(s).value == s
    ensures s == RedirectHost(s) + ":" + AddressMatch(s).value
    ensures DottedQuad(RedirectHost(s)) && 1 <= DecimalValue(AddressMatch(s).value) <= MaxPort
  {
    MatchIsHostAndPort(s);
  }

  // ---------------------------------------------------------------- handleConnect

  /** The host part the dashboard is given: the text before the first ':'. */
  function RedirectHost(address: string): string {
    Split(address, ':')[0]
  }

  function RedirectUrl(address: string): string {
    "/?server=" + RedirectHost(address)
  }

  /** The redirect keeps the host of a well-formed address and drops its port. */
  lemma RedirectKeepsHost(host: string, port: string)
    requires DottedQuad(host) && PortPattern(port)
    ensures RedirectHost(host + ":" + port) == host
  {
    QuadHasNoColon(host);
    SplitFront(host, port, ':');
  }

  datatype ConnectOutcome =
    | Invalid                               // error shown, no connection attempted
    | Redirected(address: string, url: string)
    | Failed(address: string)               // the test connection was rejected

  /** The address the form hands to testConnection: the trimmed input, when it validates. */
  function Attempted(input: string): Option<string> {
    var address := Trim(input);
    if ValidateAddress(address).None? then None else Some(address)
  }

  /** handleConnect, given whether the test connection saw the handshake. */
  function HandleConnect(input: string, handshake: bool): ConnectOutcome {
    match Attempted(input)
    case None => Invalid
    case Some(address) => if handshake then Redirected(address, RedirectUrl(address)) else Failed(address)
  }

  /**
   * An invalid address is refused before any connection; a valid one is
   * tried as typed (trimmed) and, on success, the redirect names its
   * dotted-quad host.
   */
  lemma ConnectGuard(input: string, handshake: bool)
    ensures HandleConnect(input, handshake).Invalid? <==> ValidateAddress(Trim(input)).None?
    ensures !HandleConnect(input, handshake).Invalid? ==> HandleConnect(input, handshake).address == Trim(input)
    ensures HandleConnect(input, handshake).Redirected? ==>
      HandleConnect(input, handshake).url == "/?server=" + RedirectHost(Trim(input))
      && DottedQuad(RedirectHost(Trim(input)))
  {
    if ValidateAddress(Trim(input)).Some? {
      ValidatedShape(Trim(input));
    }
  }

  // ---------------------------------------------------------------- testConnection

  /** The fields of a parsed server message that the handshake test reads. */
  datatype Hello = Hello(kind: Option<string>, serverName: Option<string>)

  /** What a test socket sees; a message that is not JSON arrives as Received(None). */
  datatype SocketEvent = Opened | Received(parsed: Option<Hello>) | Errored | Closed | TimedOut

  const ServerName: string := "RAT_SERVER_V1.0"

  predicate IsHandshake(e: SocketEvent) {
    e.Received? && e.parsed == Some(Hello(Some("handshake"), Some(ServerName)))
  }

  /** An error, a close or the 5-second timeout rejects the test unless it has already succeeded. */
  predicate Rejects(e: SocketEvent) {
    e.Errored? || e.Closed? || e.TimedOut?
  }

  /** How the test connection settles: resolved, rejected, or still pending after the events. */
  function Handshake(events: seq<SocketEvent>): Option<bool> {
    if events == [] then None
    else if IsHandshake(events[0]) then Some(true)
    else if Rejects(events[0]) then Some(false)
    else Handshake(events[1..])
  }

  /** The test resolves exactly when the handshake arrives before any error, close or timeout. */
  lemma {:induction false} HandshakeIff(events: seq<SocketEvent>)
    ensures Handshake(events) == Some(true) <==>
      exists k :: 0 <= k < |events| && IsHandshake(events[k]) && forall j :: 0 <= j < k ==> !Rejects(events[j])
  {
    if events != [] && !IsHandshake(events[0]) && !Rejects(events[0]) {
      HandshakeIff(events[1..]);
      if Handshake(events) == Some(true) {
        var k :| 0 <= k < |events[1..]| && IsHandshake(events[1..][k]) && forall j :: 0 <= j < k ==> !Rejects(events[1..][j]);
        assert forall j :: 0 <= j < k + 1 ==> !Rejects(events[j]) by {
          forall j | 0 <= j < k + 1 ensures !Rejects(events[j]) {
            if j > 0 { assert events[j] == events[1..][j - 1]; }
          }
        }
        assert IsHandshake(events[k + 1]);
      }
      if exists k :: 0 <= k < |events| && IsHandshake(events[k]) && forall j :: 0 <= j < k ==> !Rejects(events[j]) {
        var k :| 0 <= k < |events| && IsHandshake(events[k]) && forall j :: 0 <= j < k ==> !Rejects(events[j]);
        assert k > 0;
        assert IsHandshake(events[1..][k - 1]);
        assert forall j :: 0 <= j < k - 1 ==> !Rejects(events[1..][j]) by {
          forall j | 0 <= j < k - 1 ensures !Rejects(events[1..][j]) {
            assert events[1..][j] == events[j + 1];
          }
        }
      }
    }
  }

  // ---------------------------------------------------------------- handleDiscover

  const CommonPorts: seq<nat> := [8080, 8081, 9000]

  /** parseInt on a string of digits and other text: the value of its leading digits, NaN (None) if there are none. */
  function LeadingDigits(s: string): (r: string)
    ensures |r| <= |s| && r == s[..|r|] && AllDigits(r)
    ensures |r| == |s| || !IsDigit(s[|r|])
  {
    if s != [] && IsDigit(s[0]) then [s[0]] + LeadingDigits(s[1..]) else []
  }

  function ParseLeadingInt(s: string): Option<nat> {
    var d := LeadingDigits(s);
    if d == [] then None else Some(DecimalValue(d))
  }

  /** The last octet of the local address, parsed; None when there is no fourth piece or no digits. */
  function CurrentHost(localIP: string): Option<nat> {
    var parts := Split(localIP, '.');
    if |parts| < 4 then None else ParseLeadingInt(parts[3])
  }

  /** lastIndexOf: the last position of c, or -1. */
  function LastIndexOf(s: string, c: char): (r: int)
    ensures -1 <= r < |s| && (r >= 0 ==> s[r] == c)
    ensures forall k :: r < k < |s| ==> s[k] != c
  {
    if s == [] then -1
    else if s[|s| - 1] == c then |s| - 1
    else LastIndexOf(s[..|s| - 1], c)
  }

  /** The subnet prefix: the local address up to its last '.' (all of it gone when there is none). */
  function Subnet(localIP: string): string {
    var last := LastIndexOf(localIP, '.');
    if last < 0 then "" else localIP[..last]
  }

  function Max(a: int, b: int): int { if a >= b then a else b }

  function Min(a: int, b: int): int { if a <= b then a else b }

  /** The hosts scanned: from max(1, h - 10) to min(254, h + 10); none when h is NaN. */
  function ScanHosts(localIP: string): (r: seq<nat>)
  {
    match CurrentHost(localIP)
    case None => []
    case Some(h) =>
      var lo, hi := Max(1, h as int - 10), Min(254, h as int + 10);
      seq(if hi >= lo then hi - lo + 1 else 0, k requires 0 <= k => (lo + k) as nat)
  }

  /** The hosts scanned are in 1..254, within 10 of the local host, at most 21 of them, in increasing order. */
  lemma ScanBounds(localIP: string)
    ensures |ScanHosts(localIP)| <= 21
    ensures forall k :: 0 <= k < |ScanHosts(localIP)| ==>
      1 <= ScanHosts(localIP)[k] <= 254 && -10 <= ScanHosts(localIP)[k] - CurrentHost(localIP).value <= 10
    ensures forall k :: 0 < k < |ScanHosts(localIP)| ==> ScanHosts(localIP)[k] == ScanHosts(localIP)[k - 1] + 1
  {
  }

  /** The address tried for one host and port. */
  function TestAddress(subnet: string, host: nat, port: nat): string {
    subnet + "." + NatToString(host) + ":" + NatToString(port)
  }

  /** The addresses tried for one host, port by port. */
  function AtHost(subnet: string, host: nat): (r: seq<string>)
    ensures |r| == |CommonPorts|
  {
    seq(|CommonPorts|, p requires 0 <= p < |CommonPorts| => TestAddress(subnet, host, CommonPorts[p]))
  }

  /** The p-th address tried for a host uses the p-th common port. */
  lemma AtHostPort(subnet: string, host: nat, p: nat)
    requires p < |CommonPorts|
    ensures AtHost(subnet, host)[p] == TestAddress(subnet, host, CommonPorts[p])
  {
  }

  /** Every address tried, host by host. */
  function Candidates(subnet: string, hosts: seq<nat>): seq<string> {
    if hosts == [] then [] else Candidates(subnet, hosts[..|hosts| - 1]) + AtHost(subnet, hosts[|hosts| - 1])
  }

  /** The addresses that answered, in the order they were tried. */
  function Filter(addrs: seq<string>, answers: string -> bool): seq<string> {
    if addrs == [] then []
    else Filter(addrs[..|addrs| - 1], answers) + (if answers(addrs[|addrs| - 1]) then [addrs[|addrs| - 1]] else [])
  }

  /** Only addresses that were tried and answered are kept, at most one per address tried. */
  lemma {:induction false} FilterSound(addrs: seq<string>, answers: string -> bool)
    ensures |Filter(addrs, answers)| <= |addrs|
    ensures forall k :: 0 <= k < |Filter(addrs, answers)| ==>
      Filter(addrs, answers)[k] in addrs && answers(Filter(addrs, answers)[k])
  {
    if addrs != [] {
      var front := addrs[..|addrs| - 1];
      FilterSound(front, answers);
      assert forall a :: a in front ==> a in addrs;
    }
  }

  /** An address that answers is kept: nothing that answered is missed. */
  lemma {:induction false} FilterKeeps(addrs: seq<string>, answers: string -> bool, a: string)
    requires a in addrs && answers(a)
    ensures a in Filter(addrs, answers)
  {
    var last := addrs[|addrs| - 1];
    if a != last {
      assert addrs == addrs[..|addrs| - 1] + [last];
      FilterKeeps(addrs[..|addrs| - 1], answers, a);
    }
  }

  /**
   * handleDiscover's scan: host by host and port by port, each address is
   * tried in turn and kept when it answers with the handshake.
   */
  method Discover(localIP: string, answers: string -> bool) returns (found: seq<string>)
    ensures found == Filter(Candidates(Subnet(localIP), ScanHosts(localIP)), answers)
  {
    var subnet := Subnet(localIP);
    found := [];
    var current := CurrentHost(localIP);
    if current.None? {
      return;
    }
    var startIP := Max(1, current.value as int - 10);
    var endIP := Min(254, current.value as int + 10);
    ghost var hosts := ScanHosts(localIP);
    HostsFrom(localIP, startIP, endIP);
    var i := startIP;
    while i <= endIP
      invariant ScanAfter(subnet, hosts, startIP, endIP, i, answers, found)
    {
      ghost var found0, i0 := found, i;
      found := TryPorts(subnet, i, answers, found);
      i := i + 1;
      ScanStep(subnet, hosts, startIP, endIP, i0, answers, found0, found);
    }
    ScanDone(subnet, hosts, startIP, endIP, i, answers, found);
  }

  /** The hosts scanned run from startIP to endIP. */
  predicate HostsRun(hosts: seq<nat>, startIP: int, endIP: int) {
    && |hosts| == (if endIP >= startIP then endIP - startIP + 1 else 0)
    && forall k :: 0 <= k < |hosts| ==> hosts[k] == startIP + k
  }

  /** The outer loop's state: the hosts before i are done. */
  predicate ScanAfter(subnet: string, hosts: seq<nat>, startIP: int, endIP: int, i: int, answers: string -> bool, found: seq<string>) {
    && HostsRun(hosts, startIP, endIP)
    && 1 <= startIP <= i && i - startIP <= |hosts| && (i <= endIP || i - startIP == |hosts|)
    && found == Filter(Candidates(subnet, hosts[..i - startIP]), answers)
  }

  /** One more host done. */
  lemma ScanStep(subnet: string, hosts: seq<nat>, startIP: int, endIP: int, i: int, answers: string -> bool,
                 found0: seq<string>, found: seq<string>)
    requires ScanAfter(subnet, hosts, startIP, endIP, i, answers, found0) && i <= endIP
    requires found == found0 + Filter(AtHost(subnet, i as nat), answers)
    ensures ScanAfter(subnet, hosts, startIP, endIP, i + 1, answers, found)
  {
    var j := i - startIP;
    assert hosts[..j + 1][..j] == hosts[..j];
    FilterAppend(Candidates(subnet, hosts[..j]), AtHost(subnet, i as nat), answers);
  }

  /** After the last host, every host is done. */
  lemma ScanDone(subnet: string, hosts: seq<nat>, startIP: int, endIP: int, i: int, answers: string -> bool, found: seq<string>)
    requires ScanAfter(subnet, hosts, startIP, endIP, i, answers, found) && i > endIP
    ensures found == Filter(Candidates(subnet, hosts), answers)
  {
    assert hosts[..i - startIP] == hosts;
  }

  /** The hosts scanned run from startIP to endIP. */
  lemma HostsFrom(localIP: string, startIP: int, endIP: int)
    requires CurrentHost(localIP).Some?
    requires startIP == Max(1, CurrentHost(localIP).value as int - 10)
    requires endIP == Min(254, CurrentHost(localIP).value as int + 10)
    ensures HostsRun(ScanHosts(localIP), startIP, endIP)
  {
  }

  /** The inner loop: the three common ports of one host, in order, each answering address appended. */
  method TryPorts(subnet: string, host: nat, answers: string -> bool, found0: seq<string>) returns (found: seq<string>)
    ensures found == found0 + Filter(AtHost(subnet, host), answers)
  {
    found := found0;
    var p := 0;
    ghost var here := AtHost(subnet, host);
    assert found == found0 + Filter(here[..0], answers);
    while p < |CommonPorts|
      invariant p <= |here| && found == found0 + Filter(here[..p], answers)
    {
      var testAddr := AtHost(subnet, host)[p];  // subnet.host:port for the p-th common port
      ghost var before, p0 := found, p;
      if answers(testAddr) {
        found := found + [testAddr];
      }
      p := p + 1;
      TryStep(found0, here, p0, testAddr, answers, before, found);
    }
    assert here[..p] == here;
  }

  /** One more address tried. */
  lemma TryStep(found0: seq<string>, here: seq<string>, p: nat, addr: string, answers: string -> bool,
                before: seq<string>, after: seq<string>)
    requires p < |here| && here[p] == addr && before == found0 + Filter(here[..p], answers)
    requires after == before + (if answers(addr) then [addr] else [])
    ensures after == found0 + Filter(here[..p + 1], answers)
  {
    assert here[..p + 1][..p] == here[..p];
  }

  /** Filtering two lists in a row is filtering each. */
  lemma {:induction false} FilterAppend(a: seq<string>, b: seq<string>, answers: string -> bool)
    ensures Filter(a + b, answers) == Filter(a, answers) + Filter(b, answers)
    decreases |b|
  {
    if b == [] {
      assert a + b == a;
    } else {
      var front := b[..|b| - 1];
      assert (a + b)[..|a + b| - 1] == a + front;
      FilterAppend(a, front, answers);
    }
  }

  // ---------------------------------------------------------------- the scan tries only valid addresses

  /** Three octets joined by dots: what is left of a dotted quad without its last octet. */
  predicate ThreeOctets(subnet: string) {
    var parts := Split(subnet, '.');
    |parts| == 3 && forall i :: 0 <= i < 3 ==> OctetPattern(parts[i])
  }

  /** A host number in 1..254 is written as an octet. */
  lemma HostIsOctet(host: nat)
    requires 1 <= host <= 254
    ensures OctetPattern(NatToString(host)) && DecimalValue(NatToString(host)) == host
  {
    NatToStringValue(host);
    ShortDecimal(host);
    OctetIff(NatToString(host));
  }

  /** Numbers below 1000 take at most three digits, below 100000 at most five. */
  lemma ShortDecimal(n: nat)
    ensures n < 1000 ==> |NatToString(n)| <= 3
    ensures n < 100000 ==> |NatToString(n)| <= 5
  {
    if n >= 10 {
      ShortDecimal(n / 10);
    }
  }

  /** Joining one more piece adds a separator and the piece. */
  lemma {:induction false} JoinSnoc(parts: seq<string>, x: string, c: char)
    requires |parts| >= 1
    ensures Join(parts + [x], c) == Join(parts, c) + [c] + x
  {
    if |parts| > 1 {
      assert (parts + [x])[1..] == parts[1..] + [x];
      JoinSnoc(parts[1..], x, c);
    }
  }

  /** The last separator of a + c + b, when b has none, is the one after a. */
  lemma {:induction false} LastSeparator(a: string, b: string, c: char)
    requires c !in b
    ensures LastIndexOf(a + [c] + b, c) == |a|
    decreases |b|
  {
    if b != [] {
      var s := a + [c] + b;
      assert s[..|s| - 1] == a + [c] + b[..|b| - 1];
      LastSeparator(a, b[..|b| - 1], c);
    }
  }

  /** The subnet of a dotted quad is its first three octets. */
  lemma SubnetOfQuad(localIP: string)
    requires DottedQuad(localIP)
    ensures ThreeOctets(Subnet(localIP))
  {
    var parts := Split(localIP, '.');
    QuadIsOctets(localIP);
    assert parts == parts[..3] + [parts[3]];
    JoinSnoc(parts[..3], parts[3], '.');
    OctetIff(parts[3]);
    LastSeparator(Join(parts[..3], '.'), parts[3], '.');
    assert Subnet(localIP) == Join(parts[..3], '.');
    forall i | 0 <= i < 3
      ensures '.' !in parts[i]
    {
      OctetIff(parts[i]);
    }
    SplitJoin(parts[..3], '.');
  }

  /** An address tried on a three-octet subnet, for a host in 1..254, passes validateAddress. */
  lemma TriedAddressValid(subnet: string, host: nat, port: nat)
    requires ThreeOctets(subnet) && 1 <= host <= 254 && port in CommonPorts
    ensures ValidateAddress(TestAddress(subnet, host, port)) == Some(TestAddress(subnet, host, port))
  {
    var parts := Split(subnet, '.');
    HostIsOctet(host);
    forall i | 0 <= i < 3
      ensures '.' !in parts[i]
    {
      OctetIff(parts[i]);
    }
    JoinSplit(subnet, '.');
    JoinSnoc(parts, NatToString(host), '.');
    var quad := parts + [NatToString(host)];
    QuadOfOctets(quad);
    NatToStringValue(port);
    ShortDecimal(port);
    ValidateAddressIff(subnet + "." + NatToString(host), NatToString(port));
  }

  /** Every address tried for hosts in 1..254 on a three-octet subnet passes validateAddress. */
  lemma {:induction false} CandidatesValid(subnet: string, hosts: seq<nat>)
    requires ThreeOctets(subnet) && forall k :: 0 <= k < |hosts| ==> 1 <= hosts[k] <= 254
    ensures |Candidates(subnet, hosts)| == |CommonPorts| * |hosts|
    ensures forall k :: 0 <= k < |Candidates(subnet, hosts)| ==>
      ValidateAddress(Candidates(subnet, hosts)[k]) == Some(Candidates(subnet, hosts)[k])
  {
    if hosts != [] {
      var front, last := hosts[..|hosts| - 1], hosts[|hosts| - 1];
      CandidatesValid(subnet, front);
      var here := AtHost(subnet, last);
      forall p | 0 <= p < |here|
        ensures ValidateAddress(here[p]) == Some(here[p])
      {
        AtHostPort(subnet, last, p);
        TriedAddressValid(subnet, last, CommonPorts[p]);
      }
      AllValidAppend(Candidates(subnet, front), here);
    }
  }

  lemma AllValidAppend(a: seq<string>, b: seq<string>)
    requires forall k :: 0 <= k < |a| ==> ValidateAddress(a[k]) == Some(a[k])
    requires forall k :: 0 <= k < |b| ==> ValidateAddress(b[k]) == Some(b[k])
    ensures forall k :: 0 <= k < |a + b| ==> ValidateAddress((a + b)[k]) == Some((a + b)[k])
  {
  }

  /**
   * On a page served from a dotted-quad address, discovery tries only
   * addresses the connect form accepts, three per scanned host, and
   * reports only those that answered.
   */
  lemma DiscoveryTriesValidAddresses(localIP: string, answers: string -> bool)
    requires DottedQuad(localIP)
    ensures var tried := Candidates(Subnet(localIP), ScanHosts(localIP));
      && |tried| == |CommonPorts| * |ScanHosts(localIP)|
      && (forall k :: 0 <= k < |tried| ==> ValidateAddress(tried[k]) == Some(tried[k]))
      && forall k :: 0 <= k < |Filter(tried, answers)| ==>
           ValidateAddress(Filter(tried, answers)[k]).Some? && answers(Filter(tried, answers)[k])
  {
    SubnetOfQuad(localIP);
    ScanBounds(localIP);
    CandidatesValid(Subnet(localIP), ScanHosts(localIP));
    FilterSound(Candidates(Subnet(localIP), ScanHosts(localIP)), answers);
  }
}
