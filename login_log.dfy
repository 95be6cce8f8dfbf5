/**
 * LoginLogger (useraudit/models.py): builds the columns of a LoginLog or
 * FailedLoginLog row from the username and the optional request, and appends
 * the row.
 */
module LoginLog {
  import opened Wrappers
  import opened Strings
  import opened Records
  import opened Store

  /** max_length of the user_agent column. */
  const UserAgentMaxLength: nat := 1000

  /** The comma-free pieces of a forwarded-for header, wrapped as present values. */
  function Present(xs: seq<string>): (r: seq<Option<string>>)
    ensures |r| == |xs|
    ensures forall i | 0 <= i < |xs| :: r[i] == Some(xs[i])
  {
    seq(|xs|, i requires 0 <= i < |xs| => Some(xs[i]))
  }

  /**
   * extract_ip_address: the client IP and the proxy chain. Without an
   * X-Forwarded-For header the peer address is the client and there is no
   * chain. With one, its first element is the client, and the chain is the
   * peer address followed by the remaining elements from the last to the
   * second, so it has as many entries as the header has elements.
   */
  function ExtractIpAddress(request: Request): (r: (Option<string>, Option<seq<Option<string>>>))
    ensures request.forwardedFor.None? ==> r == (request.remoteAddr, None)
    ensures request.forwardedFor.Some? ==>
      var elements := Split(request.forwardedFor.value, ',');
      && r.0 == Some(Strip(elements[0]))
      && r.1.Some? && |r.1.value| == |elements|
      && r.1.value[0] == request.remoteAddr
      && forall i | 1 <= i < |elements| :: r.1.value[i] == Some(Strip(elements[|elements| - i]))
  {
    match request.forwardedFor
    case None => (request.remoteAddr, None)
    case Some(forwardedFor) =>
      var closestProxy := request.remoteAddr;
      var forwardedForIps := StripAll(Split(forwardedFor, ','));
      var clientIp := forwardedForIps[0];
      var remaining := Reverse(forwardedForIps[1..]);
      ChainEntries(closestProxy, forwardedForIps);
      (Some(clientIp), Some([closestProxy] + Present(remaining)))
  }

  /** The chain is the peer followed by the elements after the first, last one first. */
  lemma ChainEntries(peer: Option<string>, ips: seq<string>)
    requires |ips| >= 1
    ensures var chain := [peer] + Present(Reverse(ips[1..]));
      && |chain| == |ips| && chain[0] == peer
      && forall i | 1 <= i < |ips| :: chain[i] == Some(ips[|ips| - i])
  {
    var rest := Reverse(ips[1..]);
    var chain := [peer] + Present(rest);
    forall i | 1 <= i < |ips|
      ensures chain[i] == Some(ips[|ips| - i])
    {
      assert chain[i] == Present(rest)[i - 1] == Some(rest[i - 1]);
      assert rest[i - 1] == ips[1..][|ips| - 1 - i];
    }
  }

  /**
   * The user agent as stored: one longer than the column is cut to exactly
   * the column's length, keeping its beginning; a shorter one is unchanged.
   */
  function TruncateUserAgent(userAgent: Option<string>): (r: Option<string>)
    ensures userAgent.None? ==> r.None?
    ensures userAgent.Some? && |userAgent.value| <= UserAgentMaxLength ==> r == userAgent
    ensures userAgent.Some? && |userAgent.value| > UserAgentMaxLength ==>
      r.Some? && |r.value| == UserAgentMaxLength && r.value <= userAgent.value
  {
    match userAgent
    case Some(agent) => if |agent| > UserAgentMaxLength then Some(agent[..UserAgentMaxLength]) else userAgent
    case None => None
  }

  /** `",".join(proxies or [])`: fails with TypeError when an entry is None. */
  function JoinProxies(proxies: Option<seq<Option<string>>>): (r: Result<string, PyError>)
    ensures r.Failure? <==> proxies.Some? && exists i | 0 <= i < |proxies.value| :: proxies.value[i].None?
  {
    match proxies
    case None => Success("")
    case Some(ps) =>
      if forall i | 0 <= i < |ps| :: ps[i].Some?
      then Success(Join(",", seq(|ps|, i requires 0 <= i < |ps| => ps[i].value)))
      else Failure(TypeError)
  }

  /**
   * extract_log_info. Without a request every request-derived column is null
   * and forwarded_by is empty. Joining the proxy chain raises TypeError only
   * when the header is present but REMOTE_ADDR is not.
   */
  function ExtractLogInfo(username: Option<string>, request: Option<Request>): (r: Result<LogInfo, PyError>)
    ensures request.None? ==> r == Success(LogInfo(username, None, None, ""))
    ensures request.Some? && request.value.forwardedFor.None? ==>
      r == Success(LogInfo(username, request.value.remoteAddr, TruncateUserAgent(request.value.userAgent), ""))
    ensures r.Failure? <==> request.Some? && request.value.forwardedFor.Some? && request.value.remoteAddr.None?
    ensures r.Success? ==> r.value.username == username
  {
    match request
    case None => Success(LogInfo(username, None, None, JoinProxies(None).value))
    case Some(req) =>
      var (ipAddress, proxies) := ExtractIpAddress(req);
      var userAgent := TruncateUserAgent(req.userAgent);
      match JoinProxies(proxies)
      case Failure(e) => Failure(e)
      case Success(forwardedBy) => Success(LogInfo(username, ipAddress, userAgent, forwardedBy))
  }

  /** A chain whose entries are all present joins to its strings joined by commas. */
  lemma JoinPresent(chain: seq<string>)
    ensures JoinProxies(Some(Present(chain))) == Success(Join(",", chain))
  {
    var ps := Present(chain);
    assert seq(|ps|, i requires 0 <= i < |ps| => ps[i].value) == chain;
  }

  /** The chain extract_ip_address builds, with every entry present. */
  lemma ChainOfPresentPeer(req: Request)
    requires req.forwardedFor.Some? && req.remoteAddr.Some?
    ensures var proxies := ExtractIpAddress(req).1;
      var elements := StripAll(Split(req.forwardedFor.value, ','));
      && proxies.Some?
      && JoinProxies(proxies) == Success(Join(",", [req.remoteAddr.value] + Reverse(elements[1..])))
  {
    var elements := StripAll(Split(req.forwardedFor.value, ','));
    var rest := Reverse(elements[1..]);
    var chain := [req.remoteAddr.value] + rest;
    assert ExtractIpAddress(req).1 == Some([req.remoteAddr] + Present(rest));
    assert [req.remoteAddr] + Present(rest) == Present(chain);
    JoinPresent(chain);
  }

  /** No entry of a chain built from a peer address without commas contains a comma. */
  lemma ChainHasNoComma(peer: string, header: string)
    requires ',' !in peer
    ensures var chain := [peer] + Reverse(StripAll(Split(header, ','))[1..]);
      forall i | 0 <= i < |chain| :: ',' !in chain[i]
  {
    var pieces := Split(header, ',');
    var elements := StripAll(pieces);
    var chain := [peer] + Reverse(elements[1..]);
    forall i | 0 <= i < |chain| ensures ',' !in chain[i] {
      if i > 0 {
        assert chain[i] == Strip(pieces[|pieces| - i]);
        StripKeepsAbsence(pieces[|pieces| - i], ',');
      }
    }
  }

  /**
   * The stored forwarded_by column parses back into the proxy chain: its
   * comma-separated entries are the peer address and the header's remaining
   * elements in reverse, one entry per header element.
   */
  lemma ForwardedByParsesBack(username: Option<string>, req: Request)
    requires req.forwardedFor.Some? && req.remoteAddr.Some? && ',' !in req.remoteAddr.value
    ensures ExtractLogInfo(username, Some(req)).Success?
    ensures var elements := StripAll(Split(req.forwardedFor.value, ','));
      Split(ExtractLogInfo(username, Some(req)).value.forwardedBy, ',') == [req.remoteAddr.value] + Reverse(elements[1..])
    ensures |Split(ExtractLogInfo(username, Some(req)).value.forwardedBy, ',')| == |Split(req.forwardedFor.value, ',')|
  {
    var elements := StripAll(Split(req.forwardedFor.value, ','));
    var chain := [req.remoteAddr.value] + Reverse(elements[1..]);
    ChainOfPresentPeer(req);
    ChainHasNoComma(req.remoteAddr.value, req.forwardedFor.value);
    SplitJoin(chain, ',');
  }

  /** Stripping whitespace does not introduce a character. */
  lemma StripKeepsAbsence(s: string, c: char)
    requires c !in s
    ensures c !in Strip(s)
  {
    var l := TrimLeft(s);
    assert l == s[|s| - |l|..];
    assert TrimRight(l) == l[..|TrimRight(l)|];
  }

  /** Three comma-free pieces joined by commas split back into themselves. */
  lemma SplitThree(a: string, b: string, c: string)
    requires ',' !in a && ',' !in b && ',' !in c
    ensures Split(a + [','] + b + [','] + c, ',') == [a, b, c]
  {
    SplitNoSeparator(c, ',');
    SplitAt(b, ',', c);
    SplitAt(a, ',', b + [','] + c);
    assert a + [','] + b + [','] + c == a + [','] + (b + [','] + c);
  }

  /** An address as it appears between the commas of a header: non-empty, no surrounding blanks, no comma. */
  predicate Unpadded(s: string)
  {
    s != [] && !IsSpace(s[0]) && !IsSpace(s[|s| - 1]) && ',' !in s
  }

  /** A string that neither starts nor ends with whitespace strips to itself. */
  lemma StripUnpadded(s: string)
    requires Unpadded(s)
    ensures Strip(s) == s
  {
  }

  /** One leading blank is stripped away. */
  lemma StripLeadingBlank(s: string)
    requires Unpadded(s)
    ensures Strip([' '] + s) == s
  {
    assert ([' '] + s)[1..] == s;
  }

  /** With both headers present the row holds the first element and the chain joined by commas. */
  lemma BehindProxies(username: Option<string>, req: Request)
    requires req.forwardedFor.Some? && req.remoteAddr.Some?
    ensures var elements := StripAll(Split(req.forwardedFor.value, ','));
      ExtractLogInfo(username, Some(req))
        == Success(LogInfo(username, Some(elements[0]), TruncateUserAgent(req.userAgent), Join(",", [req.remoteAddr.value] + Reverse(elements[1..]))))
  {
    var pieces := Split(req.forwardedFor.value, ',');
    var elements := StripAll(pieces);
    var (ipAddress, proxies) := ExtractIpAddress(req);
    ChainOfPresentPeer(req);
    assert ipAddress == Some(Strip(pieces[0])) == Some(elements[0]);
    var forwardedBy := Join(",", [req.remoteAddr.value] + Reverse(elements[1..]));
    assert JoinProxies(proxies) == Success(forwardedBy);
    assert ExtractLogInfo(username, Some(req)) == Success(LogInfo(username, ipAddress, TruncateUserAgent(req.userAgent), forwardedBy));
  }

  /** A blank after each comma is a piece of its own to Split. */
  lemma BlankAfterComma(a: string, b: string, c: string)
    ensures a + ", " + b + ", " + c == a + [','] + ([' '] + b) + [','] + ([' '] + c)
  {
    assert ", " == [','] + [' '];
  }

  /** Stripping the three pieces of such a header. */
  lemma StripThree(a: string, b: string, c: string)
    requires Unpadded(a) && Unpadded(b) && Unpadded(c)
    ensures StripAll([a, [' '] + b, [' '] + c]) == [a, b, c]
  {
    StripUnpadded(a);
    StripLeadingBlank(b);
    StripLeadingBlank(c);
    StripAllThree(a, [' '] + b, [' '] + c);
  }

  /** StripAll on a three-element list. */
  lemma StripAllThree(x: string, y: string, z: string)
    ensures StripAll([x, y, z]) == [Strip(x), Strip(y), Strip(z)]
  {
    var stripped := StripAll([x, y, z]);
    var expected := [Strip(x), Strip(y), Strip(z)];
    assert stripped[0] == expected[0] && stripped[1] == expected[1] && stripped[2] == expected[2];
    ThreeEqual(stripped, expected);
  }

  /** Two three-element lists with the same elements are equal. */
  lemma ThreeEqual<T>(p: seq<T>, q: seq<T>)
    requires |p| == |q| == 3 && p[0] == q[0] && p[1] == q[1] && p[2] == q[2]
    ensures p == q
  {
  }

  /** The elements of a three-element header with a blank after each comma. */
  lemma ThreeElements(a: string, b: string, c: string)
    requires Unpadded(a) && Unpadded(b) && Unpadded(c)
    ensures StripAll(Split(a + ", " + b + ", " + c, ',')) == [a, b, c]
  {
    var b', c' := [' '] + b, [' '] + c;
    BlankAfterComma(a, b, c);
    SplitThree(a, b', c');
    StripThree(a, b, c);
  }

  lemma JoinThree(a: string, b: string, c: string)
    ensures Join(",", [a, b, c]) == a + "," + b + "," + c
  {
    assert [a, b, c][1..] == [b, c] && [b, c][1..] == [c];
    assert Join(",", [b, c]) == b + "," + c;
    assert a + "," + (b + "," + c) == a + "," + b + "," + c;
  }

  /**
   * A client behind two proxies: for the header "client, proxy1, proxy2" seen
   * from peer proxy3, the row's ip_address is the client and forwarded_by is
   * "proxy3,proxy2,proxy1" (nearest proxy first).
   */
  lemma TwoProxiesExample(username: Option<string>, peer: string, client: string, proxy1: string, proxy2: string, userAgent: Option<string>)
    requires Unpadded(client) && Unpadded(proxy1) && Unpadded(proxy2)
    ensures ExtractLogInfo(username, Some(Request(Some(peer), Some(client + ", " + proxy1 + ", " + proxy2), userAgent)))
         == Success(LogInfo(username, Some(client), TruncateUserAgent(userAgent), peer + "," + proxy2 + "," + proxy1))
  {
    var req := Request(Some(peer), Some(client + ", " + proxy1 + ", " + proxy2), userAgent);
    ThreeElements(client, proxy1, proxy2);
    var elements := [client, proxy1, proxy2];
    assert Reverse(elements[1..]) == [proxy2, proxy1];
    BehindProxies(username, req);
    assert [peer] + Reverse(elements[1..]) == [peer, proxy2, proxy1];
    JoinThree(peer, proxy2, proxy1);
  }

  /** The row log_failed_login / log_login would write, or the exception it raises first. */
  function Logged(log: seq<LogRow>, username: Option<string>, request: Option<Request>, now: int): (r: Result<seq<LogRow>, PyError>)
    ensures r.Success? ==> |r.value| == |log| + 1 && r.value[..|log|] == log && r.value[|log|].timestamp == now
    ensures r.Success? <==> ExtractLogInfo(username, request).Success?
    ensures r.Success? ==> r.value[|log|].info == ExtractLogInfo(username, request).value
  {
    match ExtractLogInfo(username, request)
    case Success(info) => Success(log + [LogRow(info, now)])
    case Failure(e) => Failure(e)
  }

  /**
   * log_failed_login: appends one FailedLoginLog row holding the columns
   * ExtractLogInfo computes, and touches nothing else.
   */
  function FailedLogged(d: Db, username: Option<string>, request: Option<Request>, now: int): (r: Run)
    ensures r.raised.None? <==> ExtractLogInfo(username, request).Success?
    ensures r.raised.None? ==> r.db == d.(failedLog := d.failedLog + [LogRow(ExtractLogInfo(username, request).value, now)])
    ensures r.raised.Some? ==> r.db == d
  {
    match Logged(d.failedLog, username, request, now)
    case Success(log) => Run(d.(failedLog := log), None)
    case Failure(e) => Run(d, Some(e))
  }

  /**
   * log_login: appends one LoginLog row holding the columns ExtractLogInfo
   * computes, and touches nothing else.
   */
  function SuccessLogged(d: Db, username: Option<string>, request: Option<Request>, now: int): (r: Run)
    ensures r.raised.None? <==> ExtractLogInfo(username, request).Success?
    ensures r.raised.None? ==> r.db == d.(loginLog := d.loginLog + [LogRow(ExtractLogInfo(username, request).value, now)])
    ensures r.raised.Some? ==> r.db == d
  {
    match Logged(d.loginLog, username, request, now)
    case Success(log) => Run(d.(loginLog := log), None)
    case Failure(e) => Run(d, Some(e))
  }

  method LogFailedLogin(db: Database, username: Option<string>, request: Option<Request>, now: int) returns (raised: Option<PyError>)
    modifies db
    ensures db.State() == FailedLogged(old(db.State()), username, request, now).db
    ensures raised == FailedLogged(old(db.State()), username, request, now).raised
  {
    var fields := ExtractLogInfo(username, request);
    match fields
    case Failure(e) =>
      raised := Some(e);
    case Success(info) =>
      db.failedLog := db.failedLog + [LogRow(info, now)];
      raised := None;
  }

  method LogLogin(db: Database, username: Option<string>, request: Option<Request>, now: int) returns (raised: Option<PyError>)
    modifies db
    ensures db.State() == SuccessLogged(old(db.State()), username, request, now).db
    ensures raised == SuccessLogged(old(db.State()), username, request, now).raised
  {
    var fields := ExtractLogInfo(username, request);
    match fields
    case Failure(e) =>
      raised := Some(e);
    case Success(info) =>
      db.loginLog := db.loginLog + [LogRow(info, now)];
      raised := None;
  }
}
