/**
 The HTTP upstream client of `src/upstream.rs` asking this repository's own HTTP server
 for a tunnel (RFC 9110 section 9.3.6, RFC 7617 section 2).
 */
module HttpConnect {
  import opened Wrappers
  import opened Addresses
  import opened Text
  import opened TextLemmas
  import opened HttpReader
  import opened HttpForward
  import HttpTarget

  // Base64 as a pair of functions.
  datatype Codec = Codec(encode: string -> string, decode: string -> Option<string>)
  {
    ghost predicate Valid() {
      forall s :: decode(encode(s)) == Some(s) && (s != "" ==> IsWord(encode(s)) && ':' !in encode(s))
    }
  }

  type Authenticator = (string, string) -> Result<bool, string>

  datatype Connection = Connected | BlockedByPolicy | Unreachable(message: string)

  // `origin` is what comes back through the relay from the target of a forwarded request.
  datatype Server = Server(authEnabled: bool, authenticator: Option<Authenticator>, maxSize: nat,
                           connect: (string, U16) -> Connection, origin: Request -> string)

  datatype Login = Login(user: string, password: string)

  /// The client

  datatype Client = Client(host: string, port: U16, username: Option<string>, password: Option<string>)
  {
    function Target(): string {
      host + ":" + Decimal(port)
    }

    predicate HasCreds() { username.Some? && password.Some? }

    function Credentials(): string
      requires HasCreds()
    {
      username.value + ":" + password.value
    }
  }

  function ClientHeaderText(codec: Codec, c: Client): string {
    "Host: " + c.Target() + "\r\n"
    + (if c.HasCreds() then "Proxy-Authorization: Basic " + codec.encode(c.Credentials()) + "\r\n" else "")
    + "\r\n"
  }

  // What `http_connect_handshake` writes.
  function ConnectRequest(codec: Codec, c: Client): string {
    "CONNECT " + c.Target() + " HTTP/1.1\r\n" + ClientHeaderText(codec, c)
  }

  // Whether it takes the answer for an open tunnel. The header lines after a good
  // status line are skipped up to a blank one or the end of the stream.
  predicate TunnelOpen(response: string) {
    var line := Line(response);
    var parts := Words(line);
    "HTTP/" <= line && |parts| >= 2 && ParseUnsigned(parts[1], 65535) == Some(200)
  }

  // The reading half of `http_connect_handshake`: the status line, then the header
  // lines up to a blank one or the end of the stream.
  method ReadAnswer(stream: Stream) returns (ok: bool)
    modifies stream
    ensures ok == TunnelOpen(old(stream.rest))
  {
    hide Words, Line, Trim, TakesLine, LimitedLine;
    LimitedLineCases(stream.rest, |stream.rest| + 1);
    var responseLine, _ := stream.ReadLine(|stream.rest| + 1);
    LineIsLimitedLine(old(stream.rest), |old(stream.rest)| + 1, responseLine);
    if !("HTTP/" <= responseLine) { return false; }
    var parts := Words(responseLine);
    if |parts| < 2 { return false; }
    var status := ParseUnsigned(parts[1], 65535);
    if status.None? { return false; }
    if status.value != 200 { return false; }
    while true
      invariant TunnelOpen(old(stream.rest))
      decreases |stream.rest|
    {
      var header, _ := stream.ReadLine(|stream.rest| + 1);
      if header == "" {
        break;
      }
      if Trim(header) == "" {
        break;
      }
    }
    ok := true;
  }

  /// The server

  function UpperChar(c: char): char {
    if 'a' <= c <= 'z' then (c as int - 32) as char else c
  }

  predicate IsConnect(verb: string) {
    |verb| == 7 && forall i :: 0 <= i < 7 ==> UpperChar(verb[i]) == "CONNECT"[i]
  }

  // A method is CONNECT in any case of its letters.
  lemma ConnectIsInAnyCase(verb: string)
    ensures IsConnect(verb) <==> Lower(verb) == "connect"
  {
    var lower := "connect";
    if IsConnect(verb) {
      forall i | 0 <= i < 7 ensures Lower(verb)[i] == lower[i] {
        assert UpperChar(verb[i]) == "CONNECT"[i];
        SameLetter(verb[i], lower[i]);
      }
    } else if Lower(verb) == lower {
      forall i | 0 <= i < 7 ensures UpperChar(verb[i]) == "CONNECT"[i] {
        assert LowerChar(verb[i]) == lower[i];
      }
    }
  }

  lemma SameLetter(c: char, letter: char)
    requires 'a' <= letter <= 'z'
    ensures UpperChar(c) == UpperChar(letter) <==> LowerChar(c) == letter
  {
  }

  function ParseConnectUri(uri: string): Option<(string, U16)> {
    var parts := Split(uri, ':');
    if |parts| != 2 then None
    else
      match ParseUnsigned(parts[1], 65535)
      case None => None
      case Some(port) => Some((parts[0], port))
  }

  // The credentials that `validate_auth` takes from the request.
  function LoginOf(codec: Codec, r: Request): Option<Login> {
    if "proxy-authorization" !in r.headers then None
    else
      var header := r.headers["proxy-authorization"];
      if !("Basic " <= header) then None
      else
        match codec.decode(header[6..])
        case None => None
        case Some(credentials) =>
          match Find(credentials, ':')
          case None => None
          case Some(i) => Some(Login(credentials[..i], credentials[i+1..]))
  }

  predicate Accepts(s: Server, login: Login) {
    s.authenticator.Some? && s.authenticator.value(login.user, login.password) == Ok(true)
  }

  predicate ValidateAuth(codec: Codec, s: Server, r: Request) {
    !s.authEnabled || (LoginOf(codec, r).Some? && Accepts(s, LoginOf(codec, r).value))
  }

  function ErrorResponse(status: nat, message: string): string {
    "HTTP/1.1 " + Decimal(status) + " " + message + "\r\nContent-Length: " + Decimal(|message|)
    + "\r\nConnection: close\r\n\r\n" + message
  }

  // The answer when the target could not be connected.
  function Refusal(c: Connection): string
    requires !c.Connected?
  {
    match c
    case BlockedByPolicy => ErrorResponse(403, "Forbidden: Egress connection blocked by security policy")
    case Unreachable(message) => ErrorResponse(502, "Bad Gateway: " + message)
  }

  // One connection: what the client was written, and the tunnel that was opened.
  datatype Handled = Handled(response: string, tunnel: Option<(string, U16)>)

  // `handle_connect`
  function HandleConnect(s: Server, r: Request): Handled {
    match ParseConnectUri(r.uri)
    case None => Handled("", None)
    case Some((host, port)) =>
      var c := s.connect(host, port);
      if c.Connected? then Handled("HTTP/1.1 200 Connection Established\r\n\r\n", Some((host, port)))
      else Handled(Refusal(c), None)
  }

  // `handle_regular_proxy`: what it writes to the target is the subject of module
  // HttpForward; what the target answers is relayed as it is.
  function HandleRegularProxy(s: Server, r: Request): Handled {
    match HttpTarget.ParseProxyUri(r.uri)
    case None => Handled("", None)
    case Some((host, port)) =>
      var c := s.connect(host, port);
      Handled(if c.Connected? then s.origin(r) else Refusal(c), None)
  }

  // `handle_http_connection`
  function HandleConnection(codec: Codec, s: Server, input: string): Handled {
    match ReadLimited(input, s.maxSize)
    case Err(_) => Handled("", None)
    case Ok(p) =>
      if !ValidateAuth(codec, s, p.request) then
        Handled(ErrorResponse(407, "Proxy Authentication Required\r\nProxy-Authenticate: Basic realm=\"Proxy\""), None)
      else if IsConnect(p.request.verb) then HandleConnect(s, p.request)
      else HandleRegularProxy(s, p.request)
  }

  /// The two of them together

  // The request the server reads from the client's text.
  function TheHeaders(codec: Codec, c: Client): Headers {
    var h: Headers := map["host" := c.Target()];
    if c.HasCreds() then h["proxy-authorization" := "Basic " + codec.encode(c.Credentials())] else h
  }

  predicate NoSpace(host: string) {
    forall i :: 0 <= i < |host| ==> !IsSpace(host[i])
  }

  predicate GoodHost(host: string) {
    ':' !in host && NoSpace(host)
  }

  lemma TargetIsWord(c: Client)
    ensures NoSpace(c.host) <==> IsWord(c.Target())
  {
    var d := Decimal(c.port);
    assert forall i :: 0 <= i < |d| ==> IsDigit(d[i]);
    assert forall i :: 0 <= i < |c.host| ==> c.Target()[i] == c.host[i];
  }

  lemma WordIsValue(w: string)
    requires IsWord(w)
    ensures NormalValue(w)
  {
  }

  lemma BasicIsValue(w: string)
    requires IsWord(w)
    ensures NormalValue("Basic " + w)
  {
  }

  lemma LowerNames()
    ensures Lower("Host") == "host" && Lower("Proxy-Authorization") == "proxy-authorization"
  {
    var a, b := "Host", "Proxy-Authorization";
    assert forall i :: 0 <= i < |a| ==> Lower(a)[i] == "host"[i];
    assert forall i :: 0 <= i < |b| ==> Lower(b)[i] == "proxy-authorization"[i];
  }

  lemma HeaderTextSplits(codec: Codec, c: Client)
    ensures ClientHeaderText(codec, c) ==
              if c.HasCreds()
              then HeaderLine("Host", c.Target())
                   + (HeaderLine("Proxy-Authorization", "Basic " + codec.encode(c.Credentials())) + "\r\n")
              else HeaderLine("Host", c.Target()) + "\r\n"
  {
  }

  lemma NamesAreNormal()
    ensures Trimmed("Host") && ':' !in "Host" && '\n' !in "Host"
    ensures Trimmed("Proxy-Authorization") && ':' !in "Proxy-Authorization" && '\n' !in "Proxy-Authorization"
  {
  }

  lemma ReadTwoHeaders(host: string, value: string)
    requires NormalValue(host) && NormalValue(value)
    ensures var lines := HeaderLine("Host", host) + (HeaderLine("Proxy-Authorization", value) + "\r\n");
            ReadHeaders(lines, map[]) == (map["host" := host]["proxy-authorization" := value], |lines|)
    ensures var line := HeaderLine("Host", host) + "\r\n";
            ReadHeaders(line, map[]) == (map["host" := host], |line|)
  {
    hide ReadHeaders, Lower, HeaderLine, NormalValue, Trimmed;
    NamesAreNormal();
    LowerNames();
    var h1: Headers := map["host" := host];
    var h2 := h1["proxy-authorization" := value];
    assert "\r\n" + "" == "\r\n";
    ReadBlank("", h1);
    ReadBlank("", h2);
    ReadHeaderLine("Proxy-Authorization", value, "\r\n", h1);
    ReadHeaderLine("Host", host, HeaderLine("Proxy-Authorization", value) + "\r\n", map[]);
    ReadHeaderLine("Host", host, "\r\n", map[]);
  }

  lemma ReadClientHeaders(codec: Codec, c: Client)
    requires codec.Valid() && NoSpace(c.host)
    ensures ReadHeaders(ClientHeaderText(codec, c), map[]) == (TheHeaders(codec, c), |ClientHeaderText(codec, c)|)
  {
    hide ReadHeaders, IsWord, HeaderLine, ClientHeaderText, NormalValue;
    var host := c.Target();
    TargetIsWord(c);
    WordIsValue(host);
    HeaderTextSplits(codec, c);
    if c.HasCreds() {
      BasicIsValue(codec.encode(c.Credentials()));
      ReadTwoHeaders(host, "Basic " + codec.encode(c.Credentials()));
    } else {
      EmptyIsValue();
      ReadTwoHeaders(host, "");
    }
  }

  lemma EmptyIsValue()
    ensures NormalValue("")
  {
  }

  // What the client means its request to be read as.
  function Meant(codec: Codec, c: Client): Parsed {
    Parsed(Request("CONNECT", c.Target(), "HTTP/1.1", TheHeaders(codec, c)), |ConnectRequest(codec, c)|)
  }

  // The server reads the request as it is meant, and all of it, exactly when the host
  // holds no white space.
  lemma ServerReadsRequest(codec: Codec, c: Client)
    requires codec.Valid()
    ensures ReadUnlimited(ConnectRequest(codec, c)) == Ok(Meant(codec, c)) <==> NoSpace(c.host)
  {
    hide ReadUnlimited, ReadHeaders, Line, Trim, Words, ConnectRequest, RequestLine, ClientHeaderText;
    TargetIsWord(c);
    if NoSpace(c.host) {
      var r := Request("CONNECT", c.Target(), "HTTP/1.1", map[]);
      var rest := ClientHeaderText(codec, c);
      ReadRequestLine(r, rest);
      ReadClientHeaders(codec, c);
      RequestSplits(codec, c, r);
      ReadsAs(ConnectRequest(codec, c), RequestLine(r), rest, r, TheHeaders(codec, c), |rest|);
    } else if ReadUnlimited(ConnectRequest(codec, c)) == Ok(Meant(codec, c)) {
      ParsedIsNormal(ConnectRequest(codec, c));
    }
  }

  lemma RequestSplits(codec: Codec, c: Client, r: Request)
    requires r.verb == "CONNECT" && r.uri == c.Target() && r.version == "HTTP/1.1"
    ensures ConnectRequest(codec, c) == RequestLine(r) + ClientHeaderText(codec, c) && RequestLine(r) != ""
  {
    hide ClientHeaderText;
    assert RequestLine(r) == "CONNECT " + r.uri + " HTTP/1.1\r\n";
  }

  // Its target gives back host and port exactly when the host holds no colon, and nothing
  // at all when it does.
  lemma TargetReadsBack(c: Client)
    ensures ParseConnectUri(c.Target()) == Some((c.host, c.port)) <==> ':' !in c.host
    ensures ':' in c.host ==> ParseConnectUri(c.Target()) == None
  {
    var d := Decimal(c.port);
    ParseDecimal(c.port, 65535);
    assert ':' !in d;
    FindNone(d, ':');
    assert c.Target() == c.host + [':'] + d;
    if ':' in c.host {
      SplitAppend(c.host, ':', d);
      PartsHoldNoSeparator(c.host, ':');
    } else {
      SplitAt(c.host, ':', d);
    }
  }

  // The login in the client's credentials when they are cut at their first colon.
  function CutLogin(c: Client): Login
    requires c.HasCreds()
  {
    var u, p := c.username.value, c.password.value;
    match Find(u, ':')
    case None => Login(u, p)
    case Some(i) => Login(u[..i], u[i+1..] + ":" + p)
  }

  // The server takes that login, which is the client's own exactly when the user name
  // holds no colon.
  lemma LoginReadsBack(codec: Codec, c: Client, r: Request)
    requires codec.Valid() && r.headers == TheHeaders(codec, c)
    ensures LoginOf(codec, r) == if c.HasCreds() then Some(CutLogin(c)) else None
    ensures c.HasCreds() ==>
              c.Credentials() == CutLogin(c).user + ":" + CutLogin(c).password && ':' !in CutLogin(c).user
    ensures c.HasCreds() ==> (CutLogin(c) == Login(c.username.value, c.password.value) <==> ':' !in c.username.value)
  {
    if c.HasCreds() {
      var encoded := codec.encode(c.Credentials());
      assert ("Basic " + encoded)[6..] == encoded;
      var u, p := c.username.value, c.password.value;
      var first := CutLogin(c).user;
      var second := CutLogin(c).password;
      assert c.Credentials() == first + [':'] + second by {
        if ':' in u { Peel(u, |first|, ":" + p); }
      }
      FindAt(first, ':', second);
      assert c.Credentials()[..|first|] == first && c.Credentials()[|first|+1..] == second;
    }
  }

  lemma StatusWords(version: string, status: nat, rest: string)
    requires NoSpace(version)
    ensures var line := "HTTP/" + version + " " + Decimal(status) + " " + rest;
            var parts := Words(line);
            |parts| >= 2 && parts[1] == Decimal(status)
  {
    hide Decimal, Words;
    var d := Decimal(status);
    assert IsWord(d) by { DecimalIsWord(status); }
    var first, after := "HTTP/" + version, " " + (d + (" " + rest));
    assert IsWord(first);
    WordsCons(first, after);
    WordsSkip(d + (" " + rest));
    WordsCons(d, " " + rest);
    assert first + " " + d + " " + rest == first + after;
  }

  lemma DecimalIsWord(n: nat)
    ensures IsWord(Decimal(n))
  {
    var d := Decimal(n);
    assert forall i :: 0 <= i < |d| ==> IsDigit(d[i]);
  }

  // Whatever its version and the rest of the answer, the client takes it for a tunnel
  // exactly when its status is 200; an answer that does not begin with HTTP/ never is one.
  lemma StatusDecides(version: string, status: nat, rest: string)
    requires status <= 65535 && NoSpace(version)
    ensures TunnelOpen("HTTP/" + version + " " + Decimal(status) + " " + rest) <==> status == 200
    ensures !("HTTP/" <= rest) ==> !TunnelOpen(rest)
  {
    hide Words, Decimal;
    var head := "HTTP/" + version + " " + Decimal(status) + " ";
    var response := head + rest;
    LineKeepsHead(version, status, rest);
    StatusWords(version, status, Line(response)[|head|..]);
    assert head + Line(response)[|head|..] == Line(response);
    ParseDecimal(status, 65535);
    LineIsPrefix(rest);
  }

  lemma LineKeepsHead(version: string, status: nat, rest: string)
    requires NoSpace(version)
    ensures var head := "HTTP/" + version + " " + Decimal(status) + " ";
            var line := Line(head + rest);
            |head| <= |line| && line[..|head|] == head && "HTTP/" <= line
  {
    var d := Decimal(status);
    var head := "HTTP/" + version + " " + d + " ";
    DecimalIsWord(status);
    hide Decimal;
    var response := head + rest;
    assert forall k :: 0 <= k < |version| ==> version[k] != '\n';
    assert '\n' !in head;
    assert forall k :: 0 <= k < |head| ==> response[k] == head[k];
    LineIsPrefix(response);
    LineShape(response);
    LineReaches(head, rest);
    assert Line(response)[..|head|] == response[..|head|];
    assert head[..5] == "HTTP/";
  }

  lemma LineReaches(head: string, rest: string)
    requires '\n' !in head
    ensures |Line(head + rest)| >= |head|
  {
    var response := head + rest;
    assert forall k :: 0 <= k < |head| ==> response[k] == head[k];
  }

  predicate AuthPasses(s: Server, c: Client) {
    !s.authEnabled
    || (c.HasCreds() && s.authenticator.Some?
        && s.authenticator.value(CutLogin(c).user, CutLogin(c).password) == Ok(true))
  }

  // A request that is forwarded when it is admitted and its target connects.
  predicate Forwardable(r: Request) {
    Lower(r.verb) != "connect" && HttpTarget.ParseProxyUri(r.uri).Some?
  }

  // The target's own answer, when the request on `input` is forwarded and reaches it.
  function Relayed(codec: Codec, s: Server, input: string): Option<string> {
    match ReadLimited(input, s.maxSize)
    case Err(_) => None
    case Ok(p) =>
      if ValidateAuth(codec, s, p.request) && Forwardable(p.request) then
        var (host, port) := HttpTarget.ParseProxyUri(p.request.uri).value;
        if s.connect(host, port).Connected? then Some(s.origin(p.request)) else None
      else None
  }

  lemma RefusalDoesNotOpen(c: Connection)
    requires !c.Connected?
    ensures !TunnelOpen(Refusal(c))
  {
    hide TunnelOpen, ErrorResponse;
    match c
    case BlockedByPolicy => ErrorsDoNotOpen(403, "Forbidden: Egress connection blocked by security policy");
    case Unreachable(message) => ErrorsDoNotOpen(502, "Bad Gateway: " + message);
  }

  lemma ConnectIsAnswered(s: Server, r: Request)
    requires IsWord(r.uri)
    ensures var h := HandleConnect(s, r);
            (TunnelOpen(h.response) <==> h.tunnel.Some?) && (h.tunnel.Some? ==> GoodHost(h.tunnel.value.0))
  {
    hide TunnelOpen, ParseConnectUri, Refusal;
    NoAnswerOpensNothing();
    GoodAnswerOpens();
    ParsedHostIsGood(r.uri);
    match ParseConnectUri(r.uri)
    case None =>
    case Some((host, port)) =>
      if !s.connect(host, port).Connected? {
        RefusalDoesNotOpen(s.connect(host, port));
      }
  }

  lemma ForwardIsAnswered(s: Server, r: Request)
    ensures var h := HandleRegularProxy(s, r);
            && h.tunnel == None
            && match HttpTarget.ParseProxyUri(r.uri)
               case None => !TunnelOpen(h.response)
               case Some((host, port)) =>
                 if s.connect(host, port).Connected? then h.response == s.origin(r) else !TunnelOpen(h.response)
  {
    hide TunnelOpen, Refusal;
    NoAnswerOpensNothing();
    match HttpTarget.ParseProxyUri(r.uri)
    case None =>
    case Some((host, port)) =>
      if !s.connect(host, port).Connected? {
        RefusalDoesNotOpen(s.connect(host, port));
      }
  }

  lemma NormalUri(r: Request)
    requires Normal(r)
    ensures IsWord(r.uri)
  {
  }

  // On any input, the client would take the answer for an open tunnel exactly when the
  // server opened one, or relays a forwarded request's answer that reads like one; and a
  // server only ever opens one to a host without colon or white space.
  lemma AnswerMatchesTunnel(codec: Codec, s: Server, input: string)
    ensures var h, relayed := HandleConnection(codec, s, input), Relayed(codec, s, input);
            && (TunnelOpen(h.response) <==> h.tunnel.Some? || (relayed.Some? && TunnelOpen(relayed.value)))
            && (h.tunnel.Some? ==> GoodHost(h.tunnel.value.0))
  {
    hide ReadUnlimited, ReadLimited, TunnelOpen, ValidateAuth, IsConnect, ErrorResponse, GoodHost, Normal;
    hide HandleConnect, HandleRegularProxy, HttpTarget.ParseProxyUri;
    LimitOnlyRejects(input, s.maxSize);
    NoAnswerOpensNothing();
    ErrorsDoNotOpen(407, "Proxy Authentication Required\r\nProxy-Authenticate: Basic realm=\"Proxy\"");
    match ReadLimited(input, s.maxSize)
    case Err(_) =>
    case Ok(p) =>
      ParsedIsNormal(input);
      assert IsWord(p.request.uri) by { NormalUri(p.request); }
      ConnectIsInAnyCase(p.request.verb);
      ConnectIsAnswered(s, p.request);
      ForwardIsAnswered(s, p.request);
  }

  // With every server of this limit, the answer to `input` tells whether there is a tunnel.
  ghost predicate AnswerTells(codec: Codec, input: string, limit: nat) {
    forall s: Server :: s.maxSize == limit ==>
      var h := HandleConnection(codec, s, input);
      TunnelOpen(h.response) <==> h.tunnel.Some?
  }

  // Exactly when no request is read or it is a CONNECT, or its target cannot be read.
  lemma AnswerTellsExactlyWhen(codec: Codec, input: string, limit: nat)
    ensures AnswerTells(codec, input, limit) <==>
            match ReadLimited(input, limit) case Ok(p) => !Forwardable(p.request) case Err(_) => true
  {
    hide ReadLimited, TunnelOpen, LoginOf, HandleConnection, Forwardable;
    var ok := "HTTP/1.1 200 Connection Established\r\n\r\n";
    var open := Server(false, None, limit, (host, port) => Connected, r => ok);
    forall s: Server | s.maxSize == limit
      ensures var h := HandleConnection(codec, s, input);
              TunnelOpen(h.response) <==>
                h.tunnel.Some? || (Relayed(codec, s, input).Some? && TunnelOpen(Relayed(codec, s, input).value))
    {
      AnswerMatchesTunnel(codec, s, input);
    }
    GoodAnswerOpens();
    match ReadLimited(input, limit)
    case Err(_) =>
    case Ok(p) =>
      if Forwardable(p.request) {
        assert Relayed(codec, open, input) == Some(ok);
        ForwardOpensNone(codec, open, input);
        assert !AnswerTells(codec, input, limit);
      }
  }

  lemma ForwardOpensNone(codec: Codec, s: Server, input: string)
    requires Relayed(codec, s, input).Some?
    ensures HandleConnection(codec, s, input).tunnel == None
  {
    hide ReadLimited, LoginOf, IsConnect, ErrorResponse;
    ConnectIsInAnyCase(ReadLimited(input, s.maxSize).value.request.verb);
  }

  lemma NoAnswerOpensNothing()
    ensures !TunnelOpen("")
  {
  }

  lemma ParsedHostIsGood(uri: string)
    requires IsWord(uri)
    ensures ParseConnectUri(uri).Some? ==> GoodHost(ParseConnectUri(uri).value.0)
  {
    PartsHoldNoSeparator(uri, ':');
    FirstPartIsPrefix(uri, ':');
    var host := Split(uri, ':')[0];
    assert forall i :: 0 <= i < |host| ==> host[i] == uri[i];
  }

  // A request that is read as it is meant.
  lemma RequestIsHandled(codec: Codec, s: Server, c: Client)
    requires codec.Valid() && |ConnectRequest(codec, c)| < s.maxSize && NoSpace(c.host)
    ensures var h := HandleConnection(codec, s, ConnectRequest(codec, c));
            if AuthPasses(s, c) then h == HandleConnect(s, Meant(codec, c).request) else h.tunnel == None
  {
    hide ReadUnlimited, ReadLimited, ConnectRequest, LoginOf, ErrorResponse, TheHeaders, CutLogin;
    hide HandleConnect, HandleRegularProxy;
    ServerReadsRequest(codec, c);
    LimitOnlyRejects(ConnectRequest(codec, c), s.maxSize);
    LoginReadsBack(codec, c, Meant(codec, c).request);
    assert IsConnect("CONNECT");
  }

  // For every client whose request is within the server's limit: it returns Ok exactly
  // when the server opened a tunnel, and the server opens the client's own target exactly
  // when the host holds no colon and no white space, the server's own rules admit the
  // login, and the target connects. A host that holds a colon but no white space, an IPv6
  // address say, is refused at both ends.
  lemma ConnectAgrees(codec: Codec, s: Server, c: Client)
    requires codec.Valid() && |ConnectRequest(codec, c)| < s.maxSize
    ensures var h := HandleConnection(codec, s, ConnectRequest(codec, c));
            && (TunnelOpen(h.response) <==> h.tunnel.Some?)
            && (h.tunnel == Some((c.host, c.port)) <==>
                  GoodHost(c.host) && AuthPasses(s, c) && s.connect(c.host, c.port).Connected?)
            && (NoSpace(c.host) ==> h.tunnel == None || h.tunnel == Some((c.host, c.port)))
  {
    hide HandleConnection, ConnectRequest, TunnelOpen, ParseConnectUri, Refusal, TheHeaders, AuthPasses;
    ClientAsksForTunnel(codec, c, s);
    AnswerMatchesTunnel(codec, s, ConnectRequest(codec, c));
    if NoSpace(c.host) {
      RequestIsHandled(codec, s, c);
      TargetReadsBack(c);
    }
  }

  lemma ClientAsksForTunnel(codec: Codec, c: Client, s: Server)
    ensures Relayed(codec, s, ConnectRequest(codec, c)) == None
  {
    hide ReadUnlimited, ReadLimited, ConnectRequest, LoginOf;
    RequestIsSeen(codec, c);
    LimitOnlyRejects(ConnectRequest(codec, c), s.maxSize);
    assert IsConnect("CONNECT");
    ConnectIsInAnyCase("CONNECT");
  }

  /// Hosts with white space

  function RequestLineText(c: Client): string {
    "CONNECT " + c.Target() + " HTTP/1.1\r\n"
  }

  // The target that the first line of the client's request names, by its host: with a
  // line feed, the first of exactly two words before it; without one, the host less the
  // white space in front.
  function NamedTarget(c: Client): Option<(string, U16)> {
    match Find(c.host, '\n')
    case Some(i) =>
      var w := Words(c.host[..i]);
      if |w| == 2 then ParseConnectUri(w[0]) else None
    case None =>
      var host := TrimStart(c.host);
      if GoodHost(host) then Some((host, c.port)) else None
  }

  lemma FirstWord(rest: string)
    ensures Words("CONNECT " + rest) == ["CONNECT"] + Words(rest)
  {
    hide Words;
    assert IsWord("CONNECT");
    WordsCons("CONNECT", " " + rest);
    WordsSkip(rest);
    assert "CONNECT" + (" " + rest) == "CONNECT " + rest;
  }

  lemma LastWord(text: string)
    ensures Words(text + " HTTP/1.1\r\n") == Words(text) + ["HTTP/1.1"]
  {
    hide Words;
    var last := "HTTP/1.1";
    assert IsWord(last);
    WordsAppend(text, ' ', last + "\r\n");
    assert text + [' '] + (last + "\r\n") == text + " HTTP/1.1\r\n";
    WordsCons(last, "\r\n");
    WordsOfSpace("\r\n");
  }

  // The words of that line.
  lemma FirstLineWords(c: Client)
    ensures Words(Trim(Line(RequestLineText(c)))) ==
            match Find(c.host, '\n')
            case Some(i) => ["CONNECT"] + Words(c.host[..i])
            case None => ["CONNECT"] + (Words(c.Target()) + ["HTTP/1.1"])
  {
    hide Words, Trim, Decimal;
    var text := RequestLineText(c);
    WordsTrim(Line(text));
    match Find(c.host, '\n')
    case Some(i) =>
      var before, after := c.host[..i], c.host[i+1..] + (":" + Decimal(c.port)) + " HTTP/1.1\r\n";
      LineFeedInHost(c, before, after);
      LineOf("CONNECT " + before, after);
      FirstWord(before + "\n");
      WordsAppend(before, '\n', "");
      WordsOfSpace("");
      assert "CONNECT " + (before + "\n") == ("CONNECT " + before) + "\n" && before + ['\n'] + "" == before + "\n";
    case None =>
      WholeLine(c);
      FirstWord(c.Target() + " HTTP/1.1\r\n");
      LastWord(c.Target());
      assert "CONNECT " + (c.Target() + " HTTP/1.1\r\n") == text;
  }

  lemma LineFeedInHost(c: Client, before: string, after: string)
    requires Find(c.host, '\n').Some?
    requires var i := Find(c.host, '\n').value;
             before == c.host[..i] && after == c.host[i+1..] + (":" + Decimal(c.port)) + " HTTP/1.1\r\n"
    ensures RequestLineText(c) == ("CONNECT " + before) + "\n" + after && '\n' !in "CONNECT " + before
  {
    hide Decimal;
    var i := Find(c.host, '\n').value;
    assert c.host == before + "\n" + c.host[i+1..];
  }

  lemma WholeLine(c: Client)
    requires Find(c.host, '\n').None?
    ensures Line(RequestLineText(c)) == RequestLineText(c)
  {
    NotInDecimal(c.port, '\n');
    hide Decimal;
    var text := "CONNECT " + c.Target() + " HTTP/1.1\r";
    LineOf(text, "");
    assert text + "\n" + "" == RequestLineText(c);
  }

  lemma FirstLine(text: string, rest: string)
    requires '\n' in text
    ensures Line(text + rest) == Line(text)
  {
    var i := Find(text, '\n').value;
    var a, b := text[..i], text[i+1..];
    LineOf(a, b);
    LineOf(a, b + rest);
    assert text == a + "\n" + b && text + rest == a + "\n" + (b + rest);
  }

  // Without a line feed, three words are seen exactly when the target is one, and the
  // target is good exactly when the host is, both less the white space in front.
  lemma TargetIsNamed(c: Client)
    requires Find(c.host, '\n').None?
    ensures var w := Words(c.Target());
            NamedTarget(c) == if |w| == 1 then ParseConnectUri(w[0]) else None
  {
    hide Words, ParseConnectUri;
    var t := Client(TrimStart(c.host), c.port, None, None);
    TargetEnds(c);
    OneWord(c.Target());
    TargetIsWord(t);
    TargetReadsBack(t);
  }

  lemma TargetEnds(c: Client)
    ensures c.Target() != "" && !IsSpace(c.Target()[|c.Target()|-1])
    ensures TrimStart(c.Target()) == TrimStart(c.host) + ":" + Decimal(c.port)
  {
    var d, t := Decimal(c.port), c.Target();
    assert IsDigit(d[|d|-1]) && t[|t|-1] == d[|d|-1];
    hide Decimal;
    var i := AfterSpace(c.host, 0);
    assert forall k :: 0 <= k < |c.host| ==> t[k] == c.host[k];
    assert t[|c.host|] == ':';
    assert AfterSpace(t, 0) == i;
    assert t[i..] == c.host[i..] + ":" + d;
  }

  // What is seen of the request, whatever its host holds: a CONNECT, for the named target.
  lemma RequestIsSeen(codec: Codec, c: Client)
    ensures match ReadUnlimited(ConnectRequest(codec, c))
            case Ok(p) =>
              && p.used <= |ConnectRequest(codec, c)| && p.request.verb == "CONNECT"
              && NamedTarget(c) == ParseConnectUri(p.request.uri)
            case Err(_) => NamedTarget(c) == None
  {
    hide Words, Trim, Line, ParseConnectUri, ReadHeaders, NamedTarget;
    var text := RequestLineText(c);
    assert text[|text|-1] == '\n';
    FirstLine(text, ClientHeaderText(codec, c));
    assert ConnectRequest(codec, c) == text + ClientHeaderText(codec, c);
    hide ConnectRequest, ClientHeaderText, RequestLineText;
    FirstLineWords(c);
    NamedByWords(c);
    if ReadUnlimited(ConnectRequest(codec, c)).Ok? {
      UnlimitedStopsWell(ConnectRequest(codec, c));
    }
  }

  lemma NamedByWords(c: Client)
    ensures match Find(c.host, '\n')
            case Some(i) =>
              var w := Words(c.host[..i]);
              NamedTarget(c) == if |w| == 2 then ParseConnectUri(w[0]) else None
            case None =>
              var w := Words(c.Target());
              NamedTarget(c) == if |w| == 1 then ParseConnectUri(w[0]) else None
  {
    hide Words, ParseConnectUri;
    if Find(c.host, '\n').None? {
      TargetIsNamed(c);
    }
  }

  // A server without authentication connects to the target that is named.
  lemma NamedIsOpened(codec: Codec, s: Server, c: Client)
    requires |ConnectRequest(codec, c)| < s.maxSize && !s.authEnabled
    requires NamedTarget(c).Some? && s.connect(NamedTarget(c).value.0, NamedTarget(c).value.1).Connected?
    ensures HandleConnection(codec, s, ConnectRequest(codec, c)).tunnel == NamedTarget(c)
  {
    hide ReadUnlimited, ReadLimited, ConnectRequest, NamedTarget, ParseConnectUri, ErrorResponse;
    RequestIsSeen(codec, c);
    LimitOnlyRejects(ConnectRequest(codec, c), s.maxSize);
    assert IsConnect("CONNECT");
  }

  lemma OpenedIsNamed(codec: Codec, s: Server, c: Client)
    ensures var h := HandleConnection(codec, s, ConnectRequest(codec, c));
            h.tunnel.Some? ==> h.tunnel == NamedTarget(c)
  {
    hide ReadUnlimited, ReadLimited, ConnectRequest, NamedTarget, ParseConnectUri, ErrorResponse, LoginOf;
    RequestIsSeen(codec, c);
    LimitOnlyRejects(ConnectRequest(codec, c), s.maxSize);
    assert IsConnect("CONNECT");
  }

  // Every server with room for the request gives a client that returns Ok its own target.
  ghost predicate OkMeansOwn(codec: Codec, c: Client) {
    forall s: Server :: |ConnectRequest(codec, c)| < s.maxSize ==>
      var h := HandleConnection(codec, s, ConnectRequest(codec, c));
      TunnelOpen(h.response) ==> h.tunnel == Some((c.host, c.port))
  }

  // A host text that names a target other than itself: before its first line feed stand
  // two words, the first of them a name, a colon and a port; or it has no line feed, but
  // white space in front of what is otherwise a good host.
  predicate NamesAnother(host: string) {
    match Find(host, '\n')
    case Some(i) => var w := Words(host[..i]); |w| == 2 && ParseConnectUri(w[0]).Some?
    case None => TrimStart(host) != host && GoodHost(TrimStart(host))
  }

  lemma AnotherIsNamed(c: Client)
    ensures NamesAnother(c.host) <==> NamedTarget(c).Some? && !GoodHost(c.host)
  {
    hide Words, ParseConnectUri;
    match Find(c.host, '\n')
    case Some(i) => assert IsSpace(c.host[i]);
    case None =>
      if c.host != "" && IsSpace(c.host[0]) {
        assert !NoSpace(c.host);
      } else {
        assert AfterSpace(c.host, 0) == 0;
      }
  }

  // Exactly when its host does not name another target.
  lemma OkMeansOwnExactlyWhen(codec: Codec, c: Client)
    requires codec.Valid()
    ensures OkMeansOwn(codec, c) <==> !NamesAnother(c.host)
  {
    hide HandleConnection, TunnelOpen, ConnectRequest, NamedTarget, NamesAnother;
    AnotherIsNamed(c);
    var open := Server(false, None, |ConnectRequest(codec, c)| + 1, (host, port) => Connected, r => "");
    if NamesAnother(c.host) {
      NamedIsOpened(codec, open, c);
      ConnectAgrees(codec, open, c);
      assert !OkMeansOwn(codec, c);
    } else {
      forall s: Server | |ConnectRequest(codec, c)| < s.maxSize
        ensures var h := HandleConnection(codec, s, ConnectRequest(codec, c));
                TunnelOpen(h.response) ==> h.tunnel == Some((c.host, c.port))
      {
        ConnectAgrees(codec, s, c);
        OpenedIsNamed(codec, s, c);
      }
    }
  }

  // A host that itself spells the end of a request line sends the tunnel to the target
  // before it, and the client is told Ok.
  lemma HostTextMisdirects(codec: Codec, s: Server, c: Client, inner: Client, junk: string)
    requires c.host == inner.Target() + " HTTP/1.1\r\n" + junk && GoodHost(inner.host)
    requires |ConnectRequest(codec, c)| < s.maxSize && !s.authEnabled && s.connect(inner.host, inner.port).Connected?
    ensures var h := HandleConnection(codec, s, ConnectRequest(codec, c));
            && TunnelOpen(h.response) && h.tunnel == Some((inner.host, inner.port))
            && h.tunnel != Some((c.host, c.port))
  {
    hide HandleConnection, TunnelOpen, Words, ParseConnectUri;
    SpelledTarget(c, inner, junk);
    NamedIsOpened(codec, s, c);
    ClientAsksForTunnel(codec, c, s);
    AnswerMatchesTunnel(codec, s, ConnectRequest(codec, c));
    assert c.host[|inner.Target()|] == ' ';
  }

  lemma SpelledTarget(c: Client, inner: Client, junk: string)
    requires c.host == inner.Target() + " HTTP/1.1\r\n" + junk && GoodHost(inner.host)
    ensures NamedTarget(c) == Some((inner.host, inner.port))
  {
    hide Words, ParseConnectUri, Decimal;
    var t := inner.Target();
    var line := t + " HTTP/1.1\r";
    TargetIsWord(inner);
    TargetReadsBack(inner);
    assert '\n' !in line;
    FindAt(line, '\n', junk);
    assert c.host == line + ['\n'] + junk && c.host[..|line|] == line;
    WordsCons(t, " HTTP/1.1\r");
    WordsSkip("HTTP/1.1\r");
    assert " " + "HTTP/1.1\r" == " HTTP/1.1\r";
    assert IsWord("HTTP/1.1");
    WordsCons("HTTP/1.1", "\r");
    WordsOfSpace("\r");
    assert "HTTP/1.1" + "\r" == "HTTP/1.1\r";
    assert t + " HTTP/1.1\r" == line;
  }

  lemma GoodAnswerText()
    ensures "HTTP/" + "1.1" + " " + "200" + " " + "Connection Established\r\n\r\n"
            == "HTTP/1.1 200 Connection Established\r\n\r\n"
  {
  }

  lemma GoodAnswerOpens()
    ensures TunnelOpen("HTTP/1.1 200 Connection Established\r\n\r\n")
  {
    hide TunnelOpen, Decimal;
    StatusDecides("1.1", 200, "Connection Established\r\n\r\n");
    DecimalOf200();
    GoodAnswerText();
  }

  lemma DecimalOf200()
    ensures Decimal(200) == "200"
  {
    assert Decimal(2) == "2";
    assert Decimal(20) == "20";
  }

  lemma ErrorsDoNotOpen(status: nat, message: string)
    requires status <= 65535 && status != 200
    ensures !TunnelOpen(ErrorResponse(status, message))
  {
    hide TunnelOpen, Decimal;
    var rest := message + "\r\nContent-Length: " + Decimal(|message|) + "\r\nConnection: close\r\n\r\n" + message;
    StatusDecides("1.1", status, rest);
    assert "HTTP/" + "1.1" + " " == "HTTP/1.1 ";
    assert ErrorResponse(status, message) == "HTTP/1.1 " + Decimal(status) + " " + rest;
  }
}
