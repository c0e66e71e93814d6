/**
 What one HTTP connection comes to, for every input, told by the text of the request and
 of the answer (RFC 9110 section 9.3.6, RFC 7617 section 2).
 */
module HttpAnswers {
  import opened Wrappers
  import opened Addresses
  import opened Text
  import opened HttpReader
  import opened HttpConnect
  import HttpTarget

  /// Who is admitted

  // The request carries this user and password: as Basic credentials, cut at their first
  // colon.
  predicate Presents(codec: Codec, r: Request, user: string, password: string) {
    && "proxy-authorization" in r.headers
    && var header := r.headers["proxy-authorization"];
       "Basic " <= header && codec.decode(header[6..]) == Some(user + ":" + password) && ':' !in user
  }

  lemma LoginIsPresented(codec: Codec, r: Request, user: string, password: string)
    ensures LoginOf(codec, r) == Some(Login(user, password)) <==> Presents(codec, r, user, password)
  {
    if "proxy-authorization" in r.headers && "Basic " <= r.headers["proxy-authorization"] {
      match codec.decode(r.headers["proxy-authorization"][6..])
      case None =>
      case Some(credentials) => CutAtColon(credentials, user, password);
    }
  }

  lemma CutAtColon(credentials: string, user: string, password: string)
    ensures credentials == user + ":" + password && ':' !in user <==>
            Find(credentials, ':').Some?
            && var i := Find(credentials, ':').value; credentials[..i] == user && credentials[i+1..] == password
  {
    if credentials == user + ":" + password && ':' !in user {
      FindAt(user, ':', password);
      assert credentials[..|user|] == user && credentials[|user|+1..] == password;
    }
    match Find(credentials, ':')
    case None =>
    case Some(i) => assert credentials == credentials[..i] + ":" + credentials[i+1..];
  }

  // A request is admitted exactly when authentication is off, or it carries a user and a
  // password and there is a backend that says yes to them.
  lemma AdmittedExactly(codec: Codec, s: Server, r: Request)
    ensures ValidateAuth(codec, s, r) <==>
            !s.authEnabled
            || exists user, password ::
                 Presents(codec, r, user, password) && s.authenticator.Some?
                 && s.authenticator.value(user, password) == Ok(true)
  {
    hide LoginOf, Presents;
    match LoginOf(codec, r) {
      case Some(login) => LoginIsPresented(codec, r, login.user, login.password);
      case None =>
    }
    if user, password :| Presents(codec, r, user, password) && s.authenticator.Some?
                         && s.authenticator.value(user, password) == Ok(true) {
      LoginIsPresented(codec, r, user, password);
    }
  }

  /// Which requests are a CONNECT, and for what

  lemma ConnectTargetExactly(uri: string, host: string, port: U16)
    ensures ParseConnectUri(uri) == Some((host, port)) <==>
            exists field :: uri == host + ":" + field && ':' !in host && ':' !in field
                            && ParseUnsigned(field, 65535) == Some(port)
  {
    hide ParseUnsigned;
    if field :| uri == host + ":" + field && ':' !in host && ':' !in field
                && ParseUnsigned(field, 65535) == Some(port) {
      SplitAt(host, ':', field);
      FindNone(field, ':');
      assert uri == host + [':'] + field;
    }
    if ParseConnectUri(uri) == Some((host, port)) {
      hide Split;
      var parts := Split(uri, ':');
      JoinSplit(uri, ':');
      PartsHoldNoSeparator(uri, ':');
      assert parts[1..] == [parts[1]];
      assert Join(parts, ':') == parts[0] + [':'] + Join(parts[1..], ':');
      assert uri == host + ":" + parts[1];
    }
  }

  /// The answers

  // The beginning of an answer: its status line, and more lines if the reason holds them.
  function Status(code: string, reason: string): string {
    "HTTP/1.1 " + code + " " + reason + "\r\n"
  }

  // What the client is written when the target could not be connected.
  predicate Refused(response: string, c: Connection) {
    match c
    case Connected => false
    case BlockedByPolicy => Status("403", "Forbidden: Egress connection blocked by security policy") <= response
    case Unreachable(message) => Status("502", "Bad Gateway: " + message) <= response
  }

  lemma RefusalIsRefused(c: Connection)
    requires !c.Connected?
    ensures Refused(Refusal(c), c)
  {
    hide ErrorResponse, Status;
    match c
    case BlockedByPolicy => ErrorStatus(403, "403", "Forbidden: Egress connection blocked by security policy");
    case Unreachable(text) => ErrorStatus(502, "502", "Bad Gateway: " + text);
  }

  lemma ThreeDigits(n: nat)
    requires 100 <= n < 1000
    ensures var zero := '0' as nat;
            Decimal(n) == [(n / 100 + zero) as char, (n / 10 % 10 + zero) as char, (n % 10 + zero) as char]
  {
    assert Decimal(n / 10) == Decimal(n / 100) + [(n / 10 % 10 + '0' as nat) as char];
  }

  lemma ErrorStatus(status: nat, code: string, message: string)
    requires 100 <= status < 1000 && |code| == 3
    requires code[0] as nat == status / 100 + '0' as nat && code[1] as nat == status / 10 % 10 + '0' as nat
    requires code[2] as nat == status % 10 + '0' as nat
    ensures Status(code, message) <= ErrorResponse(status, message)
  {
    ThreeDigits(status);
    assert Decimal(status) == code;
    hide Decimal;
    var rest := "Content-Length: " + Decimal(|message|) + "\r\nConnection: close\r\n\r\n" + message;
    assert ErrorResponse(status, message) == Status(code, message) + rest;
  }

  // An error answer ends with its message, of the length that it announces.
  lemma ErrorEnds(status: nat, message: string)
    ensures var head := "HTTP/1.1 " + Decimal(status) + " " + message + "\r\nContent-Length: ";
            ErrorResponse(status, message) == head + Decimal(|message|) + "\r\nConnection: close\r\n\r\n" + message
  {
  }

  predicate AskedToLogIn(response: string) {
    Status("407", "Proxy Authentication Required\r\nProxy-Authenticate: Basic realm=\"Proxy\"") <= response
  }

  lemma UnadmittedIsTold(codec: Codec, s: Server, input: string)
    requires ReadLimited(input, s.maxSize).Ok?
    requires !ValidateAuth(codec, s, ReadLimited(input, s.maxSize).value.request)
    ensures var h := HandleConnection(codec, s, input); h.tunnel == None && AskedToLogIn(h.response)
  {
    hide ReadLimited, ValidateAuth, ErrorResponse, Status;
    ErrorStatus(407, "407", "Proxy Authentication Required\r\nProxy-Authenticate: Basic realm=\"Proxy\"");
  }

  // The target that a request names: of a CONNECT by its authority, of any other by its URI.
  function TargetOf(r: Request): Option<(string, U16)> {
    if Lower(r.verb) == "connect" then ParseConnectUri(r.uri) else HttpTarget.ParseProxyUri(r.uri)
  }

  // Every input: what the reader refuses is not answered. A request that is not admitted
  // is told to authenticate. An admitted one whose method is CONNECT, in any case of its
  // letters, gets a tunnel and 200 if its target connects; an admitted one with any other
  // method gets its target's own answer and no tunnel; both are told when the target is
  // out of bounds or out of reach, and get nothing when it cannot be read.
  lemma ConnectionExactly(codec: Codec, s: Server, input: string)
    ensures var h := HandleConnection(codec, s, input);
            match ReadLimited(input, s.maxSize)
            case Err(_) => h == Handled("", None)
            case Ok(Parsed(r, _)) =>
              if !ValidateAuth(codec, s, r) then h.tunnel == None && AskedToLogIn(h.response)
              else
                match TargetOf(r)
                case None => h == Handled("", None)
                case Some((host, port)) =>
                  if !s.connect(host, port).Connected? then
                    h.tunnel == None && Refused(h.response, s.connect(host, port))
                  else if Lower(r.verb) == "connect" then
                    h == Handled("HTTP/1.1 200 Connection Established\r\n\r\n", Some((host, port)))
                  else h == Handled(s.origin(r), None)
  {
    hide ReadLimited, ValidateAuth, ErrorResponse, ParseConnectUri, HttpTarget.ParseProxyUri;
    hide Refused, Refusal, IsConnect, AskedToLogIn;
    match ReadLimited(input, s.maxSize)
    case Err(_) =>
    case Ok(Parsed(r, _)) =>
      if !ValidateAuth(codec, s, r) {
        UnadmittedIsTold(codec, s, input);
      } else {
        ConnectIsInAnyCase(r.verb);
        match TargetOf(r)
        case None =>
        case Some((host, port)) =>
          if !s.connect(host, port).Connected? {
            RefusalIsRefused(s.connect(host, port));
          }
      }
  }

  // A request whose method is CONNECT never reaches an origin's answer.
  lemma ConnectIgnoresOrigin(codec: Codec, s: Server, input: string, origin: Request -> string)
    ensures match ReadLimited(input, s.maxSize)
            case Ok(Parsed(r, _)) =>
              Lower(r.verb) == "connect" ==>
                HandleConnection(codec, s.(origin := origin), input) == HandleConnection(codec, s, input)
            case Err(_) => true
  {
    hide ReadLimited, LoginOf, ErrorResponse, ParseConnectUri, IsConnect;
    match ReadLimited(input, s.maxSize)
    case Err(_) =>
    case Ok(Parsed(r, _)) => ConnectIsInAnyCase(r.verb);
  }
}
