/**
 `parse_proxy_url` of `src/upstream.rs` and the text it reads back.
 */
module ProxyUrl {
  import opened Wrappers
  import opened Addresses
  import opened Text

  datatype Protocol = Socks5 | Http

  datatype Proxy = Proxy(protocol: Protocol, host: string, port: U16,
                         username: Option<string>, password: Option<string>)

  function StripScheme(url: string): (Protocol, string) {
    if "socks5://" <= url then (Socks5, url[9..])
    else if "socks5h://" <= url then (Socks5, url[10..])
    else if "http://" <= url then (Http, url[7..])
    else if "https://" <= url then (Http, url[8..])
    else (Http, url)
  }

  // User name, password, and what follows the first '@'.
  function SplitCreds(rest: string): (Option<string>, Option<string>, string) {
    match Find(rest, '@')
    case None => (None, None, rest)
    case Some(at) =>
      var creds, hostPort := rest[..at], rest[at+1..];
      match Find(creds, ':')
      case None => (Some(creds), None, hostPort)
      case Some(colon) => (Some(creds[..colon]), Some(creds[colon+1..]), hostPort)
  }

  function SplitHostPort(hostPort: string): Option<(string, string)> {
    if hostPort != "" && hostPort[0] == '[' then
      match Find(hostPort, ']')
      case None => None
      case Some(close) =>
        var host := if close >= 1 then hostPort[1..close] else "";
        var restPort := hostPort[close+1..];
        Some((host, if restPort != "" && restPort[0] == ':' then restPort[1..] else ""))
    else
      match FindLast(hostPort, ':')
      case None => Some((hostPort, ""))
      case Some(colon) => Some((hostPort[..colon], hostPort[colon+1..]))
  }

  function FirstPart(s: string): string {
    Split(s, '/')[0]
  }

  function DefaultPort(p: Protocol): U16 {
    match p case Socks5 => 1080 case Http => 8080
  }

  function ParseProxyUrl(url: string): Option<Proxy> {
    var (protocol, rest) := StripScheme(url);
    var (username, password, hostPort) := SplitCreds(rest);
    match SplitHostPort(hostPort)
    case None => None
    case Some((hostText, portText)) =>
      var host, port := FirstPart(hostText), FirstPart(portText);
      if port == "" then Some(Proxy(protocol, host, DefaultPort(protocol), username, password))
      else
        match ParseUnsigned(port, 65535)
        case None => None
        case Some(n) => Some(Proxy(protocol, host, n, username, password))
  }

  /// Rendering

  datatype Scheme = Socks5Scheme | Socks5hScheme | HttpScheme | HttpsScheme | NoScheme
  {
    function Text(): string {
      match this
      case Socks5Scheme => "socks5://"
      case Socks5hScheme => "socks5h://"
      case HttpScheme => "http://"
      case HttpsScheme => "https://"
      case NoScheme => ""
    }

    function Protocol(): Protocol {
      if this == Socks5Scheme || this == Socks5hScheme then Socks5 else Http
    }
  }

  datatype Host = Plain(name: string) | Bracketed(name: string)
  {
    function Text(): string {
      match this
      case Plain(name) => name
      case Bracketed(name) => "[" + name + "]"
    }
  }

  datatype Url = Url(scheme: Scheme, user: Option<string>, password: Option<string>, host: Host, port: Option<U16>,
                     path: Option<string>)
  {
    function CredsText(): string {
      match user
      case None => ""
      case Some(u) => u + (match password case None => "" case Some(p) => ":" + p) + "@"
    }

    function PathText(): string {
      match path case None => "" case Some(p) => "/" + p
    }

    function PortText(): string {
      match port case None => "" case Some(n) => ":" + Decimal(n)
    }

    function HostPortText(): string {
      host.Text() + (PortText() + PathText())
    }

    function RestText(): string {
      CredsText() + HostPortText()
    }

    function Render(): string {
      scheme.Text() + RestText()
    }

    // What can be written without being read as something else.
    predicate Writable() {
      && (user.None? ==> password.None?)
      && (user.Some? ==> '@' !in user.value && ':' !in user.value)
      && (password.Some? ==> '@' !in password.value)
      && (user.None? ==> '@' !in host.name && '@' !in PathText())
      && (host.Plain? ==> ':' !in host.name && '/' !in host.name && (host.name != "" ==> host.name[0] != '['))
      && (host.Plain? ==> ':' !in PathText())
      && (host.Bracketed? ==> ']' !in host.name && '/' !in host.name)
      && (scheme.NoScheme? ==> StripScheme(RestText()) == (Http, RestText()))
    }

    function Parsed(): Proxy {
      var number := if port.Some? then port.value else if scheme.Protocol() == Socks5 then 1080 else 8080;
      Proxy(scheme.Protocol(), host.name, number, user, password)
    }
  }

  lemma SchemeReadsBack(u: Url)
    requires u.Writable()
    ensures StripScheme(u.Render()) == (u.scheme.Protocol(), u.RestText())
  {
    var t, r := u.scheme.Text(), u.RestText();
    assert (t + r)[|t|..] == r;
    match u.scheme
    case Socks5Scheme =>
    case Socks5hScheme => assert (t + r)[6] == 'h';
    case HttpScheme => assert (t + r)[0] == 'h';
    case HttpsScheme => assert (t + r)[0] == 'h' && (t + r)[4] == 's';
    case NoScheme => assert t + r == r;
  }

  lemma NoCreds(u: Url)
    requires u.Writable() && u.user.None?
    ensures '@' !in u.HostPortText()
  {
    hide Decimal;
    if u.port.Some? { NotInDecimal(u.port.value, '@'); }
  }

  lemma SplitAtCreds(creds: string, hostPort: string)
    requires '@' !in creds
    ensures SplitCreds(creds + ['@'] + hostPort) ==
              match Find(creds, ':')
              case None => (Some(creds), None, hostPort)
              case Some(colon) => (Some(creds[..colon]), Some(creds[colon+1..]), hostPort)
  {
    var rest := creds + ['@'] + hostPort;
    FindAt(creds, '@', hostPort);
    assert rest[..|creds|] == creds && rest[|creds|+1..] == hostPort;
  }

  lemma SplitPassword(user: string, password: string)
    requires ':' !in user
    ensures Find(user, ':') == None
    ensures var creds := user + [':'] + password;
            Find(creds, ':') == Some(|user|) && creds[..|user|] == user && creds[|user|+1..] == password
  {
    FindNone(user, ':');
    FindAt(user, ':', password);
  }

  lemma CredsText(u: Url, name: string)
    requires u.user == Some(name)
    ensures u.password.None? ==> u.RestText() == name + ['@'] + u.HostPortText()
    ensures u.password.Some? ==> u.RestText() == (name + [':'] + u.password.value) + ['@'] + u.HostPortText()
  {
    match u.password
    case None =>
    case Some(p) => Reassociate(name, ":", p);
  }

  lemma CredsReadBack(u: Url)
    requires u.Writable()
    ensures SplitCreds(u.RestText()) == (u.user, u.password, u.HostPortText())
  {
    var h := u.HostPortText();
    match u.user
    case None =>
      NoCreds(u);
      FindNone(h, '@');
      assert u.RestText() == h;
    case Some(name) =>
      CredsText(u, name);
      CredsSplit(u, name, h);
  }

  lemma CredsSplit(u: Url, name: string, h: string)
    requires u.Writable() && u.user == Some(name)
    ensures match u.password
            case None => SplitCreds(name + ['@'] + h) == (u.user, None, h)
            case Some(p) => SplitCreds((name + [':'] + p) + ['@'] + h) == (u.user, u.password, h)
  {
    hide SplitCreds, Find;
    match u.password
    case None =>
      SplitPassword(name, "");
      SplitAtCreds(name, h);
    case Some(p) =>
      SplitPassword(name, p);
      SplitAtCreds(name + [':'] + p, h);
  }

  lemma FirstPartOf(a: string, path: string)
    requires '/' !in a && (path == "" || path[0] == '/')
    ensures FirstPart(a + path) == a
  {
    if path == "" {
      assert a + path == a;
      FindNone(a, '/');
    } else {
      assert a + path == a + ['/'] + path[1..];
      SplitAt(a, '/', path[1..]);
    }
  }

  // The text after the host that is read as the port.
  function PortField(u: Url): string {
    match u.port
    case Some(n) => Decimal(n) + u.PathText()
    case None => ""
  }

  lemma PortReadsBack(u: Url)
    ensures FirstPart(PortField(u)) == match u.port case Some(n) => Decimal(n) case None => ""
  {
    match u.port
    case Some(n) =>
      NotInDecimal(n, '/');
      FirstPartOf(Decimal(n), u.PathText());
    case None => FindNone("", '/');
  }

  predicate HostOk(u: Url) {
    var r := SplitHostPort(u.HostPortText());
    r.Some? && r.value.1 == PortField(u) && FirstPart(r.value.0) == u.host.name
  }

  lemma NameAlone(name: string)
    requires '/' !in name
    ensures FirstPart(name) == name
  {
    FirstPartOf(name, "");
    assert name + "" == name;
  }

  lemma SplitBracketed(name: string, t: string)
    requires ']' !in name
    ensures SplitHostPort("[" + name + "]" + t) == Some((name, if t != "" && t[0] == ':' then t[1..] else ""))
  {
    var h := ("[" + name) + [']'] + t;
    FindAt("[" + name, ']', t);
    assert h[1..|name|+1] == name && h[|name|+2..] == t;
  }

  lemma BracketedReadsBack(u: Url)
    requires u.Writable() && u.host.Bracketed?
    ensures HostOk(u)
  {
    hide Decimal, SplitHostPort, FirstPart;
    var name, t := u.host.name, u.PortText() + u.PathText();
    SplitBracketed(name, t);
    NameAlone(name);
    if u.port.Some? {
      Reassociate(":", Decimal(u.port.value), u.PathText());
      assert t[1..] == PortField(u);
    }
  }

  lemma SplitAtPort(name: string, d: string)
    requires ':' !in d && (name != "" ==> name[0] != '[')
    ensures SplitHostPort(name + [':'] + d) == Some((name, d))
  {
    var h := name + [':'] + d;
    FindLastAt(name, ':', d);
    assert h[..|name|] == name && h[|name|+1..] == d;
  }

  lemma SplitNoPort(h: string)
    requires ':' !in h && (h != "" ==> h[0] != '[')
    ensures SplitHostPort(h) == Some((h, ""))
  {
    FindNone(h, ':');
  }

  lemma PlainPortText(u: Url, n: U16)
    requires u.host.Plain? && u.port == Some(n)
    ensures u.HostPortText() == u.host.name + [':'] + PortField(u)
  {
    hide Decimal;
    var d, path := Decimal(n), u.PathText();
    assert u.PortText() == ":" + d;
    Reassociate(":", d, path);
    Reassociate(u.host.name, ":", d + path);
  }

  lemma PlainWithPort(u: Url, n: U16)
    requires u.Writable() && u.host.Plain? && u.port == Some(n)
    ensures HostOk(u)
  {
    PlainPortText(u, n);
    NameAlone(u.host.name);
    assert ':' !in PortField(u) by { NotInDecimal(n, ':'); hide Decimal; }
    hide Decimal, SplitHostPort, FirstPart, PortField;
    SplitAtPort(u.host.name, PortField(u));
  }

  lemma PlainWithoutPort(u: Url)
    requires u.Writable() && u.host.Plain? && u.port.None?
    ensures HostOk(u)
  {
    var h := u.host.name + u.PathText();
    SplitNoPort(h);
    FirstPartOf(u.host.name, u.PathText());
    assert u.HostPortText() == h;
  }

  // A written proxy URL is read back part by part, with the default port of its protocol.
  lemma UrlRoundTrip(u: Url)
    requires u.Writable()
    ensures ParseProxyUrl(u.Render()) == Some(u.Parsed())
  {
    SchemeReadsBack(u);
    CredsReadBack(u);
    if u.host.Bracketed? {
      BracketedReadsBack(u);
    } else if u.port.Some? {
      PlainWithPort(u, u.port.value);
    } else {
      PlainWithoutPort(u);
    }
    PortReadsBack(u);
    if u.port.Some? {
      ParseDecimal(u.port.value, 65535);
    }
  }

  /// Ports and brackets that cannot be read

  lemma SchemeStrips(scheme: Scheme, rest: string)
    requires scheme != NoScheme
    ensures StripScheme(scheme.Text() + rest) == (scheme.Protocol(), rest)
  {
    var t := scheme.Text() + rest;
    assert t[|scheme.Text()|..] == rest;
    match scheme
    case Socks5Scheme =>
    case Socks5hScheme => assert t[6] == 'h';
    case HttpScheme => assert t[0] == 'h';
    case HttpsScheme => assert t[0] == 'h' && t[4] == 's';
  }

  lemma CredsStrip(u: Url, rest: string)
    requires u.Writable() && '@' !in rest
    ensures SplitCreds(u.CredsText() + rest) == (u.user, u.password, rest)
  {
    match u.user
    case None =>
      assert u.CredsText() + rest == rest;
      FindNone(rest, '@');
    case Some(name) =>
      CredsSplit(u, name, rest);
      match u.password {
        case None => assert u.CredsText() + rest == name + ['@'] + rest;
        case Some(p) =>
          Reassociate(name, ":", p);
          assert u.CredsText() + rest == (name + [':'] + p) + ['@'] + rest;
      }
  }

  // Any text in the place of the port: nothing stands for the default port, a number below
  // 65536 for itself, and every other text makes the URL unreadable.
  lemma PortTextDecides(u: Url, field: string)
    requires u.Writable() && u.host.Plain? && u.scheme != NoScheme
    requires '@' !in u.host.name && '@' !in field && ':' !in field && '/' !in field
    ensures var result := ParseProxyUrl(u.scheme.Text() + (u.CredsText() + (u.host.name + ":" + field)));
            if field == "" then
              var port := if u.scheme.Protocol() == Socks5 then 1080 else 8080;
              result == Some(Proxy(u.scheme.Protocol(), u.host.name, port, u.user, u.password))
            else
              match ParseUnsigned(field, 65535)
              case None => result == None
              case Some(n) => result == Some(Proxy(u.scheme.Protocol(), u.host.name, n, u.user, u.password))
  {
    hide StripScheme, SplitCreds, SplitHostPort, FirstPart, ParseUnsigned;
    var rest := u.host.name + ":" + field;
    SchemeStrips(u.scheme, u.CredsText() + rest);
    CredsStrip(u, rest);
    SplitAtPort(u.host.name, field);
    assert u.host.name + [':'] + field == rest;
    NameAlone(u.host.name);
    NameAlone(field);
  }

  // A bracket that is not closed makes the URL unreadable.
  lemma OpenBracketIsUnreadable(u: Url, name: string)
    requires u.Writable() && u.scheme != NoScheme && '@' !in name && ']' !in name
    ensures ParseProxyUrl(u.scheme.Text() + (u.CredsText() + ("[" + name))) == None
  {
    hide StripScheme, SplitCreds;
    SchemeStrips(u.scheme, u.CredsText() + ("[" + name));
    CredsStrip(u, "[" + name);
    FindNone("[" + name, ']');
  }
}
