/**
 The target of a request that is forwarded rather than tunnelled: `parse_proxy_uri` of
 `src/http_proxy.rs`.
 */
module HttpTarget {
  import opened Wrappers
  import opened Addresses
  import opened Text

  function StripScheme(uri: string): string {
    if "http://" <= uri then uri[7..] else if "https://" <= uri then uri[8..] else uri
  }

  function ParseProxyUri(uri: string): Option<(string, U16)> {
    var parts := Split(Split(StripScheme(uri), '/')[0], ':');
    if parts[0] == "" then None
    else if |parts| > 1 then
      match ParseUnsigned(parts[1], 65535)
      case None => None
      case Some(port) => Some((parts[0], port))
    else Some((parts[0], if "https://" <= uri then 443 else 80))
  }

  datatype Scheme = Http | Https | Absent
  {
    function Text(): string {
      match this case Http => "http://" case Https => "https://" case Absent => ""
    }
  }

  datatype Uri = Uri(scheme: Scheme, host: string, port: Option<U16>, path: Option<string>)
  {
    function Authority(): string {
      host + (match port case None => "" case Some(n) => ":" + Decimal(n))
    }

    function Rest(): string {
      Authority() + (match path case None => "" case Some(p) => "/" + p)
    }

    function Render(): string {
      scheme.Text() + Rest()
    }

    // A host with neither delimiter, and without a scheme nothing that reads as one.
    predicate Writable() {
      && host != "" && ':' !in host && '/' !in host
      && (scheme == Absent ==> !("http://" <= Rest()) && !("https://" <= Rest()))
    }

    function DefaultPort(): U16 {
      if scheme == Https then 443 else 80
    }
  }

  lemma SchemeReadsBack(u: Uri)
    requires u.Writable()
    ensures StripScheme(u.Render()) == u.Rest()
    ensures "https://" <= u.Render() <==> u.scheme == Https
  {
    var t, r := u.scheme.Text(), u.Rest();
    assert (t + r)[|t|..] == r;
    match u.scheme
    case Http => assert (t + r)[4] == ':';
    case Https => assert (t + r)[4] == 's';
    case Absent => assert t + r == r;
  }

  lemma AuthorityReadsBack(u: Uri)
    requires u.Writable()
    ensures Split(u.Rest(), '/')[0] == u.Authority()
  {
    var a := u.Authority();
    if u.port.Some? {
      NotInDecimal(u.port.value, '/');
    }
    assert '/' !in a;
    match u.path
    case None =>
      assert u.Rest() == a;
      FindNone(a, '/');
    case Some(p) =>
      assert u.Rest() == a + ['/'] + p;
      SplitAt(a, '/', p);
  }

  lemma TwoParts(host: string, rest: string)
    requires ':' !in host
    ensures Split(host + ":" + rest, ':') == [host] + Split(rest, ':')
  {
    assert host + ":" + rest == host + [':'] + rest;
    SplitAt(host, ':', rest);
  }

  lemma AuthorityParts(host: string, field: string, more: string)
    requires ':' !in host && ':' !in field && (more == "" || more[0] == ':')
    ensures var parts := Split(host + ":" + field + more, ':');
            |parts| > 1 && parts[0] == host && parts[1] == field
  {
    hide Split;
    TwoParts(host, field + more);
    assert host + ":" + (field + more) == host + ":" + field + more;
    if more == "" {
      assert field + more == field;
      FindNone(field, ':');
    } else {
      TwoParts(field, more[1..]);
      assert field + ":" + more[1..] == field + more;
    }
  }

  // What stands between host and path is read as a port, up to a second colon; without a
  // host, or with a port that is not a number below 65536, there is no target.
  lemma PortTextDecides(scheme: string, host: string, field: string, more: string, tail: string)
    requires scheme in {"http://", "https://"}
    requires ':' !in host && '/' !in host && ':' !in field && '/' !in field && '/' !in more
    requires (more == "" || more[0] == ':') && (tail == "" || tail[0] == '/')
    ensures ParseProxyUri(scheme + (host + ":" + field + more + tail)) ==
              if host == "" || ParseUnsigned(field, 65535).None? then None
              else Some((host, ParseUnsigned(field, 65535).value))
  {
    hide ParseUnsigned, Split, StripScheme;
    StripsScheme(scheme, host + ":" + field + more + tail);
    FirstOfPath(host + ":" + field + more, tail);
    AuthorityParts(host, field, more);
  }

  lemma NoHostNoTarget(scheme: string, tail: string)
    requires scheme in {"http://", "https://"} && (tail == "" || tail[0] == '/')
    ensures ParseProxyUri(scheme + tail) == None
  {
    hide ParseUnsigned, StripScheme;
    StripsScheme(scheme, tail);
    FirstOfPath("", tail);
    assert "" + tail == tail;
    FindNone("", ':');
  }

  lemma StripsScheme(scheme: string, rest: string)
    requires scheme in {"http://", "https://"}
    ensures StripScheme(scheme + rest) == rest
  {
    var uri := scheme + rest;
    assert uri[|scheme|..] == rest;
    if scheme == "https://" {
      assert uri[4] == 's';
    }
  }

  lemma FirstOfPath(authority: string, tail: string)
    requires '/' !in authority && (tail == "" || tail[0] == '/')
    ensures Split(authority + tail, '/')[0] == authority
  {
    if tail == "" {
      assert authority + tail == authority;
      FindNone(authority, '/');
    } else {
      assert authority + tail == authority + ['/'] + tail[1..];
      SplitAt(authority, '/', tail[1..]);
    }
  }

  // The target of an absolute-form URI is its host and its port, or the port of its
  // scheme, whatever the path.
  lemma UriRoundTrip(u: Uri)
    requires u.Writable()
    ensures ParseProxyUri(u.Render()) == Some((u.host, if u.port.Some? then u.port.value else u.DefaultPort()))
  {
    hide StripScheme, Decimal, ParseUnsigned;
    SchemeReadsBack(u);
    AuthorityReadsBack(u);
    match u.port
    case None =>
      assert u.Authority() == u.host;
      FindNone(u.host, ':');
    case Some(n) =>
      NotInDecimal(n, ':');
      ParseDecimal(n, 65535);
      assert u.Authority() == u.host + [':'] + Decimal(n);
      SplitAt(u.host, ':', Decimal(n));
      FindNone(Decimal(n), ':');
  }
}
