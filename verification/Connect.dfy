/**
 `connect_to_target` of `src/upstream.rs`: check, then connect, against a resolver that
 may answer differently on every call.
 */
module Connect {
  import opened Wrappers
  import opened Addresses
  import opened Text
  import opened Networks
  import opened Policy
  import opened ProxyUrl

  datatype Upstream = Upstream(enabled: bool, protocol: Option<Protocol>, address: Option<string>, port: Option<U16>,
                               username: Option<string>, password: Option<string>,
                               excludeNetworks: seq<string>, excludeDomains: seq<string>, preferEnv: bool)

  datatype Config = Config(security: Security, upstream: Upstream)

  // The parts of the process around a call: the address syntax, the environment
  // variables, and whether a resolver is passed in.
  datatype Env = Env(parse: AddressParser, vars: map<string, string>, hasResolver: bool)

  datatype Purpose = Direct | ToProxy

  datatype Event =
    | Lookup(name: string, found: seq<Ip>)
    | OpenAddress(ip: Ip, port: U16, purpose: Purpose)
    | OpenName(name: string, port: U16, purpose: Purpose)
    | Handshake(protocol: Protocol, target: string, targetPort: U16,
                username: Option<string>, password: Option<string>)

  datatype Failure = DomainBlocked | EgressBlocked(ip: Ip) | Unresolved | ConnectFailed

  // The world answers by the number of events so far, so nothing ties two answers
  // together. A failed lookup finds nothing.
  datatype World = World(lookup: (nat, string) -> seq<Ip>, opens: nat -> bool, handshake: nat -> bool)

  datatype Attempt = Attempt(events: seq<Event>, result: Result<(), Failure>)

  /// Upstream selection

  // `get_no_proxy_list`
  function NoProxyList(env: Env): seq<string> {
    if "NO_PROXY" in env.vars then Entries(env.vars["NO_PROXY"])
    else if "no_proxy" in env.vars then Entries(env.vars["no_proxy"])
    else []
  }

  function Entries(text: string): seq<string> {
    TrimAll(SplitAll(Split(text, ',')))
  }

  function SplitAll(parts: seq<string>): seq<string> {
    if parts == [] then [] else Split(parts[0], ' ') + SplitAll(parts[1..])
  }

  function TrimAll(parts: seq<string>): seq<string> {
    if parts == [] then []
    else (if Trim(parts[0]) == "" then [] else [Trim(parts[0])]) + TrimAll(parts[1..])
  }

  function EnvKeys(port: U16, isSocks5: bool): seq<string> {
    if isSocks5 then ["ALL_PROXY", "all_proxy", "HTTPS_PROXY", "https_proxy", "HTTP_PROXY", "http_proxy"]
    else if port == 443 then ["HTTPS_PROXY", "https_proxy", "ALL_PROXY", "all_proxy", "HTTP_PROXY", "http_proxy"]
    else ["HTTP_PROXY", "http_proxy", "ALL_PROXY", "all_proxy"]
  }

  // `lookup_env_proxy`: the first variable that holds a readable proxy URL.
  function FirstEnvProxy(env: Env, keys: seq<string>): Option<Proxy> {
    if keys == [] then None
    else if keys[0] in env.vars && Trim(env.vars[keys[0]]) != "" && ParseProxyUrl(Trim(env.vars[keys[0]])).Some?
    then ParseProxyUrl(Trim(env.vars[keys[0]]))
    else FirstEnvProxy(env, keys[1..])
  }

  function ConfiguredProxy(u: Upstream): Option<Proxy> {
    if u.enabled && u.protocol.Some? && u.address.Some? && u.port.Some?
    then Some(Proxy(u.protocol.value, u.address.value, u.port.value, u.username, u.password))
    else None
  }

  function ResolveUpstream(env: Env, cfg: Config, host: string, port: U16, ip: Option<Ip>, isSocks5: bool)
    : Option<Proxy>
  {
    var u := cfg.upstream;
    var fromEnv := FirstEnvProxy(env, EnvKeys(port, isSocks5));
    if Excluded(env.parse, host, ip, u.excludeNetworks, u.excludeDomains, NoProxyList(env)) then None
    else if u.preferEnv && fromEnv.Some? then fromEnv
    else if ConfiguredProxy(u).Some? then ConfiguredProxy(u)
    else if !u.preferEnv then fromEnv
    else None
  }

  function FirstSome(candidates: seq<Option<Proxy>>): Option<Proxy> {
    if candidates == [] then None
    else if candidates[0].Some? then candidates[0]
    else FirstSome(candidates[1..])
  }

  // An excluded target never goes to a proxy; any other goes to the first there is of
  // the environment's and the configured proxy, in the order `prefer_env` asks for.
  lemma UpstreamIsFirstCandidate(env: Env, cfg: Config, host: string, port: U16, ip: Option<Ip>, isSocks5: bool)
    ensures var u := cfg.upstream;
            var fromEnv, configured := FirstEnvProxy(env, EnvKeys(port, isSocks5)), ConfiguredProxy(u);
            ResolveUpstream(env, cfg, host, port, ip, isSocks5) ==
              if Excluded(env.parse, host, ip, u.excludeNetworks, u.excludeDomains, NoProxyList(env)) then None
              else FirstSome(if u.preferEnv then [fromEnv, configured] else [configured, fromEnv])
  {
    hide FirstEnvProxy, EnvKeys, ConfiguredProxy, Excluded, NoProxyList;
    var u := cfg.upstream;
    var fromEnv, configured := FirstEnvProxy(env, EnvKeys(port, isSocks5)), ConfiguredProxy(u);
    assert [fromEnv, configured][1..] == [configured] && [configured, fromEnv][1..] == [fromEnv];
    assert FirstSome([configured]) == configured && FirstSome([fromEnv]) == fromEnv;
  }

  // A variable that holds a proxy URL that can be read.
  function ProxyIn(env: Env, name: string): Option<Proxy> {
    if name in env.vars && Trim(env.vars[name]) != "" then ParseProxyUrl(Trim(env.vars[name])) else None
  }

  lemma {:induction false} FirstEnvProxyIsFirst(env: Env, keys: seq<string>, p: Proxy)
    ensures FirstEnvProxy(env, keys) == Some(p) <==>
            exists k :: 0 <= k < |keys| && ProxyIn(env, keys[k]) == Some(p)
                        && forall j :: 0 <= j < k ==> ProxyIn(env, keys[j]) == None
  {
    hide ParseProxyUrl, Trim;
    if keys != [] {
      var rest := keys[1..];
      FirstEnvProxyIsFirst(env, rest, p);
      assert forall k :: 0 <= k < |rest| ==> rest[k] == keys[k+1];
      assert forall k :: 0 < k < |keys| ==> keys[k] == rest[k-1];
      if FirstEnvProxy(env, keys) == Some(p) && ProxyIn(env, keys[0]) == None {
        var k :| 0 <= k < |rest| && ProxyIn(env, rest[k]) == Some(p)
                 && forall j :: 0 <= j < k ==> ProxyIn(env, rest[j]) == None;
        assert ProxyIn(env, keys[k+1]) == Some(p);
      }
    }
  }

  // The environment's proxy is that of the first readable variable: for a SOCKS5 request
  // of ALL_PROXY, HTTPS_PROXY and HTTP_PROXY, for one to port 443 of HTTPS_PROXY,
  // ALL_PROXY and HTTP_PROXY, for any other of HTTP_PROXY and ALL_PROXY, each before its
  // lower-case twin.
  lemma EnvProxyExactly(env: Env, port: U16, isSocks5: bool, p: Proxy)
    ensures var names :=
              if isSocks5 then ["ALL_PROXY", "all_proxy", "HTTPS_PROXY", "https_proxy", "HTTP_PROXY", "http_proxy"]
              else if port == 443 then
                ["HTTPS_PROXY", "https_proxy", "ALL_PROXY", "all_proxy", "HTTP_PROXY", "http_proxy"]
              else ["HTTP_PROXY", "http_proxy", "ALL_PROXY", "all_proxy"];
            FirstEnvProxy(env, EnvKeys(port, isSocks5)) == Some(p) <==>
            exists k :: 0 <= k < |names| && ProxyIn(env, names[k]) == Some(p)
                        && forall j :: 0 <= j < k ==> ProxyIn(env, names[j]) == None
  {
    hide ProxyIn, FirstEnvProxy;
    FirstEnvProxyIsFirst(env, EnvKeys(port, isSocks5), p);
  }

  // The configured proxy is there exactly when it is enabled and has protocol, address and
  // port, and it is what is configured.
  lemma ConfiguredExactly(u: Upstream, p: Proxy)
    ensures ConfiguredProxy(u) == Some(p) <==>
            && u.enabled && u.protocol == Some(p.protocol) && u.address == Some(p.host) && u.port == Some(p.port)
            && u.username == p.username && u.password == p.password
  {
  }

  lemma {:induction false} TrimmedParts(parts: seq<string>, e: string)
    ensures e in TrimAll(parts) <==> e != "" && exists p :: p in parts && Trim(p) == e
  {
    hide Trim;
    if parts != [] {
      var rest := parts[1..];
      TrimmedParts(rest, e);
      assert forall p :: p in parts <==> p == parts[0] || p in rest;
      assert e in TrimAll(parts) <==> (e != "" && e == Trim(parts[0])) || e in TrimAll(rest);
    }
  }

  lemma {:induction false} SplitParts(parts: seq<string>, p: string)
    ensures p in SplitAll(parts) <==> exists q :: q in parts && p in Split(q, ' ')
  {
    hide Split;
    if parts != [] {
      var rest := parts[1..];
      SplitParts(rest, p);
      assert forall q :: q in parts <==> q == parts[0] || q in rest;
      assert p in SplitAll(parts) <==> p in Split(parts[0], ' ') || p in SplitAll(rest);
      if p in Split(parts[0], ' ') {
        assert parts[0] in parts;
      }
      if q :| q in rest && p in Split(q, ' ') {
        assert q in parts;
      }
    }
  }

  // The NO_PROXY list, or the no_proxy list when that variable is not set, holds exactly
  // the trimmed and nonempty pieces of its text between commas and spaces.
  lemma NoProxyExactly(env: Env, e: string)
    ensures e in NoProxyList(env) <==>
            && e != "" && ("NO_PROXY" in env.vars || "no_proxy" in env.vars)
            && var text := if "NO_PROXY" in env.vars then env.vars["NO_PROXY"] else env.vars["no_proxy"];
               exists q, p :: IsPieceOf(text, ',', q) && IsPieceOf(q, ' ', p) && Trim(p) == e
  {
    hide Split, Trim, TrimAll, SplitAll;
    if "NO_PROXY" in env.vars || "no_proxy" in env.vars {
      var text := if "NO_PROXY" in env.vars then env.vars["NO_PROXY"] else env.vars["no_proxy"];
      var commas := Split(text, ',');
      TrimmedParts(SplitAll(commas), e);
      forall q ensures q in commas <==> IsPieceOf(text, ',', q) {
        SplitPieces(text, ',', q);
      }
      forall q, p ensures p in Split(q, ' ') <==> IsPieceOf(q, ' ', p) {
        SplitPieces(q, ' ', p);
      }
      forall p ensures p in SplitAll(commas) <==> exists q :: IsPieceOf(text, ',', q) && IsPieceOf(q, ' ', p) {
        SplitParts(commas, p);
      }
    }
  }

  /// One attempt

  predicate HasEgressRules(cfg: Config) {
    cfg.security.allowedEgress != [] || cfg.security.blockedEgress != []
  }

  predicate LooksLikeNetwork(env: Env, entry: string) {
    '/' in entry || env.parse(entry).Some?
  }

  predicate HasIpExclusions(env: Env, cfg: Config) {
    || (exists i :: 0 <= i < |cfg.upstream.excludeNetworks| && LooksLikeNetwork(env, cfg.upstream.excludeNetworks[i]))
    || (exists i :: 0 <= i < |NoProxyList(env)| && LooksLikeNetwork(env, NoProxyList(env)[i]))
  }

  predicate LooksUp(env: Env, cfg: Config, host: string) {
    env.parse(host).None? && (HasIpExclusions(env, cfg) || HasEgressRules(cfg))
  }

  // The one resolved set of an attempt that starts after `at` events.
  function Resolved(w: World, env: Env, cfg: Config, host: string, at: nat): seq<Ip> {
    match env.parse(host)
    case Some(ip) => [ip]
    case None => if LooksUp(env, cfg, host) then w.lookup(at, host) else []
  }

  function ResolveEvents(w: World, env: Env, cfg: Config, host: string, at: nat): seq<Event> {
    if LooksUp(env, cfg, host) then [Lookup(host, w.lookup(at, host))] else []
  }

  function First<T>(s: seq<T>): Option<T> {
    if s == [] then None else Some(s[0])
  }

  function FirstRefused(parse: AddressParser, sec: Security, ips: seq<Ip>): (r: Option<Ip>)
    ensures r.None? <==> forall i :: 0 <= i < |ips| ==> EgressAllowed(parse, sec, ips[i])
    ensures r.Some? ==>
              exists k :: 0 <= k < |ips| && r.value == ips[k] && !EgressAllowed(parse, sec, ips[k])
                          && forall i :: 0 <= i < k ==> EgressAllowed(parse, sec, ips[i])
  {
    if ips == [] then None
    else if !EgressAllowed(parse, sec, ips[0]) then Some(ips[0])
    else
      var r := FirstRefused(parse, sec, ips[1..]);
      assert forall i :: 0 < i < |ips| ==> ips[i] == ips[1..][i-1];
      assert forall i :: 0 <= i < |ips| - 1 ==> ips[1..][i] == ips[i+1];
      assert r.Some? ==>
        exists k :: 0 <= k < |ips| && r.value == ips[k] && !EgressAllowed(parse, sec, ips[k])
                    && forall i :: 0 <= i < k ==> EgressAllowed(parse, sec, ips[i]) by {
        if r.Some? {
          var k :| 0 <= k < |ips| - 1 && r.value == ips[1..][k] && !EgressAllowed(parse, sec, ips[1..][k])
                   && forall i :: 0 <= i < k ==> EgressAllowed(parse, sec, ips[1..][i]);
          assert r.value == ips[k+1];
        }
      }
      r
  }

  function OpenAt(w: World, at: nat, e: Event): Attempt {
    Attempt([e], if w.opens(at) then Ok(()) else Err(ConnectFailed))
  }

  // `connect_stream`: it resolves the name itself.
  function StreamTo(w: World, env: Env, host: string, port: U16, purpose: Purpose, at: nat): Attempt {
    match env.parse(host)
    case Some(ip) => OpenAt(w, at, OpenAddress(ip, port, purpose))
    case None =>
      if !env.hasResolver then OpenAt(w, at, OpenName(host, port, purpose))
      else
        var found := w.lookup(at, host);
        if found == [] then Attempt([Lookup(host, found)], Err(ConnectFailed))
        else
          var dialed := OpenAt(w, at + 1, OpenAddress(found[0], port, purpose));
          dialed.(events := [Lookup(host, found)] + dialed.events)
  }

  function Prepend(events: seq<Event>, a: Attempt): Attempt {
    a.(events := events + a.events)
  }

  function AfterChecks(w: World, env: Env, cfg: Config, host: string, port: U16, isSocks5: bool,
                       resolved: seq<Ip>, at: nat): Attempt {
    match ResolveUpstream(env, cfg, host, port, First(resolved), isSocks5)
    case Some(proxy) =>
      var a := StreamTo(w, env, proxy.host, proxy.port, ToProxy, at);
      if a.result.Err? then a
      else
        var e := Handshake(proxy.protocol, host, port, proxy.username, proxy.password);
        Attempt(a.events + [e], if w.handshake(at + |a.events|) then Ok(()) else Err(ConnectFailed))
    case None =>
      if HasEgressRules(cfg) then
        (match First(resolved)
         case Some(ip) => OpenAt(w, at, OpenAddress(ip, port, Direct))
         case None => Attempt([], Err(Unresolved)))
      else StreamTo(w, env, host, port, Direct, at)
  }

  // What the egress rules have against a resolved set.
  function EgressObjection(parse: AddressParser, cfg: Config, resolved: seq<Ip>): Option<Failure> {
    if !HasEgressRules(cfg) then None
    else if resolved == [] then Some(Unresolved)
    else
      match FirstRefused(parse, cfg.security, resolved)
      case Some(ip) => Some(EgressBlocked(ip))
      case None => None
  }

  function ConnectAttempt(w: World, env: Env, cfg: Config, host: string, port: U16, isSocks5: bool, at: nat): Attempt {
    if IsDomainBlocked(cfg.security, host) then Attempt([], Err(DomainBlocked))
    else
      var resolved, looked := Resolved(w, env, cfg, host, at), ResolveEvents(w, env, cfg, host, at);
      match EgressObjection(env.parse, cfg, resolved)
      case Some(failure) => Attempt(looked, Err(failure))
      case None => Prepend(looked, AfterChecks(w, env, cfg, host, port, isSocks5, resolved, at + |looked|))
  }

  /// The source's code, over a network that logs every lookup and every opened socket

  class Net {
    const world: World
    var log: seq<Event>

    constructor (world: World)
      ensures this.world == world && log == []
    {
      this.world := world;
      log := [];
    }

    method LookupName(name: string) returns (found: seq<Ip>)
      modifies this
      ensures found == world.lookup(|old(log)|, name)
      ensures log == old(log) + [Lookup(name, found)]
    {
      found := world.lookup(|log|, name);
      log := log + [Lookup(name, found)];
    }

    method Open(e: Event) returns (r: Result<(), Failure>)
      modifies this
      ensures Attempt([e], r) == OpenAt(world, |old(log)|, e)
      ensures log == old(log) + [e]
    {
      r := if world.opens(|log|) then Ok(()) else Err(ConnectFailed);
      log := log + [e];
    }

    // `socks5_connect_handshake` or `http_connect_handshake`, by the proxy's protocol.
    method Negotiate(protocol: Protocol, host: string, port: U16, username: Option<string>, password: Option<string>)
      returns (r: Result<(), Failure>)
      modifies this
      ensures r == if world.handshake(|old(log)|) then Ok(()) else Err(ConnectFailed)
      ensures log == old(log) + [Handshake(protocol, host, port, username, password)]
    {
      r := if world.handshake(|log|) then Ok(()) else Err(ConnectFailed);
      log := log + [Handshake(protocol, host, port, username, password)];
    }

    method ConnectStream(env: Env, host: string, port: U16, purpose: Purpose) returns (r: Result<(), Failure>)
      modifies this
      ensures var a := StreamTo(world, env, host, port, purpose, |old(log)|);
              r == a.result && log == old(log) + a.events
    {
      var parsed := env.parse(host);
      if parsed.Some? {
        r := Open(OpenAddress(parsed.value, port, purpose));
      } else if env.hasResolver {
        var found := LookupName(host);
        if found != [] {
          r := Open(OpenAddress(found[0], port, purpose));
        } else {
          r := Err(ConnectFailed);
        }
      } else {
        r := Open(OpenName(host, port, purpose));
      }
    }

    // The target's addresses, looked up at most once.
    method ResolveTarget(env: Env, cfg: Config, host: string) returns (resolvedIps: seq<Ip>)
      modifies this
      ensures resolvedIps == Resolved(world, env, cfg, host, |old(log)|)
      ensures log == old(log) + ResolveEvents(world, env, cfg, host, |old(log)|)
    {
      resolvedIps := [];
      var parsed := env.parse(host);
      if parsed.Some? {
        resolvedIps := resolvedIps + [parsed.value];
      } else if HasIpExclusions(env, cfg) || HasEgressRules(cfg) {
        var found := LookupName(host);
        resolvedIps := resolvedIps + found;
      }
    }

    // The proxied or direct connection once the checks have passed.
    method Route(env: Env, cfg: Config, host: string, port: U16, isSocks5: bool, resolvedIps: seq<Ip>)
      returns (r: Result<(), Failure>)
      modifies this
      ensures var a := AfterChecks(world, env, cfg, host, port, isSocks5, resolvedIps, |old(log)|);
              r == a.result && log == old(log) + a.events
    {
      hide ResolveUpstream, StreamTo, HasEgressRules;
      var targetIp := First(resolvedIps);
      var upstream := ResolveUpstream(env, cfg, host, port, targetIp, isSocks5);
      if upstream.Some? {
        var proxy := upstream.value;
        r := ConnectStream(env, proxy.host, proxy.port, ToProxy);
        if r.Ok? {
          r := Negotiate(proxy.protocol, host, port, proxy.username, proxy.password);
        }
      } else if HasEgressRules(cfg) {
        if targetIp.Some? {
          r := Open(OpenAddress(targetIp.value, port, Direct));
        } else {
          r := Err(Unresolved);
        }
      } else {
        r := ConnectStream(env, host, port, Direct);
      }
    }

    method ConnectToTarget(env: Env, cfg: Config, host: string, port: U16, isSocks5: bool)
      returns (r: Result<(), Failure>)
      modifies this
      ensures var a := ConnectAttempt(world, env, cfg, host, port, isSocks5, |old(log)|);
              r == a.result && log == old(log) + a.events
    {
      hide IsDomainBlocked, EgressObjection, AfterChecks, Resolved, ResolveEvents;
      if IsDomainBlocked(cfg.security, host) {
        return Err(DomainBlocked);
      }
      var resolvedIps := ResolveTarget(env, cfg, host);
      var objection := CheckResolved(env.parse, cfg, resolvedIps);
      if objection.Some? {
        return Err(objection.value);
      }
      r := Route(env, cfg, host, port, isSocks5, resolvedIps);
    }
  }

  method CheckResolved(parse: AddressParser, cfg: Config, resolvedIps: seq<Ip>) returns (objection: Option<Failure>)
    ensures objection == EgressObjection(parse, cfg, resolvedIps)
  {
    if HasEgressRules(cfg) {
      if resolvedIps == [] {
        return Some(Unresolved);
      }
      for i := 0 to |resolvedIps|
        invariant FirstRefused(parse, cfg.security, resolvedIps) == FirstRefused(parse, cfg.security, resolvedIps[i..])
      {
        var allowed := CheckEgressRules(parse, cfg.security, resolvedIps[i]);
        if !allowed {
          return Some(EgressBlocked(resolvedIps[i]));
        }
        assert resolvedIps[i..][1..] == resolvedIps[i+1..];
      }
    }
    objection := None;
  }

  /// What the attempts can open

  predicate IsOpen(e: Event) { e.OpenAddress? || e.OpenName? }

  predicate OpensNothing(events: seq<Event>) {
    forall i :: 0 <= i < |events| ==> !IsOpen(events[i])
  }

  // A refused domain, or any refused or missing address under egress rules, and no
  // socket is opened on any path; otherwise the attempt goes past its checks.
  lemma RefusedOpensNothing(w: World, env: Env, cfg: Config, host: string, port: U16, isSocks5: bool, at: nat)
    ensures var a := ConnectAttempt(w, env, cfg, host, port, isSocks5, at);
            var resolved := Resolved(w, env, cfg, host, at);
            IsDomainBlocked(cfg.security, host)
            || (HasEgressRules(cfg) &&
                (resolved == [] ||
                 exists i :: 0 <= i < |resolved| && !EgressAllowed(env.parse, cfg.security, resolved[i])))
            ==> OpensNothing(a.events) && a.result.Err? && |a.events| <= 1
  {
  }

  // Under egress rules and with no proxy for the target, an attempt opens a socket
  // exactly when the domain is not blocked and every address of its one nonempty
  // resolved set is allowed; the socket goes to the first of them, and there is no
  // second lookup.
  lemma DirectOpensChecked(w: World, env: Env, cfg: Config, host: string, port: U16, isSocks5: bool, at: nat)
    requires HasEgressRules(cfg)
    requires ResolveUpstream(env, cfg, host, port, First(Resolved(w, env, cfg, host, at)), isSocks5).None?
    ensures var a := ConnectAttempt(w, env, cfg, host, port, isSocks5, at);
            var resolved := Resolved(w, env, cfg, host, at);
            && (!OpensNothing(a.events) <==>
                  && !IsDomainBlocked(cfg.security, host) && resolved != []
                  && forall i :: 0 <= i < |resolved| ==> EgressAllowed(env.parse, cfg.security, resolved[i]))
            && (!OpensNothing(a.events) ==>
                  a.events == ResolveEvents(w, env, cfg, host, at) + [OpenAddress(resolved[0], port, Direct)])
  {
    var a := ConnectAttempt(w, env, cfg, host, port, isSocks5, at);
    var looked, resolved := ResolveEvents(w, env, cfg, host, at), Resolved(w, env, cfg, host, at);
    if !IsDomainBlocked(cfg.security, host) && resolved != [] && FirstRefused(env.parse, cfg.security, resolved).None? {
      assert a.events[|looked|] == OpenAddress(resolved[0], port, Direct);
    }
  }

  lemma RouteOpens(w: World, env: Env, cfg: Config, host: string, port: U16, isSocks5: bool, resolved: seq<Ip>, at: nat)
    requires HasEgressRules(cfg) && resolved != []
    ensures var events := AfterChecks(w, env, cfg, host, port, isSocks5, resolved, at).events;
            forall i :: 0 <= i < |events| && IsOpen(events[i]) && events[i].purpose == Direct ==>
              events[i] == OpenAddress(resolved[0], port, Direct)
  {
    hide ResolveUpstream;
  }

  // For every resolver and every configuration with egress rules: a socket opened
  // straight to the target goes to the first address of the one resolved set, all of
  // which are allowed; a socket opened to a proxy is opened only after the same check.
  lemma EveryOpenIsChecked(w: World, env: Env, cfg: Config, host: string, port: U16, isSocks5: bool, at: nat, i: nat)
    requires HasEgressRules(cfg)
    requires var events := ConnectAttempt(w, env, cfg, host, port, isSocks5, at).events;
             i < |events| && IsOpen(events[i])
    ensures var e := ConnectAttempt(w, env, cfg, host, port, isSocks5, at).events[i];
            var resolved := Resolved(w, env, cfg, host, at);
            && !IsDomainBlocked(cfg.security, host)
            && resolved != []
            && (forall k :: 0 <= k < |resolved| ==> EgressAllowed(env.parse, cfg.security, resolved[k]))
            && (e.purpose == Direct ==> e == OpenAddress(resolved[0], port, Direct))
  {
    hide IsDomainBlocked, EgressAllowed, ResolveUpstream, LooksUp, AfterChecks;
    var looked, resolved := ResolveEvents(w, env, cfg, host, at), Resolved(w, env, cfg, host, at);
    RefusedOpensNothing(w, env, cfg, host, port, isSocks5, at);
    var rest := AfterChecks(w, env, cfg, host, port, isSocks5, resolved, at + |looked|);
    assert ConnectAttempt(w, env, cfg, host, port, isSocks5, at).events == looked + rest.events;
    RouteOpens(w, env, cfg, host, port, isSocks5, resolved, at + |looked|);
  }

  /// Where the sockets go, and when an attempt succeeds

  // The socket `e`, opened after `before`, goes to the named host: to its address when the
  // name is one, else to the first address that was just looked up for it, or to the name
  // itself when there is no resolver.
  predicate Reaches(env: Env, before: seq<Event>, e: Event, host: string, port: U16, purpose: Purpose) {
    match env.parse(host)
    case Some(ip) => e == OpenAddress(ip, port, purpose)
    case None =>
      if !env.hasResolver then e == OpenName(host, port, purpose)
      else
        && before != []
        && match before[|before|-1]
           case Lookup(name, found) => name == host && found != [] && e == OpenAddress(found[0], port, purpose)
           case _ => false
  }

  // The one proxy of the attempt, if any.
  function Chosen(w: World, env: Env, cfg: Config, host: string, port: U16, isSocks5: bool, at: nat): Option<Proxy> {
    ResolveUpstream(env, cfg, host, port, First(Resolved(w, env, cfg, host, at)), isSocks5)
  }

  // `i` is where the attempt opens its socket, for this proxy or for none.
  predicate OpensAt(env: Env, events: seq<Event>, i: int, chosen: Option<Proxy>, checked: Option<Ip>,
                    host: string, port: U16) {
    && 0 <= i < |events| && IsOpen(events[i])
    && match chosen
       case Some(proxy) => Reaches(env, events[..i], events[i], proxy.host, proxy.port, ToProxy)
       case None =>
         match checked
         case Some(ip) => events[i] == OpenAddress(ip, port, Direct)
         case None => Reaches(env, events[..i], events[i], host, port, Direct)
  }

  // How an attempt that passed its checks ends: its only socket is opened at `i`, and a
  // proxy that answers is asked for the caller's target under its own credentials.
  predicate EndsAt(w: World, events: seq<Event>, result: Result<(), Failure>, at: nat, i: int,
                   chosen: Option<Proxy>, host: string, port: U16) {
    && 0 <= i < |events|
    && (forall k :: 0 <= k < i ==> events[k].Lookup?)
    && match chosen
       case Some(proxy) =>
         if w.opens(at + i) then
           && events[i+1..] == [Handshake(proxy.protocol, host, port, proxy.username, proxy.password)]
           && (result.Ok? <==> w.handshake(at + i + 1))
         else |events| == i + 1 && result.Err?
       case None => |events| == i + 1 && (result.Ok? <==> w.opens(at + i))
  }

  lemma StreamReaches(w: World, env: Env, host: string, port: U16, purpose: Purpose, at: nat)
    ensures var a := StreamTo(w, env, host, port, purpose, at);
            var i := |a.events| - 1;
            && i >= 0 && (forall k :: 0 <= k < i ==> a.events[k].Lookup?)
            && if IsOpen(a.events[i]) then
                 Reaches(env, a.events[..i], a.events[i], host, port, purpose) && (a.result.Ok? <==> w.opens(at + i))
               else a.events == [Lookup(host, [])] && a.result.Err?
  {
  }

  // The addresses that the egress rules were asked about, when there are rules.
  function Checked(w: World, env: Env, cfg: Config, host: string, at: nat): Option<Ip> {
    if HasEgressRules(cfg) then First(Resolved(w, env, cfg, host, at)) else None
  }

  lemma RouteIsMeant(w: World, env: Env, cfg: Config, host: string, port: U16, isSocks5: bool,
                     resolved: seq<Ip>, at: nat)
    requires HasEgressRules(cfg) ==> resolved != []
    ensures var a := AfterChecks(w, env, cfg, host, port, isSocks5, resolved, at);
            var chosen := ResolveUpstream(env, cfg, host, port, First(resolved), isSocks5);
            var checked := if HasEgressRules(cfg) then First(resolved) else None;
            if OpensNothing(a.events) then
              && a.result.Err? && (chosen.None? ==> checked.None?)
              && a.events == [Lookup(if chosen.Some? then chosen.value.host else host, [])]
            else
              exists i :: OpensAt(env, a.events, i, chosen, checked, host, port)
                          && EndsAt(w, a.events, a.result, at, i, chosen, host, port)
  {
    hide ResolveUpstream, StreamTo, Reaches, HasEgressRules;
    var a := AfterChecks(w, env, cfg, host, port, isSocks5, resolved, at);
    var chosen := ResolveUpstream(env, cfg, host, port, First(resolved), isSocks5);
    var checked := if HasEgressRules(cfg) then First(resolved) else None;
    match chosen
    case Some(proxy) =>
      var dial := StreamTo(w, env, proxy.host, proxy.port, ToProxy, at);
      var i := |dial.events| - 1;
      StreamReaches(w, env, proxy.host, proxy.port, ToProxy, at);
      assert a.events[..i] == dial.events[..i] && a.events[i] == dial.events[i];
      if IsOpen(dial.events[i]) {
        assert OpensAt(env, a.events, i, chosen, checked, host, port);
        assert EndsAt(w, a.events, a.result, at, i, chosen, host, port);
      }
    case None =>
      if checked.None? {
        var i := |a.events| - 1;
        StreamReaches(w, env, host, port, Direct, at);
        if IsOpen(a.events[i]) {
          assert OpensAt(env, a.events, i, chosen, checked, host, port);
          assert EndsAt(w, a.events, a.result, at, i, chosen, host, port);
        }
      } else {
        assert OpensAt(env, a.events, 0, chosen, checked, host, port);
        assert EndsAt(w, a.events, a.result, at, 0, chosen, host, port);
      }
  }

  // Every attempt, whatever the world answers. Unless its checks object it opens exactly
  // one socket: to the host and port of the proxy chosen for the target; or, without a
  // proxy, to the first checked address under egress rules and to the caller's own host
  // otherwise, always at the caller's port. Only a name that nobody can resolve keeps it
  // from that. It succeeds exactly when the socket opens and a proxy, asked for the
  // caller's host and port under the proxy's own credentials, agrees.
  lemma AttemptIsMeant(w: World, env: Env, cfg: Config, host: string, port: U16, isSocks5: bool, at: nat)
    ensures var a := ConnectAttempt(w, env, cfg, host, port, isSocks5, at);
            var chosen, checked := Chosen(w, env, cfg, host, port, isSocks5, at), Checked(w, env, cfg, host, at);
            var refused := IsDomainBlocked(cfg.security, host)
              || EgressObjection(env.parse, cfg, Resolved(w, env, cfg, host, at)).Some?;
            if refused || OpensNothing(a.events) then
              && a.result.Err? && OpensNothing(a.events)
              && (!refused ==>
                    && a.events != [] && (chosen.None? ==> checked.None?)
                    && a.events[|a.events|-1] == Lookup(if chosen.Some? then chosen.value.host else host, []))
            else
              exists i :: OpensAt(env, a.events, i, chosen, checked, host, port)
                          && EndsAt(w, a.events, a.result, at, i, chosen, host, port)
  {
    hide ResolveUpstream, AfterChecks, IsDomainBlocked, FirstRefused, LooksUp, OpensAt, EndsAt;
    var resolved, looked := Resolved(w, env, cfg, host, at), ResolveEvents(w, env, cfg, host, at);
    var a := ConnectAttempt(w, env, cfg, host, port, isSocks5, at);
    var chosen, checked := Chosen(w, env, cfg, host, port, isSocks5, at), Checked(w, env, cfg, host, at);
    if !IsDomainBlocked(cfg.security, host) && EgressObjection(env.parse, cfg, resolved).None? {
      var n := at + |looked|;
      var rest := AfterChecks(w, env, cfg, host, port, isSocks5, resolved, n);
      RouteIsMeant(w, env, cfg, host, port, isSocks5, resolved, n);
      assert a.events == looked + rest.events && a.result == rest.result;
      if OpensNothing(rest.events) {
        assert OpensNothing(a.events);
        assert a.events[|a.events|-1] == rest.events[|rest.events|-1];
      } else {
        var i :| OpensAt(env, rest.events, i, chosen, checked, host, port)
                 && EndsAt(w, rest.events, rest.result, n, i, chosen, host, port);
        AfterLookups(w, env, looked, rest.events, rest.result, at, i, chosen, checked, host, port);
      }
    }
  }

  lemma AfterLookups(w: World, env: Env, looked: seq<Event>, events: seq<Event>, result: Result<(), Failure>,
                     at: nat, i: int, chosen: Option<Proxy>, checked: Option<Ip>, host: string, port: U16)
    requires forall k :: 0 <= k < |looked| ==> looked[k].Lookup?
    requires OpensAt(env, events, i, chosen, checked, host, port)
    requires EndsAt(w, events, result, at + |looked|, i, chosen, host, port)
    ensures OpensAt(env, looked + events, |looked| + i, chosen, checked, host, port)
    ensures EndsAt(w, looked + events, result, at, |looked| + i, chosen, host, port)
    ensures !OpensNothing(looked + events)
  {
    var all, j := looked + events, |looked| + i;
    assert all[j] == events[i] && all[..j] == looked + events[..i] && all[j+1..] == events[i+1..];
    assert i > 0 ==> all[..j][j-1] == events[..i][i-1];
    assert IsOpen(all[j]);
  }

  // The target is looked up, once and first of all, exactly when it is a name and the
  // address matters: there are egress rules, or an exclusion that looks like a network.
  lemma LookupIsNeeded(w: World, env: Env, cfg: Config, host: string, port: U16, isSocks5: bool, at: nat)
    requires !IsDomainBlocked(cfg.security, host)
    ensures var a, resolved := ConnectAttempt(w, env, cfg, host, port, isSocks5, at), Resolved(w, env, cfg, host, at);
            match env.parse(host)
            case Some(ip) => resolved == [ip]
            case None =>
              if cfg.security.allowedEgress != [] || cfg.security.blockedEgress != []
                || (exists e :: (e in cfg.upstream.excludeNetworks || e in NoProxyList(env))
                                && ('/' in e || env.parse(e).Some?))
              then resolved == w.lookup(at, host) && a.events != [] && a.events[0] == Lookup(host, resolved)
              else resolved == []
  {
    hide IsDomainBlocked, AfterChecks, EgressObjection, NoProxyList;
    forall e ensures (exists i :: 0 <= i < |NoProxyList(env)| && NoProxyList(env)[i] == e) <==> e in NoProxyList(env) {
    }
    forall e | (e in cfg.upstream.excludeNetworks || e in NoProxyList(env)) && ('/' in e || env.parse(e).Some?)
      ensures HasIpExclusions(env, cfg)
    {
      assert LooksLikeNetwork(env, e);
    }
  }
}
