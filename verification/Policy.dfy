/**
 Ingress, egress, domain and exclusion rules of `src/upstream.rs`.
 */
module Policy {
  import opened Wrappers
  import opened Addresses
  import opened Text
  import opened Networks

  datatype Security = Security(allowedNetworks: seq<string>, blockedDomains: seq<string>,
                               allowedEgress: seq<string>, blockedEgress: seq<string>)

  predicate AnyMatch(parse: AddressParser, ip: Ip, networks: seq<string>) {
    exists i :: 0 <= i < |networks| && MatchCidr(parse, ip, networks[i])
  }

  // An empty list allows everyone.
  predicate CheckClientAllowed(parse: AddressParser, sec: Security, ip: Ip) {
    sec.allowedNetworks == [] || AnyMatch(parse, ip, sec.allowedNetworks)
  }

  // In no blocked block, and in some allowed block if there are any.
  predicate EgressAllowed(parse: AddressParser, sec: Security, ip: Ip) {
    !AnyMatch(parse, ip, sec.blockedEgress)
    && (sec.allowedEgress == [] || AnyMatch(parse, ip, sec.allowedEgress))
  }

  method CheckEgressRules(parse: AddressParser, sec: Security, ip: Ip) returns (r: bool)
    ensures r == EgressAllowed(parse, sec, ip)
  {
    hide MatchCidr;
    for i := 0 to |sec.blockedEgress|
      invariant forall k :: 0 <= k < i ==> !MatchCidr(parse, ip, sec.blockedEgress[k])
    {
      if MatchCidr(parse, ip, sec.blockedEgress[i]) {
        return false;
      }
    }
    if sec.allowedEgress != [] {
      var allowed := false;
      for i := 0 to |sec.allowedEgress|
        invariant !allowed && forall k :: 0 <= k < i ==> !MatchCidr(parse, ip, sec.allowedEgress[k])
      {
        if MatchCidr(parse, ip, sec.allowedEgress[i]) {
          allowed := true;
          break;
        }
      }
      if !allowed {
        return false;
      }
    }
    r := true;
  }

  /// What the rules mean for an address

  // The entry, read as an address or a block, has the address in it.
  predicate Names(parse: AddressParser, entry: string, ip: Ip) {
    match ParseNetwork(parse, entry)
    case Host(host) => ip == host
    case Block(base, prefix) => InBlock(base, prefix, ip)
    case Malformed => false
  }

  // A client is admitted exactly when there are no entries or one of them names it.
  lemma IngressExactly(parse: AddressParser, sec: Security, ip: Ip)
    ensures sec.allowedNetworks == [] ==> CheckClientAllowed(parse, sec, ip)
    ensures sec.allowedNetworks != [] ==>
              (CheckClientAllowed(parse, sec, ip) <==> exists e :: e in sec.allowedNetworks && Names(parse, e, ip))
  {
    AnyMatchNames(parse, ip, sec.allowedNetworks);
  }

  // An address is refused exactly when a blocked entry names it, or there are allowed
  // entries and none of them does.
  lemma EgressExactly(parse: AddressParser, sec: Security, ip: Ip)
    ensures !EgressAllowed(parse, sec, ip) <==>
            || (exists e :: e in sec.blockedEgress && Names(parse, e, ip))
            || (sec.allowedEgress != [] && forall e :: e in sec.allowedEgress ==> !Names(parse, e, ip))
  {
    AnyMatchNames(parse, ip, sec.blockedEgress);
    AnyMatchNames(parse, ip, sec.allowedEgress);
  }

  lemma AnyMatchNames(parse: AddressParser, ip: Ip, networks: seq<string>)
    ensures AnyMatch(parse, ip, networks) <==> exists e :: e in networks && Names(parse, e, ip)
  {
    hide MatchCidr, Names;
    forall e ensures MatchCidr(parse, ip, e) <==> Names(parse, e, ip) {
      MatchNames(parse, ip, e);
    }
    if i :| 0 <= i < |networks| && MatchCidr(parse, ip, networks[i]) {
      assert networks[i] in networks;
    }
  }

  // More allowed entries never shut out an admitted client, and more blocked ones never
  // let an address through; allowed entries do not overrule blocked ones.
  lemma MoreEntries(parse: AddressParser, sec: Security, more: seq<string>, ip: Ip)
    ensures sec.allowedNetworks != [] && CheckClientAllowed(parse, sec, ip) ==>
              CheckClientAllowed(parse, sec.(allowedNetworks := sec.allowedNetworks + more), ip)
    ensures !EgressAllowed(parse, sec, ip) ==>
              !EgressAllowed(parse, sec.(blockedEgress := sec.blockedEgress + more), ip)
    ensures (exists e :: e in sec.blockedEgress && Names(parse, e, ip)) ==>
              !EgressAllowed(parse, sec.(allowedEgress := more), ip)
  {
    hide Names, CheckClientAllowed, EgressAllowed;
    IngressExactly(parse, sec, ip);
    IngressExactly(parse, sec.(allowedNetworks := sec.allowedNetworks + more), ip);
    EgressExactly(parse, sec, ip);
    EgressExactly(parse, sec.(blockedEgress := sec.blockedEgress + more), ip);
    EgressExactly(parse, sec.(allowedEgress := more), ip);
  }

  /// Order, duplicates and redundant entries

  ghost predicate SameEntries(a: seq<string>, b: seq<string>) {
    forall x :: x in a <==> x in b
  }

  lemma AnyMatchSame(parse: AddressParser, ip: Ip, a: seq<string>, b: seq<string>)
    requires SameEntries(a, b)
    ensures AnyMatch(parse, ip, a) == AnyMatch(parse, ip, b)
    ensures a == [] <==> b == []
  {
    if a != [] { assert a[0] in b; }
    if b != [] { assert b[0] in a; }
    if i :| 0 <= i < |a| && MatchCidr(parse, ip, a[i]) {
      assert a[i] in b;
    }
    if i :| 0 <= i < |b| && MatchCidr(parse, ip, b[i]) {
      assert b[i] in a;
    }
  }

  // The egress and ingress decisions depend only on which entries each list holds.
  lemma OrderDoesNotMatter(parse: AddressParser, s: Security, t: Security, ip: Ip)
    requires SameEntries(s.allowedNetworks, t.allowedNetworks)
    requires SameEntries(s.allowedEgress, t.allowedEgress)
    requires SameEntries(s.blockedEgress, t.blockedEgress)
    ensures EgressAllowed(parse, s, ip) == EgressAllowed(parse, t, ip)
    ensures CheckClientAllowed(parse, s, ip) == CheckClientAllowed(parse, t, ip)
  {
    AnyMatchSame(parse, ip, s.allowedNetworks, t.allowedNetworks);
    AnyMatchSame(parse, ip, s.allowedEgress, t.allowedEgress);
    AnyMatchSame(parse, ip, s.blockedEgress, t.blockedEgress);
  }

  function AsBlock(n: Network): Network {
    match n
    case Host(host) => Block(host, Width(host))
    case _ => n
  }

  // Read as blocks, `wide` covers `narrow`.
  predicate EntryCovers(parse: AddressParser, wide: string, narrow: string) {
    var w, n := AsBlock(ParseNetwork(parse, wide)), AsBlock(ParseNetwork(parse, narrow));
    ValidBlock(w) && ValidBlock(n) && Covers(w, n)
  }

  function Without(list: seq<string>, i: nat): seq<string>
    requires i < |list|
  {
    list[..i] + list[i+1..]
  }

  lemma AsBlockSame(n: Network, ip: Ip)
    ensures Contains(AsBlock(n), ip) == Contains(n, ip)
  {
    if n.Host? {
      HostIsFullBlock(n.host, ip);
    }
  }

  lemma CoveredMatches(parse: AddressParser, wide: string, narrow: string, ip: Ip)
    requires EntryCovers(parse, wide, narrow) && MatchCidr(parse, ip, narrow)
    ensures MatchCidr(parse, ip, wide)
  {
    hide Contains, ParseNetwork;
    var w, n := ParseNetwork(parse, wide), ParseNetwork(parse, narrow);
    AsBlockSame(w, ip);
    AsBlockSame(n, ip);
    CoversContains(AsBlock(w), AsBlock(n), ip);
  }

  lemma WithoutCovered(parse: AddressParser, list: seq<string>, i: nat, j: nat, ip: Ip)
    requires i < |list| && j < |list| && i != j && EntryCovers(parse, list[j], list[i])
    ensures AnyMatch(parse, ip, Without(list, i)) == AnyMatch(parse, ip, list)
    ensures Without(list, i) != []
  {
    hide MatchCidr, EntryCovers;
    if MatchCidr(parse, ip, list[i]) {
      CoveredMatches(parse, list[j], list[i], ip);
    }
    assert Without(list, i)[if j < i then j else j - 1] == list[j];
    if AnyMatch(parse, ip, list) {
      var k :| 0 <= k < |list| && MatchCidr(parse, ip, list[k]);
      var m := if k == i then j else k;
      assert Without(list, i)[if m < i then m else m - 1] == list[m];
    }
    if AnyMatch(parse, ip, Without(list, i)) {
      var k :| 0 <= k < |Without(list, i)| && MatchCidr(parse, ip, Without(list, i)[k]);
      assert list[if k < i then k else k + 1] == Without(list, i)[k];
    }
  }

  predicate IsCovered(parse: AddressParser, list: seq<string>, i: nat, j: nat) {
    i != j && i < |list| && j < |list| && EntryCovers(parse, list[j], list[i])
  }

  // Removing an entry covered by another entry of its list changes no decision for any address.
  lemma CoveredEntriesAreRedundant(parse: AddressParser, sec: Security, i: nat, j: nat, ip: Ip)
    ensures IsCovered(parse, sec.allowedNetworks, i, j) ==>
              var less := sec.(allowedNetworks := Without(sec.allowedNetworks, i));
              CheckClientAllowed(parse, less, ip) == CheckClientAllowed(parse, sec, ip)
    ensures IsCovered(parse, sec.allowedEgress, i, j) ==>
              var less := sec.(allowedEgress := Without(sec.allowedEgress, i));
              EgressAllowed(parse, less, ip) == EgressAllowed(parse, sec, ip)
    ensures IsCovered(parse, sec.blockedEgress, i, j) ==>
              var less := sec.(blockedEgress := Without(sec.blockedEgress, i));
              EgressAllowed(parse, less, ip) == EgressAllowed(parse, sec, ip)
  {
    if IsCovered(parse, sec.allowedNetworks, i, j) {
      WithoutCovered(parse, sec.allowedNetworks, i, j, ip);
    }
    if IsCovered(parse, sec.allowedEgress, i, j) {
      WithoutCovered(parse, sec.allowedEgress, i, j, ip);
    }
    if IsCovered(parse, sec.blockedEgress, i, j) {
      WithoutCovered(parse, sec.blockedEgress, i, j, ip);
    }
  }

  /// Domains

  function Clean(domain: string): string {
    Lower(TrimDots(domain))
  }

  // Dots in front are dropped, all of them, and case does not matter.
  lemma CleanedIsExact(dots: string, domain: string)
    requires (forall i :: 0 <= i < |dots| ==> dots[i] == '.') && (domain != "" ==> domain[0] != '.')
    ensures Clean(dots + domain) == Lower(domain)
  {
    DotsAreDropped(dots, domain);
  }

  lemma {:induction false} DotsAreDropped(dots: string, domain: string)
    requires (forall i :: 0 <= i < |dots| ==> dots[i] == '.') && (domain != "" ==> domain[0] != '.')
    ensures TrimDots(dots + domain) == domain
  {
    if dots == "" {
      assert dots + domain == domain;
    } else {
      assert (dots + domain)[1..] == dots[1..] + domain;
      DotsAreDropped(dots[1..], domain);
    }
  }

  // Equality, or ending with a dot and the domain.
  predicate HostMatches(host: string, domain: string) {
    host == domain || EndsWith(host, "." + domain)
  }

  predicate IsDomainBlocked(sec: Security, host: string) {
    exists i :: 0 <= i < |sec.blockedDomains| &&
      var clean := Clean(sec.blockedDomains[i]);
      clean != "" && HostMatches(Lower(host), clean)
  }

  function Labels(host: string): seq<string> {
    Split(host, '.')
  }

  predicate LabelsEndWith(host: string, domain: string) {
    var h, d := Labels(host), Labels(domain);
    |d| <= |h| && h[|h|-|d|..] == d
  }

  lemma MatchHasLabels(host: string, domain: string)
    requires HostMatches(host, domain)
    ensures LabelsEndWith(host, domain)
  {
    if host != domain {
      var front := host[..|host| - |domain| - 1];
      assert host == front + ['.'] + domain by {
        assert host[|host| - |domain| - 1..] == "." + domain;
      }
      SplitAppend(front, '.', domain);
    }
  }

  lemma LabelsMatch(host: string, domain: string)
    requires LabelsEndWith(host, domain)
    ensures HostMatches(host, domain)
  {
    hide Split, Join;
    var h, d := Labels(host), Labels(domain);
    JoinSplit(host, '.');
    JoinSplit(domain, '.');
    var front := h[..|h|-|d|];
    assert h == front + d;
    if front == [] {
      assert h == d;
    } else {
      JoinAppend(front, d, '.');
      EndsWithSuffix(host, Join(front, '.'), domain);
    }
  }

  lemma EndsWithSuffix(host: string, front: string, domain: string)
    requires host == front + ['.'] + domain
    ensures HostMatches(host, domain)
  {
    assert host[|host| - |domain| - 1..] == "." + domain;
  }

  // The text test is a comparison of whole labels.
  lemma MatchIsLabelSuffix(host: string, domain: string)
    ensures HostMatches(host, domain) <==> LabelsEndWith(host, domain)
  {
    if HostMatches(host, domain) {
      MatchHasLabels(host, domain);
    }
    if LabelsEndWith(host, domain) {
      LabelsMatch(host, domain);
    }
  }

  lemma {:induction false} LowerAppends(a: string, b: string)
    ensures Lower(a + b) == Lower(a) + Lower(b)
  {
  }

  lemma SubdomainMatches(host: string, domain: string, front: string)
    requires HostMatches(host, domain)
    ensures HostMatches(front + "." + host, domain)
  {
    var longer := front + "." + host;
    if host == domain {
      assert longer == front + ("." + domain);
    } else {
      assert longer[|longer| - |domain| - 1..] == host[|host| - |domain| - 1..];
    }
  }

  // Blocking a host blocks every subdomain of it.
  lemma SubdomainsAreBlocked(sec: Security, host: string, sub: string)
    requires IsDomainBlocked(sec, host)
    ensures IsDomainBlocked(sec, sub + "." + host)
  {
    LowerAppends(sub + ".", host);
    LowerAppends(sub, ".");
    assert Lower(sub + "." + host) == Lower(sub) + "." + Lower(host);
    var i :| 0 <= i < |sec.blockedDomains| &&
      var clean := Clean(sec.blockedDomains[i]);
      clean != "" && HostMatches(Lower(host), clean);
    SubdomainMatches(Lower(host), Clean(sec.blockedDomains[i]), Lower(sub));
  }

  // A host is blocked exactly when some nonempty cleaned entry is a label suffix of it.
  lemma BlockedIsLabelSuffix(sec: Security, host: string)
    ensures IsDomainBlocked(sec, host) <==>
            exists d :: d in sec.blockedDomains && Clean(d) != "" && LabelsEndWith(Lower(host), Clean(d))
  {
    forall d ensures HostMatches(Lower(host), Clean(d)) <==> LabelsEndWith(Lower(host), Clean(d)) {
      MatchIsLabelSuffix(Lower(host), Clean(d));
    }
    if IsDomainBlocked(sec, host) {
      var i :| 0 <= i < |sec.blockedDomains| &&
        var clean := Clean(sec.blockedDomains[i]);
        clean != "" && HostMatches(Lower(host), clean);
      assert sec.blockedDomains[i] in sec.blockedDomains;
    }
  }

  /// Exclusion from upstream proxying

  // The addresses the rules are tried on: the resolved one and the host read as an address.
  function Candidates(parse: AddressParser, host: string, ip: Option<Ip>): set<Ip> {
    (if ip.Some? then {ip.value} else {}) + (if parse(host).Some? then {parse(host).value} else {})
  }

  predicate NetworkExcludes(parse: AddressParser, host: string, ip: Option<Ip>, entry: string) {
    exists a :: a in Candidates(parse, host, ip) && MatchCidr(parse, a, entry)
  }

  predicate DomainExcludes(host: string, entry: string) {
    HostMatches(Lower(host), Clean(entry))
  }

  predicate NoProxyExcludes(parse: AddressParser, host: string, ip: Option<Ip>, entry: string) {
    entry == "*" || NetworkExcludes(parse, host, ip, entry) || DomainExcludes(host, entry)
  }

  // The union of the conditions of the three lists, in no particular order.
  predicate Excluded(parse: AddressParser, host: string, ip: Option<Ip>,
                           networks: seq<string>, domains: seq<string>, noProxy: seq<string>) {
    || (exists e :: e in networks && NetworkExcludes(parse, host, ip, e))
    || (exists e :: e in domains && DomainExcludes(host, e))
    || (exists e :: e in noProxy && NoProxyExcludes(parse, host, ip, e))
  }

  method IsExcluded(parse: AddressParser, host: string, ip: Option<Ip>,
                    excludeNetworks: seq<string>, excludeDomains: seq<string>, noProxyList: seq<string>)
    returns (r: bool)
    ensures r <==> Excluded(parse, host, ip, excludeNetworks, excludeDomains, noProxyList)
  {
    hide MatchCidr, Lower, TrimDots, EndsWith;
    var hostLower := Lower(host);
    var hostIp := parse(host);
    if ip.Some? {
      for i := 0 to |excludeNetworks|
        invariant forall k :: 0 <= k < i ==> !MatchCidr(parse, ip.value, excludeNetworks[k])
      {
        if MatchCidr(parse, ip.value, excludeNetworks[i]) {
          assert NetworkExcludes(parse, host, ip, excludeNetworks[i]);
          return true;
        }
      }
    }
    if hostIp.Some? {
      for i := 0 to |excludeNetworks|
        invariant forall k :: 0 <= k < i ==> !MatchCidr(parse, hostIp.value, excludeNetworks[k])
      {
        if MatchCidr(parse, hostIp.value, excludeNetworks[i]) {
          assert NetworkExcludes(parse, host, ip, excludeNetworks[i]);
          return true;
        }
      }
    }
    assert forall e :: e in excludeNetworks ==> !NetworkExcludes(parse, host, ip, e);
    for i := 0 to |excludeDomains|
      invariant forall k :: 0 <= k < i ==> !DomainExcludes(host, excludeDomains[k])
    {
      var domainClean := Lower(TrimDots(excludeDomains[i]));
      if hostLower == domainClean || EndsWith(hostLower, "." + domainClean) {
        assert DomainExcludes(host, excludeDomains[i]);
        return true;
      }
    }
    for i := 0 to |noProxyList|
      invariant forall k :: 0 <= k < i ==> !NoProxyExcludes(parse, host, ip, noProxyList[k])
    {
      var entry := noProxyList[i];
      if entry == "*" {
        assert NoProxyExcludes(parse, host, ip, entry);
        return true;
      }
      if ip.Some? {
        if MatchCidr(parse, ip.value, entry) {
          assert NetworkExcludes(parse, host, ip, entry);
          assert NoProxyExcludes(parse, host, ip, entry);
          return true;
        }
      }
      if hostIp.Some? {
        if MatchCidr(parse, hostIp.value, entry) {
          assert NetworkExcludes(parse, host, ip, entry);
          assert NoProxyExcludes(parse, host, ip, entry);
          return true;
        }
      }
      var entryClean := Lower(TrimDots(entry));
      if hostLower == entryClean || EndsWith(hostLower, "." + entryClean) {
        assert NoProxyExcludes(parse, host, ip, entry);
        return true;
      }
    }
    r := false;
  }

  // A target is excluded exactly when an entry of the network list or of NO_PROXY names
  // its resolved address or itself read as an address, when the labels of an entry of the
  // domain list or of NO_PROXY end its own, or when NO_PROXY holds a star.
  lemma ExcludedExactly(parse: AddressParser, host: string, ip: Option<Ip>,
                        networks: seq<string>, domains: seq<string>, noProxy: seq<string>)
    ensures Excluded(parse, host, ip, networks, domains, noProxy) <==>
            || (exists e, a :: (e in networks || e in noProxy) && Names(parse, e, a)
                               && (ip == Some(a) || parse(host) == Some(a)))
            || (exists e :: (e in domains || e in noProxy) && LabelsEndWith(Lower(host), Clean(e)))
            || "*" in noProxy
  {
    hide MatchCidr, Names, HostMatches, LabelsEndWith, Lower, Clean;
    forall e, a ensures MatchCidr(parse, a, e) <==> Names(parse, e, a) {
      MatchNames(parse, a, e);
    }
    forall e ensures HostMatches(Lower(host), Clean(e)) <==> LabelsEndWith(Lower(host), Clean(e)) {
      MatchIsLabelSuffix(Lower(host), Clean(e));
    }
    forall e ensures NetworkExcludes(parse, host, ip, e) <==>
                     exists a :: Names(parse, e, a) && (ip == Some(a) || parse(host) == Some(a))
    {
      if a :| Names(parse, e, a) && (ip == Some(a) || parse(host) == Some(a)) {
        assert a in Candidates(parse, host, ip) && MatchCidr(parse, a, e);
      }
      if a :| a in Candidates(parse, host, ip) && MatchCidr(parse, a, e) {
        assert Names(parse, e, a);
      }
    }
  }

  lemma MatchNames(parse: AddressParser, ip: Ip, e: string)
    ensures MatchCidr(parse, ip, e) <==> Names(parse, e, ip)
  {
    hide Contains, ParseNetwork;
    ContainsIsInBlock(ParseNetwork(parse, e), ip);
  }

  // A "*" in the two configured exclusion lists is not a wildcard: it excludes exactly
  // the hosts whose last label is a literal star. In NO_PROXY it excludes everything.
  lemma StarIsNotAWildcard(parse: AddressParser, host: string, ip: Option<Ip>)
    requires parse("*").None?
    ensures Excluded(parse, host, ip, ["*"], ["*"], []) <==> LabelsEndWith(Lower(host), "*")
    ensures Excluded(parse, host, ip, [], [], ["*"])
  {
    var star := "*";
    FindNone(star, '/');
    assert Clean(star) == star by { assert Lower(star)[0] == '*'; }
    MatchIsLabelSuffix(Lower(host), star);
    hide LabelsEndWith, HostMatches;
    assert DomainExcludes(host, star) <==> HostMatches(Lower(host), star);
    assert !NetworkExcludes(parse, host, ip, star);
    assert star in ["*"];
    assert NoProxyExcludes(parse, host, ip, star);
  }
}
