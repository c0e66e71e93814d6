/**
 The admin token store of `src/admin.rs`, against the log of the tokens it issued.
 */
module TokenStore {
  import opened Wrappers

  datatype TokenInfo = TokenInfo(username: string, expiresAt: int)

  type Tokens = map<string, TokenInfo>

  // A clock that is read once for each entry a cleanup examines.
  type Clock = string -> int

  datatype Op =
    | Generate(token: string, username: string, now: int)
    | Validate(token: string, clock: Clock)

  function Cleaned(m: Tokens, clock: Clock): Tokens {
    map t | t in m && m[t].expiresAt > clock(t) :: m[t]
  }

  function UserOf(m: Tokens, token: string): Option<string> {
    if token in m then Some(m[token].username) else None
  }

  class TokenStore {
    var tokens: Tokens
    const ttl: nat

    constructor (ttlSeconds: nat)
      ensures tokens == map[] && ttl == ttlSeconds * 1_000_000_000
    {
      tokens := map[];
      ttl := ttlSeconds * 1_000_000_000;
    }

    method GenerateToken(token: string, username: string, now: int) returns (r: string)
      modifies this
      ensures r == token
      ensures tokens == Next(old(tokens), ttl, Generate(token, username, now))
    {
      tokens := tokens[token := TokenInfo(username, now + ttl)];
      r := token;
    }

    method ValidateToken(token: string, clock: Clock) returns (r: Option<string>)
      modifies this
      ensures r == Answer(old(tokens), token, clock)
      ensures tokens == Next(old(tokens), ttl, Validate(token, clock))
    {
      tokens := map t | t in tokens && tokens[t].expiresAt > clock(t) :: tokens[t];
      r := if token in tokens then Some(tokens[token].username) else None;
    }

    // `authenticate_request`: the static token, or else a live dynamic one.
    method AuthenticateRequest(header: Option<string>, staticToken: Option<string>, clock: Clock) returns (ok: bool)
      modifies this
      ensures ok <==>
              Bearer(header).Some?
              && (staticToken == Bearer(header) || Answer(old(tokens), Bearer(header).value, clock).Some?)
      ensures tokens == if Bearer(header).Some? && staticToken != Bearer(header)
                        then Next(old(tokens), ttl, Validate(Bearer(header).value, clock)) else old(tokens)
    {
      if header.None? { return false; }
      var authHeader := header.value;
      if !("Bearer " <= authHeader) { return false; }
      var token := authHeader[7..];
      if staticToken.Some? {
        if token == staticToken.value { return true; }
      }
      var user := ValidateToken(token, clock);
      ok := user.Some?;
    }
  }

  // The token of a bearer header.
  function Bearer(header: Option<string>): (r: Option<string>)
    ensures forall t :: r == Some(t) <==> header == Some("Bearer " + t)
  {
    if header.Some? && "Bearer " <= header.value then
      assert forall t :: ("Bearer " + t)[7..] == t;
      assert header.value == "Bearer " + header.value[7..];
      Some(header.value[7..])
    else None
  }

  /// Runs of the store and the log of what it issued

  function Next(m: Tokens, ttl: nat, op: Op): Tokens {
    match op
    case Generate(token, username, now) => m[token := TokenInfo(username, now + ttl)]
    case Validate(_, clock) => Cleaned(m, clock)
  }

  function Answer(m: Tokens, token: string, clock: Clock): Option<string> {
    UserOf(Cleaned(m, clock), token)
  }

  function State(ttl: nat, ops: seq<Op>): Tokens {
    if ops == [] then map[] else Next(State(ttl, ops[..|ops|-1]), ttl, ops[|ops|-1])
  }

  // The latest time `token` was issued in the log, and for whom.
  function LatestIssue(ops: seq<Op>, token: string): Option<(string, int)> {
    if ops == [] then None
    else
      match ops[|ops|-1]
      case Generate(t, username, now) =>
        if t == token then Some((username, now)) else LatestIssue(ops[..|ops|-1], token)
      case Validate(_, _) => LatestIssue(ops[..|ops|-1], token)
  }

  // Every clock reading of `a` is at or before every reading of `b`.
  ghost predicate NotAfter(a: Op, b: Op) {
    match a
    case Generate(_, _, s) => (match b
                               case Generate(_, _, t) => s <= t
                               case Validate(_, clock) => forall k :: s <= clock(k))
    case Validate(_, earlier) => (match b
                                  case Generate(_, _, t) => forall k :: earlier(k) <= t
                                  case Validate(_, clock) => forall k, l :: earlier(k) <= clock(l))
  }

  ghost predicate Ordered(ops: seq<Op>) {
    forall i, j :: 0 <= i < j < |ops| ==> NotAfter(ops[i], ops[j])
  }

  predicate Live(issue: Option<(string, int)>, ttl: nat, now: int) {
    issue.Some? && now < issue.value.1 + ttl
  }

  // The store holds exactly the latest issues that no cleanup has yet found expired.
  lemma {:induction false} StoreIsLatest(ttl: nat, ops: seq<Op>, token: string)
    requires Ordered(ops)
    ensures var m := State(ttl, ops);
            var issue := LatestIssue(ops, token);
            && (token in m ==> issue == Some((m[token].username, m[token].expiresAt - ttl)))
            && (token !in m && issue.Some? ==>
                  exists i :: 0 <= i < |ops| && ops[i].Validate? && ops[i].clock(token) >= issue.value.1 + ttl)
  {
    if ops != [] {
      var before, op := ops[..|ops|-1], ops[|ops|-1];
      StoreIsLatest(ttl, before, token);
      var m, issue := State(ttl, before), LatestIssue(before, token);
      var later, laterIssue := State(ttl, ops), LatestIssue(ops, token);
      if token !in later && laterIssue.Some? {
        if op.Validate? && token in m {
          assert ops[|ops|-1].clock(token) >= laterIssue.value.1 + ttl;
        } else {
          var i :| 0 <= i < |before| && before[i].Validate? && before[i].clock(token) >= issue.value.1 + ttl;
          assert ops[i] == before[i];
        }
      }
    }
  }

  // Over any ordered log, a validation answers for the latest issue of that token
  // string, exactly while it is live on the clock reading made for it.
  lemma ValidationIsExact(ttl: nat, ops: seq<Op>, token: string, clock: Clock)
    requires Ordered(ops + [Validate(token, clock)])
    ensures var issue := LatestIssue(ops, token);
            Answer(State(ttl, ops), token, clock) ==
              if Live(issue, ttl, clock(token)) then Some(issue.value.0) else None
  {
    var all := ops + [Validate(token, clock)];
    assert Ordered(ops) by {
      forall i, j | 0 <= i < j < |ops| ensures NotAfter(ops[i], ops[j]) {
        assert NotAfter(all[i], all[j]);
      }
    }
    StoreIsLatest(ttl, ops, token);
    var issue := LatestIssue(ops, token);
    if token !in State(ttl, ops) && issue.Some? {
      var i :| 0 <= i < |ops| && ops[i].Validate? && ops[i].clock(token) >= issue.value.1 + ttl;
      assert NotAfter(all[i], all[|ops|]);
    }
  }

  function WithoutCleanups(ops: seq<Op>): seq<Op> {
    if ops == [] then []
    else WithoutCleanups(ops[..|ops|-1]) + (if ops[|ops|-1].Generate? then [ops[|ops|-1]] else [])
  }

  lemma {:induction false} CleanupsDoNotIssue(ops: seq<Op>, token: string)
    ensures LatestIssue(WithoutCleanups(ops), token) == LatestIssue(ops, token)
  {
    if ops != [] {
      var before, op := ops[..|ops|-1], ops[|ops|-1];
      CleanupsDoNotIssue(before, token);
      assert WithoutCleanups(before) + [] == WithoutCleanups(before);
      if op.Generate? {
        assert (WithoutCleanups(before) + [op])[..|WithoutCleanups(before)|] == WithoutCleanups(before);
      }
    }
  }

  lemma {:induction false} WithoutCleanupsOrdered(ops: seq<Op>, last: Op)
    requires Ordered(ops + [last])
    ensures Ordered(WithoutCleanups(ops) + [last])
    ensures forall k :: 0 <= k < |WithoutCleanups(ops)| ==> WithoutCleanups(ops)[k] in ops
  {
    if ops != [] {
      var before, op := ops[..|ops|-1], ops[|ops|-1];
      assert before + [op] == ops;
      OrderedSkip(before, op, last);
      WithoutCleanupsOrdered(before, last);
      WithoutCleanupsOrdered(before, op);
      var w := WithoutCleanups(before);
      assert w + [] == w;
      if op.Generate? {
        OrderedJoin(w, op, last);
      }
    }
  }

  lemma OrderedSkip(ops: seq<Op>, op: Op, last: Op)
    requires Ordered(ops + [op] + [last])
    ensures Ordered(ops + [op]) && Ordered(ops + [last]) && NotAfter(op, last)
  {
    var all := ops + [op] + [last];
    forall i, j | 0 <= i < j < |ops| + 1 ensures NotAfter((ops + [op])[i], (ops + [op])[j]) {
      assert NotAfter(all[i], all[j]);
    }
    forall i, j | 0 <= i < j < |ops| + 1 ensures NotAfter((ops + [last])[i], (ops + [last])[j]) {
      assert NotAfter(all[i], all[if j == |ops| then j + 1 else j]);
    }
    assert NotAfter(all[|ops|], all[|ops| + 1]);
  }

  lemma OrderedJoin(w: seq<Op>, op: Op, last: Op)
    requires Ordered(w + [op]) && Ordered(w + [last]) && NotAfter(op, last)
    ensures Ordered(w + [op] + [last])
  {
    var all := w + [op] + [last];
    forall i, j | 0 <= i < j < |all| ensures NotAfter(all[i], all[j]) {
      if j == |w| + 1 {
        if i < |w| { assert NotAfter((w + [last])[i], (w + [last])[|w|]); }
      } else {
        assert NotAfter((w + [op])[i], (w + [op])[j]);
      }
    }
  }

  // A validation answers the same whether or not any earlier cleanup had been made.
  lemma CleanupIsInvisible(ttl: nat, ops: seq<Op>, token: string, clock: Clock)
    requires Ordered(ops + [Validate(token, clock)])
    ensures Answer(State(ttl, ops), token, clock) == Answer(State(ttl, WithoutCleanups(ops)), token, clock)
  {
    ValidationIsExact(ttl, ops, token, clock);
    WithoutCleanupsOrdered(ops, Validate(token, clock));
    ValidationIsExact(ttl, WithoutCleanups(ops), token, clock);
    CleanupsDoNotIssue(ops, token);
  }

  lemma {:induction false} NoIssueSince(ops: seq<Op>, more: seq<Op>, token: string)
    requires forall k :: 0 <= k < |more| && more[k].Generate? ==> more[k].token != token
    ensures LatestIssue(ops + more, token) == LatestIssue(ops, token)
  {
    if more == [] {
      assert ops + more == ops;
    } else {
      NoIssueSince(ops, more[..|more|-1], token);
      assert (ops + more)[..|ops + more|-1] == ops + more[..|more|-1];
    }
  }

  // A token found invalid stays invalid until it is issued again.
  lemma ExpiredStaysExpired(ttl: nat, ops: seq<Op>, token: string, clock: Clock, more: seq<Op>, later: Clock)
    requires Ordered(ops + [Validate(token, clock)] + more + [Validate(token, later)])
    requires Answer(State(ttl, ops), token, clock).None?
    requires forall k :: 0 <= k < |more| && more[k].Generate? ==> more[k].token != token
    ensures Answer(State(ttl, ops + [Validate(token, clock)] + more), token, later).None?
  {
    var first := ops + [Validate(token, clock)];
    var whole := first + more + [Validate(token, later)];
    assert Ordered(first) by {
      forall i, j | 0 <= i < j < |first| ensures NotAfter(first[i], first[j]) {
        assert NotAfter(whole[i], whole[j]);
      }
    }
    ValidationIsExact(ttl, ops, token, clock);
    ValidationIsExact(ttl, first + more, token, later);
    NoIssueSince(first, more, token);
    assert first[..|ops|] == ops;
    assert LatestIssue(first, token) == LatestIssue(ops, token);
    assert NotAfter(whole[|ops|], whole[|whole|-1]);
  }
}
