/**
 What becomes of a session whose fields may be longer than their one-byte lengths can
 say: for any server and any client, what a client that returns Ok was connected to.
 */
module Socks5Misread {
  import opened Wrappers
  import opened Addresses
  import opened Socks5
  import opened Socks5Session
  import opened Socks5Handlers

  /// Each end as a function of the bytes it is given

  // The same end, having written `said` before.
  function After<S>(said: Bytes, e: End<S>): End<S> {
    e.(out := said + e.out)
  }

  lemma AfterAfter<S>(a: Bytes, b: Bytes, e: End<S>)
    ensures After(a, After(b, e)) == After(a + b, e)
  {
    assert a + (b + e.out) == (a + b) + e.out;
  }

  // The stage an end comes to, the bytes it has not used, and all that it wrote.
  function RunServer(v: Server, stage: Stage, input: Bytes): End<Stage>
    decreases stage.Rank()
  {
    if stage.Done? || |input| < stage.Need() then End(stage, input, [])
    else
      var (next, out) := Advance(v, stage, input[..stage.Need()]);
      After(out, RunServer(v, next, input[stage.Need()..]))
  }

  function RunClient(d: Dial, stage: ClientStage, input: Bytes): End<ClientStage>
    decreases stage.Rank()
  {
    if stage.Finished? || |input| < stage.Need() then End(stage, input, [])
    else
      var (next, out) := ClientAdvance(d, stage, input[..stage.Need()]);
      After(out, RunClient(d, next, input[stage.Need()..]))
  }

  // The straight-line handlers are these runs, cut off where the stream ends.
  lemma {:induction false} ServeIsRun(v: Server, stage: Stage, input: Bytes)
    ensures var r := RunServer(v, stage, input);
            Serve(v, stage, input) ==
              if r.stage.Done? then Served(r.stage.outcome, r.out, r.got) else Served(Failed, r.out, [])
    decreases stage.Rank()
  {
    hide Advance;
    if !stage.Done? && stage.Need() <= |input| {
      ServeIsRun(v, Advance(v, stage, input[..stage.Need()]).0, input[stage.Need()..]);
    }
  }

  lemma {:induction false} ConverseIsRun(d: Dial, stage: ClientStage, input: Bytes)
    ensures var r := RunClient(d, stage, input);
            Converse(d, stage, input) ==
              if r.stage.Finished? then Conversed(r.stage.ok, r.out, r.got) else Conversed(false, r.out, [])
    decreases stage.Rank()
  {
    hide ClientAdvance;
    if !stage.Finished? && stage.Need() <= |input| {
      ConverseIsRun(d, ClientAdvance(d, stage, input[..stage.Need()]).0, input[stage.Need()..]);
    }
  }

  // Bytes may come in two instalments.
  lemma {:induction false} RunServerOn(v: Server, stage: Stage, a: Bytes, b: Bytes)
    ensures var r := RunServer(v, stage, a);
            RunServer(v, stage, a + b) == After(r.out, RunServer(v, r.stage, r.got + b))
    decreases stage.Rank()
  {
    hide Advance;
    var n := stage.Need();
    if !stage.Done? && n <= |a| {
      Cut(a, b, n);
      var (next, out) := Advance(v, stage, a[..n]);
      RunServerOn(v, next, a[n..], b);
      var r := RunServer(v, next, a[n..]);
      AfterAfter(out, r.out, RunServer(v, r.stage, r.got + b));
    }
  }

  lemma {:induction false} RunClientOn(d: Dial, stage: ClientStage, a: Bytes, b: Bytes)
    ensures var r := RunClient(d, stage, a);
            RunClient(d, stage, a + b) == After(r.out, RunClient(d, r.stage, r.got + b))
    decreases stage.Rank()
  {
    hide ClientAdvance;
    var n := stage.Need();
    if !stage.Finished? && n <= |a| {
      Cut(a, b, n);
      var (next, out) := ClientAdvance(d, stage, a[..n]);
      RunClientOn(d, next, a[n..], b);
      var r := RunClient(d, next, a[n..]);
      AfterAfter(out, r.out, RunClient(d, r.stage, r.got + b));
    }
  }

  /// Every session is explained by what each end has said so far

  // The server, given all that the client has said, has said `down` and goes on from
  // where it stands; and likewise the client. Nothing is claimed of a client that failed.
  predicate Explains(v: Server, d: Dial, s: System, said: Bytes, down: Bytes) {
    s.client.stage != Finished(false) ==>
      var z := RunServer(v, s.server.stage, s.server.got + (s.up + s.client.out));
      var c := RunClient(d, s.client.stage, s.client.got + (s.down + s.server.out));
      && RunServer(v, Greeting, d.InitMessage() + said) == After(down, z)
      && RunClient(d, AwaitMethod, down) == After(said, c)
  }

  lemma MoreForServer(v: Server, a: Bytes, said: Bytes, stage: Stage, b: Bytes, x: Bytes)
    requires RunServer(v, Greeting, a) == After(said, RunServer(v, stage, b))
    ensures RunServer(v, Greeting, a + x) == After(said, RunServer(v, stage, b + x))
  {
    hide RunServer;
    var z := RunServer(v, stage, b);
    var q := RunServer(v, z.stage, z.got + x);
    assert RunServer(v, stage, b + x) == After(z.out, q) by { RunServerOn(v, stage, b, x); }
    assert RunServer(v, Greeting, a + x) == After(said + z.out, q) by { RunServerOn(v, Greeting, a, x); }
    AfterAfter(said, z.out, q);
  }

  lemma MoreForClient(d: Dial, a: Bytes, said: Bytes, stage: ClientStage, b: Bytes, x: Bytes)
    requires RunClient(d, AwaitMethod, a) == After(said, RunClient(d, stage, b))
    ensures RunClient(d, AwaitMethod, a + x) == After(said, RunClient(d, stage, b + x))
  {
    hide RunClient;
    var c := RunClient(d, stage, b);
    var q := RunClient(d, c.stage, c.got + x);
    assert RunClient(d, stage, b + x) == After(c.out, q) by { RunClientOn(d, stage, b, x); }
    assert RunClient(d, AwaitMethod, a + x) == After(said + c.out, q) by { RunClientOn(d, AwaitMethod, a, x); }
    AfterAfter(said, c.out, q);
  }

  lemma ServerThinks(v: Server, stage: Stage, got: Bytes, more: Bytes)
    requires !stage.Done? && |got| == stage.Need()
    ensures var (next, out) := Advance(v, stage, got);
            RunServer(v, stage, got + more) == After(out, RunServer(v, next, more))
  {
    hide Advance;
    assert (got + more)[..|got|] == got && (got + more)[|got|..] == more;
  }

  lemma ClientThinks(d: Dial, stage: ClientStage, got: Bytes, more: Bytes)
    requires !stage.Finished? && |got| == stage.Need()
    ensures var (next, out) := ClientAdvance(d, stage, got);
            RunClient(d, stage, got + more) == After(out, RunClient(d, next, more))
  {
    hide ClientAdvance;
    assert (got + more)[..|got|] == got && (got + more)[|got|..] == more;
  }

  lemma ServerSaysMore(v: Server, heard: Bytes, down: Bytes, stage: Stage, got: Bytes, coming: Bytes)
    requires !stage.Done? && |got| == stage.Need()
    requires RunServer(v, Greeting, heard) == After(down, RunServer(v, stage, got + coming))
    ensures var (next, out) := Advance(v, stage, got);
            RunServer(v, Greeting, heard) == After(down + out, RunServer(v, next, [] + coming))
  {
    hide RunServer, Advance;
    ServerThinks(v, stage, got, coming);
    var (next, out) := Advance(v, stage, got);
    assert [] + coming == coming;
    AfterAfter(down, out, RunServer(v, next, coming));
  }

  lemma ClientIsTold(d: Dial, down: Bytes, said: Bytes, stage: ClientStage, got: Bytes, inFlight: Bytes, out: Bytes)
    requires RunClient(d, AwaitMethod, down) == After(said, RunClient(d, stage, got + (inFlight + [])))
    ensures RunClient(d, AwaitMethod, down + out) == After(said, RunClient(d, stage, got + (inFlight + out)))
  {
    hide RunClient;
    MoreForClient(d, down, said, stage, got + (inFlight + []), out);
    assert got + (inFlight + []) + out == got + (inFlight + out);
  }

  lemma ServerThinkState(v: Server, d: Dial, s: System)
    requires Enabled(s, ServerThink)
    ensures !s.server.stage.Done? && |s.server.got| == s.server.stage.Need() && s.server.out == []
    ensures var (next, out) := Advance(v, s.server.stage, s.server.got);
            Apply(v, d, s, ServerThink) == s.(server := End(next, [], out))
  {
    hide Advance;
  }

  lemma ExplainServerThink(v: Server, d: Dial, s: System, said: Bytes, down: Bytes)
    requires Explains(v, d, s, said, down) && Enabled(s, ServerThink)
    ensures Explains(v, d, Apply(v, d, s, ServerThink), said, down + Advance(v, s.server.stage, s.server.got).1)
  {
    hide RunServer, RunClient, Advance, Apply, Enabled;
    ServerThinkState(v, d, s);
    if s.client.stage != Finished(false) {
      var c, z := s.client, s.server;
      var (next, out) := Advance(v, z.stage, z.got);
      ServerSaysMore(v, d.InitMessage() + said, down, z.stage, z.got, s.up + c.out);
      ClientIsTold(d, down, said, c.stage, c.got, s.down, out);
    }
  }

  lemma ExplainClientThink(v: Server, d: Dial, s: System, said: Bytes, down: Bytes)
    requires Explains(v, d, s, said, down) && Enabled(s, ClientThink)
    ensures Explains(v, d, Apply(v, d, s, ClientThink), said + ClientAdvance(d, s.client.stage, s.client.got).1, down)
  {
    hide RunServer, RunClient, ClientAdvance;
    var (next, out) := ClientAdvance(d, s.client.stage, s.client.got);
    var coming := s.down + s.server.out;
    ClientThinks(d, s.client.stage, s.client.got, coming);
    assert [] + coming == coming;
    AfterAfter(said, out, RunClient(d, next, coming));
    MoreForServer(v, d.InitMessage() + said, down, s.server.stage, s.server.got + (s.up + s.client.out), out);
    assert s.server.got + (s.up + s.client.out) + out == s.server.got + (s.up + out);
    assert d.InitMessage() + said + out == d.InitMessage() + (said + out);
  }

  lemma ExplainTransfer(v: Server, d: Dial, s: System, m: Move, said: Bytes, down: Bytes)
    requires Explains(v, d, s, said, down) && Enabled(s, m) && !m.ClientThink? && !m.ServerThink?
    ensures Explains(v, d, Apply(v, d, s, m), said, down)
  {
    hide RunServer, RunClient;
    var c, z := s.client, s.server;
    match m
    case ClientSend(n) => Regroup(s.up, c.out, [], n); assert c.out + [] == c.out && c.out[n..] + [] == c.out[n..];
    case ClientReceive(n) => Regroup(c.got, s.down, z.out, n);
    case ServerSend(n) => Regroup(s.down, z.out, [], n); assert z.out + [] == z.out && z.out[n..] + [] == z.out[n..];
    case ServerReceive(n) => Regroup(z.got, s.up, c.out, n);
    case _ =>
  }

  lemma {:induction false} Explain(v: Server, d: Dial, moves: seq<Move>) returns (said: Bytes, down: Bytes)
    requires Play(v, d, moves).Some?
    ensures Explains(v, d, Play(v, d, moves).value, said, down)
  {
    if moves == [] {
      said, down := [], [];
      assert [] + ([] + d.InitMessage()) == d.InitMessage() && d.InitMessage() + [] == d.InitMessage();
    } else {
      var before, m := moves[..|moves|-1], moves[|moves|-1];
      said, down := Explain(v, d, before);
      hide Explains;
      var s := Play(v, d, before).value;
      match m
      case ClientThink =>
        ExplainClientThink(v, d, s, said, down);
        said := said + ClientAdvance(d, s.client.stage, s.client.got).1;
      case ServerThink =>
        ExplainServerThink(v, d, s, said, down);
        down := down + Advance(v, s.server.stage, s.server.got).1;
      case _ => ExplainTransfer(v, d, s, m, said, down);
    }
  }

  /// What the server makes of a login and of a request

  // A server that has not written an answer has not opened a tunnel.
  predicate Silent(r: End<Stage>) {
    r.out == [] && !(r.stage.Done? && r.stage.outcome.Tunnel?)
  }

  lemma Slice(b: Bytes, i: nat, n: nat)
    requires i + n <= |b|
    ensures b[i..][..n] == b[i..i+n] && b[i..][n..] == b[i+n..]
  {
  }

  // One stage that writes nothing and goes on, at position `i` of `b`.
  lemma QuietStage(v: Server, stage: Stage, b: Bytes, i: nat, next: Stage)
    requires !stage.Done? && i + stage.Need() <= |b|
    requires Advance(v, stage, b[i..i+stage.Need()]) == (next, [])
    ensures RunServer(v, stage, b[i..]) == RunServer(v, next, b[i+stage.Need()..])
  {
    hide Advance;
    Slice(b, i, stage.Need());
    var after := RunServer(v, next, b[i+stage.Need()..]);
    assert [] + after.out == after.out;
  }

  lemma PortRun(v: Server, l: Option<Login>, command: Command, address: Address, b: Bytes, i: nat)
    requires i <= |b|
    ensures var r := RunServer(v, Port(l, command, address), b[i..]);
            if |b| < i + 2 then Silent(r)
            else
              var q := Request(command, address, PortOf(b[i..i+2]));
              r == End(Answer(v, l, q).0, b[i+2..], Answer(v, l, q).1)
  {
    hide Answer;
    if i + 2 <= |b| {
      Slice(b, i, 2);
      var q := Request(command, address, PortOf(b[i..i+2]));
      assert Answer(v, l, q).1 + [] == Answer(v, l, q).1;
      assert Answer(v, l, q).0.Done? by { AnswerEnds(v, l, q); }
    }
  }

  lemma AnswerEnds(v: Server, l: Option<Login>, q: Request)
    ensures Answer(v, l, q).0.Done?
  {
  }

  lemma TargetRun(v: Server, l: Option<Login>, command: Command, kind: AddressType, b: Bytes, skip: nat, n: nat)
    requires skip <= |b|
    ensures var r := RunServer(v, Target(l, command, kind, n), b[skip..]);
            match ReadBody(v.utf8, kind, command, b, skip, n)
            case Some((q, rest)) => r == End(Answer(v, l, q).0, rest, Answer(v, l, q).1)
            case None => Silent(r)
  {
    hide Answer;
    if skip + n <= |b| {
      var body := b[skip..skip+n];
      Slice(b, skip, n);
      if kind != TypeName || v.utf8(body) {
        QuietStage(v, Target(l, command, kind, n), b, skip, Port(l, command, AddressFrom(kind, body)));
        PortRun(v, l, command, AddressFrom(kind, body), b, skip + n);
        hide RunServer;
      }
    }
  }

  lemma HeaderRun(v: Server, l: Option<Login>, b: Bytes)
    ensures var r := RunServer(v, Header(l), b);
            match ReadRequest(v.utf8, b)
            case Some((q, rest)) => r == End(Answer(v, l, q).0, rest, Answer(v, l, q).1)
            case None => Silent(r)
  {
    if |b| >= 4 && b[0] == 0x05 {
      var command, kind := CommandOf(b[1]), AddressTypeOf(b[3]);
      match kind
      case TypeV4 => TargetRun(v, l, command, TypeV4, b, 4, 4);
      case TypeV6 => TargetRun(v, l, command, TypeV6, b, 4, 16);
      case TypeName =>
        if |b| >= 5 {
          Slice(b, 4, 1);
          TargetRun(v, l, command, TypeName, b, 5, b[4]);
        }
    }
  }

  lemma LoginRun(v: Server, b: Bytes)
    ensures var r := RunServer(v, AuthHeader, b);
            match ReadLogin(v.utf8, b)
            case Some((login, rest)) =>
              if v.ValidateCredentials(login) then r == After([0x01, 0x00], RunServer(v, Header(Some(login)), rest))
              else r == End(Done(Failed), rest, [0x01, 0x01])
            case None => Silent(r)
  {
    hide RunServer, Silent;
    LoginStarts(v, b);
    if |b| >= 2 && b[0] == 0x01 {
      var n: nat := b[1];
      UserRun(v, b, n);
      if |b| >= 3 + n {
        var m: nat := b[2 + n];
        PasswordRun(v, b[2..2+n], b[3+n..], m);
        if |b| >= 3 + n + m {
          Slice(b, 3 + n, m);
        }
      }
    }
  }

  lemma LoginStarts(v: Server, b: Bytes)
    ensures var r := RunServer(v, AuthHeader, b);
            if |b| < 2 || b[0] != 0x01 then Silent(r) else r == RunServer(v, User(b[1]), b[2..])
  {
    if |b| >= 2 && b[0] == 0x01 {
      QuietStage(v, AuthHeader, b, 0, User(b[1]));
      assert b[0..] == b;
    }
  }

  lemma UserRun(v: Server, b: Bytes, n: nat)
    requires |b| >= 2
    ensures var r := RunServer(v, User(n), b[2..]);
            if |b| < 3 + n || !v.utf8(b[2..2+n]) then Silent(r)
            else r == RunServer(v, Password(b[2..2+n], b[2+n]), b[3+n..])
  {
    if |b| >= 2 + n {
      Slice(b, 2, n);
      if v.utf8(b[2..2+n]) {
        QuietStage(v, User(n), b, 2, PasswordLength(b[2..2+n]));
        if |b| >= 3 + n {
          assert b[2+n..3+n] == [b[2+n]];
          QuietStage(v, PasswordLength(b[2..2+n]), b, 2 + n, Password(b[2..2+n], b[2+n]));
        }
      }
    }
  }

  lemma PasswordRun(v: Server, user: Bytes, b: Bytes, m: nat)
    ensures var r := RunServer(v, Password(user, m), b);
            if |b| < m || !v.utf8(b[..m]) then Silent(r)
            else if v.ValidateCredentials(Login(user, b[..m])) then
              r == After([0x01, 0x00], RunServer(v, Header(Some(Login(user, b[..m]))), b[m..]))
            else r == End(Done(Failed), b[m..], [0x01, 0x01])
  {
  }

  /// A client that returns Ok is connected to what the server read

  function OnlyConnect(login: Option<Login>, r: Option<(Request, Bytes)>): Option<(Option<Login>, Request)> {
    match r
    case Some((q, _)) => if q.command == Connect then Some((login, q)) else None
    case None => None
  }

  // The login and target that a server takes from all that the client can say, with or
  // without authentication.
  function Understood(utf8: Bytes -> bool, d: Dial, auth: bool): Option<(Option<Login>, Request)>
    requires auth ==> d.HasCreds()
  {
    if !auth then OnlyConnect(None, ReadRequest(utf8, d.ConnectMessage()))
    else
      match ReadLogin(utf8, d.AuthMessage() + d.ConnectMessage())
      case Some((login, rest)) => OnlyConnect(Some(login), ReadRequest(utf8, rest))
      case None => None
  }

  // A run in which the client returns Ok.
  predicate ReturnsOk(v: Server, d: Dial, moves: seq<Move>) {
    Play(v, d, moves).Some? && Play(v, d, moves).value.client.stage == Finished(true)
  }

  predicate Grants(v: Server, login: Option<Login>, r: Request) {
    && (v.authRequired ==> login.Some? && v.Vouches(login.value))
    && v.connect(r).Connected?
  }

  lemma GreetingRun(v: Server, d: Dial, b: Bytes)
    ensures var m := MethodPart(v, d);
            var stage := if m[1] == 0x00 then Header(None) else if m[1] == 0x02 then AuthHeader else Done(Failed);
            RunServer(v, Greeting, d.InitMessage() + b) == After(m, RunServer(v, stage, b))
  {
    var init := d.InitMessage();
    var n: nat := |init| - 2;
    assert (init + b)[..2] == init[..2] && (init + b)[2..] == init[2..] + b;
    QuietStage(v, Greeting, init + b, 0, Methods(n));
    assert (init + b)[0..] == init + b;
    Selects(v, d);
    ServerThinks(v, Methods(n), init[2..], b);
  }

  lemma ClientReplies(d: Dial, b: Bytes)
    ensures var r := RunClient(d, AwaitReply, b);
            r.out == [] && (r.stage == Finished(true) ==> |b| >= 4 && b[0] == 0x05 && b[1] == 0x00)
  {
  }

  // What a client that returns Ok must have been told, and what it must have said.
  predicate TellsOk(d: Dial, down: Bytes, said: Bytes) {
    && |down| >= 6 && down[0] == 0x05
    && if down[1] == 0x02 && d.HasCreds() then
         said == d.AuthMessage() + d.ConnectMessage() && |down| >= 8 && down[2..6] == [0x01, 0x00, 0x05, 0x00]
       else
         down[1] == 0x00 && said == d.ConnectMessage() && down[2..4] == [0x05, 0x00]
  }

  lemma ClientWaits(d: Dial, stage: ClientStage, b: Bytes)
    requires !stage.Finished? && RunClient(d, stage, b).stage.Finished?
    ensures |b| >= stage.Need() && b == b[..stage.Need()] + b[stage.Need()..]
  {
  }

  lemma ClientOk(d: Dial, down: Bytes)
    requires RunClient(d, AwaitMethod, down).stage == Finished(true)
    ensures TellsOk(d, down, RunClient(d, AwaitMethod, down).out)
  {
    ClientWaits(d, AwaitMethod, down);
    var choice, rest, connect := down[..2], down[2..], d.ConnectMessage();
    ClientThinks(d, AwaitMethod, choice, rest);
    assert choice[0] == 0x05 && choice[1] in {0x00, 0x02} by { RefusedIsOver(d, choice, rest); }
    hide RunClient, Dial.AuthMessage, Dial.ConnectMessage;
    assert connect + [] == connect;
    if down[1] == 0x02 && d.HasCreds() {
      AwaitAuthOk(d, rest);
      assert down[2..6] == rest[..4];
    } else {
      ClientReplies(d, rest);
      assert down[2..4] == rest[..2];
    }
  }

  lemma RefusedIsOver(d: Dial, choice: Bytes, rest: Bytes)
    requires |choice| == 2 && RunClient(d, ClientAdvance(d, AwaitMethod, choice).0, rest).stage == Finished(true)
    ensures choice[0] == 0x05 && choice[1] in {0x00, 0x02}
  {
    hide Dial.AuthMessage, Dial.ConnectMessage;
  }

  lemma AwaitAuthOk(d: Dial, b: Bytes)
    requires RunClient(d, AwaitAuth, b).stage == Finished(true)
    ensures |b| >= 6 && b[..4] == [0x01, 0x00, 0x05, 0x00]
    ensures RunClient(d, AwaitAuth, b).out == d.ConnectMessage()
  {
    ClientWaits(d, AwaitAuth, b);
    var status, rest := b[..2], b[2..];
    assert d.ConnectMessage() + [] == d.ConnectMessage();
    ClientThinks(d, AwaitAuth, status, rest);
    ClientReplies(d, rest);
    assert b[..4] == status + rest[..2];
  }

  lemma {:induction false} TunnelWritesReply(v: Server, stage: Stage, b: Bytes)
    requires !stage.Done?
    ensures match RunServer(v, stage, b).stage
            case Done(Tunnel(l, q)) => |RunServer(v, stage, b).out| >= |Answer(v, l, q).1|
            case _ => true
    decreases stage.Rank()
  {
    if stage.Need() <= |b| {
      var next := Advance(v, stage, b[..stage.Need()]).0;
      if !next.Done? {
        TunnelWritesReply(v, next, b[stage.Need()..]);
      }
    }
  }

  lemma GoodAnswer(v: Server, l: Option<Login>, q: Request)
    requires |Answer(v, l, q).1| >= 2 && Answer(v, l, q).1[1] == 0x00
    ensures q.command == Connect && v.connect(q).Connected? && Answer(v, l, q).0 == Done(Tunnel(l, q))
  {
  }

  // The server's part: it wrote `before` up to the request, and an answer that begins well.
  lemma AnsweredWell(v: Server, l: Option<Login>, b: Bytes, before: Bytes, down: Bytes, z: End<Stage>)
    requires After(before, RunServer(v, Header(l), b)) == After(down, z)
    requires |down| >= |before| + 2 && down[|before|+1] == 0x00
    ensures var r := ReadRequest(v.utf8, b);
            && OnlyConnect(l, r).Some? && v.connect(r.value.0).Connected?
            && z.stage == Done(Tunnel(l, r.value.0))
            && |z.out| < |Answer(v, l, r.value.0).1|
  {
    HeaderRun(v, l, b);
    var r := RunServer(v, Header(l), b);
    hide RunServer, Answer;
    assert before + r.out == down + z.out;
    assert r.out[1] == (before + r.out)[|before|+1] == down[|before|+1];
    GoodAnswer(v, l, ReadRequest(v.utf8, b).value.0);
  }

  // The session of a client that returned Ok, once the server has nothing more to say.
  predicate Concluded(v: Server, d: Dial, z: End<Stage>) {
    && (v.authRequired ==> d.HasCreds())
    && match Understood(v.utf8, d, v.authRequired)
       case Some((login, r)) =>
         Grants(v, login, r) && z.stage == Done(Tunnel(login, r)) && |z.out| < |Answer(v, login, r).1|
       case None => false
  }

  lemma PlainOk(v: Server, d: Dial, said: Bytes, down: Bytes, z: End<Stage>)
    requires !v.authRequired && TellsOk(d, down, said)
    requires RunServer(v, Greeting, d.InitMessage() + said) == After(down, z)
    ensures Concluded(v, d, z)
  {
    hide RunServer, ReadRequest, Answer;
    GreetingRun(v, d, said);
    var r := RunServer(v, Header(None), said);
    assert MethodPart(v, d) + r.out == down + z.out;
    assert down[1] == (down + z.out)[1] == 0x00;
    assert down[3] == down[2..4][1];
    AnsweredWell(v, None, said, MethodPart(v, d), down, z);
  }

  lemma AuthenticatedOk(v: Server, d: Dial, said: Bytes, down: Bytes, z: End<Stage>)
    requires v.authRequired && TellsOk(d, down, said)
    requires RunServer(v, Greeting, d.InitMessage() + said) == After(down, z)
    ensures Concluded(v, d, z)
  {
    hide RunServer, ReadRequest, ReadLogin, Answer;
    var m := MethodPart(v, d);
    var stage := if d.HasCreds() then AuthHeader else Done(Failed);
    GreetingRun(v, d, said);
    var r := RunServer(v, stage, said);
    assert m + r.out == down + z.out;
    assert down[1] == (down + z.out)[1] == m[1];
    assert down[3] == down[2..6][1] && down[5] == down[2..6][3];
    LoginRun(v, said);
    var (login, rest) := ReadLogin(v.utf8, said).value;
    AfterAfter(m, [0x01, 0x00], RunServer(v, Header(Some(login)), rest));
    AnsweredWell(v, Some(login), rest, m + [0x01, 0x00], down, z);
  }

  // For every server, every client and every run: a client that returned Ok has a tunnel
  // to the target, and under the login, that the server read from the client's bytes.
  lemma OkMeansUnderstood(v: Server, d: Dial, moves: seq<Move>)
    requires ReturnsOk(v, d, moves)
    ensures v.authRequired ==> d.HasCreds()
    ensures match Understood(v.utf8, d, v.authRequired)
            case Some((login, r)) =>
              Play(v, d, moves).value.server.stage == Done(Tunnel(login, r)) && Grants(v, login, r)
            case None => false
  {
    hide RunServer, RunClient, Understood, Answer, TellsOk, Play, Grants;
    var said, down := Explain(v, d, moves);
    var s := Play(v, d, moves).value;
    var coming := s.server.got + (s.up + s.client.out);
    var z := RunServer(v, s.server.stage, coming);
    ClientSaid(d, down, said, s.client.got + (s.down + s.server.out));
    if v.authRequired {
      AuthenticatedOk(v, d, said, down, z);
    } else {
      PlainOk(v, d, said, down, z);
    }
    if s.server.stage.Done? {
      ServerOver(v, s.server.stage, coming);
    } else {
      TunnelWritesReply(v, s.server.stage, coming);
    }
  }

  lemma ClientSaid(d: Dial, down: Bytes, said: Bytes, rest: Bytes)
    requires RunClient(d, AwaitMethod, down) == After(said, RunClient(d, Finished(true), rest))
    ensures TellsOk(d, down, said)
  {
    assert said + [] == said;
    ClientOk(d, down);
  }

  lemma ServerOver(v: Server, stage: Stage, b: Bytes)
    requires stage.Done?
    ensures RunServer(v, stage, b) == End(stage, b, [])
  {
  }

  /// Whatever the server would grant, some run reaches

  ghost predicate Reachable(v: Server, d: Dial, s: System) {
    exists moves :: Play(v, d, moves) == Some(s)
  }

  lemma Goes(v: Server, d: Dial, s: System, m: Move)
    requires Reachable(v, d, s) && Enabled(s, m)
    ensures Reachable(v, d, Apply(v, d, s, m))
  {
    hide Enabled, Apply;
    var moves :| Play(v, d, moves) == Some(s);
    assert (moves + [m])[..|moves|] == moves;
    assert Play(v, d, moves + [m]) == Some(Apply(v, d, s, m));
  }

  lemma ServerReceives(v: Server, d: Dial, s: System)
    requires Reachable(v, d, s) && ServerReads(s) && s.server.got == [] && s.server.stage.Need() <= |s.up|
    ensures var n := s.server.stage.Need();
            Reachable(v, d, s.(server := s.server.(got := s.up[..n]), up := s.up[n..]))
  {
    var n := s.server.stage.Need();
    assert [] + s.up[..n] == s.up[..n];
    if n > 0 {
      Goes(v, d, s, ServerReceive(n));
    } else {
      assert s == s.(server := s.server.(got := s.up[..n]), up := s.up[n..]);
    }
  }

  lemma ServerSends(v: Server, d: Dial, s: System)
    requires Reachable(v, d, s)
    ensures Reachable(v, d, s.(server := s.server.(out := []), down := s.down + s.server.out))
  {
    var out := s.server.out;
    if out != [] {
      assert out[..|out|] == out && out[|out|..] == [];
      Goes(v, d, s, ServerSend(|s.server.out|));
    } else {
      assert s.down + [] == s.down;
      assert s == s.(server := s.server.(out := []), down := s.down + s.server.out);
    }
  }

  // The server uses up what has arrived and writes its answers.
  lemma {:induction false} ServerRuns(v: Server, d: Dial, s: System)
    requires Reachable(v, d, s) && s.server.got == [] && s.server.out == []
    ensures var r := RunServer(v, s.server.stage, s.up);
            Reachable(v, d, s.(server := End(r.stage, [], []), up := r.got, down := s.down + r.out))
    decreases s.server.stage.Rank()
  {
    hide Reachable, Advance;
    var stage := s.server.stage;
    if stage.Done? || |s.up| < stage.Need() {
      assert s == s.(server := End(stage, [], []), up := s.up, down := s.down + []);
    } else {
      var n := stage.Need();
      ServerReceives(v, d, s);
      var s1 := s.(server := s.server.(got := s.up[..n]), up := s.up[n..]);
      Goes(v, d, s1, ServerThink);
      var (next, out) := Advance(v, stage, s.up[..n]);
      var s2 := s1.(server := End(next, [], out));
      ServerSends(v, d, s2);
      ServerRuns(v, d, s2.(server := End(next, [], []), down := s.down + out));
      var after := RunServer(v, next, s.up[n..]);
      assert (s.down + out) + after.out == s.down + (out + after.out);
    }
  }

  lemma ClientReceives(v: Server, d: Dial, s: System)
    requires Reachable(v, d, s) && ClientReads(s) && s.client.got == [] && s.client.stage.Need() <= |s.down|
    ensures var n := s.client.stage.Need();
            Reachable(v, d, s.(client := s.client.(got := s.down[..n]), down := s.down[n..]))
  {
    var n := s.client.stage.Need();
    assert [] + s.down[..n] == s.down[..n];
    if n > 0 {
      Goes(v, d, s, ClientReceive(n));
    } else {
      assert s == s.(client := s.client.(got := s.down[..n]), down := s.down[n..]);
    }
  }

  lemma ClientSends(v: Server, d: Dial, s: System)
    requires Reachable(v, d, s)
    ensures Reachable(v, d, s.(client := s.client.(out := []), up := s.up + s.client.out))
  {
    var out := s.client.out;
    if out != [] {
      assert out[..|out|] == out && out[|out|..] == [];
      Goes(v, d, s, ClientSend(|s.client.out|));
    } else {
      assert s.up + [] == s.up;
      assert s == s.(client := s.client.(out := []), up := s.up + s.client.out);
    }
  }

  lemma {:induction false} ClientRuns(v: Server, d: Dial, s: System)
    requires Reachable(v, d, s) && s.client.got == [] && s.client.out == []
    ensures var r := RunClient(d, s.client.stage, s.down);
            Reachable(v, d, s.(client := End(r.stage, [], []), down := r.got, up := s.up + r.out))
    decreases s.client.stage.Rank()
  {
    hide Reachable, ClientAdvance;
    var stage := s.client.stage;
    if stage.Finished? || |s.down| < stage.Need() {
      assert s == s.(client := End(stage, [], []), down := s.down, up := s.up + []);
    } else {
      var n := stage.Need();
      ClientReceives(v, d, s);
      var s1 := s.(client := s.client.(got := s.down[..n]), down := s.down[n..]);
      Goes(v, d, s1, ClientThink);
      var (next, out) := ClientAdvance(d, stage, s.down[..n]);
      var s2 := s1.(client := End(next, [], out));
      ClientSends(v, d, s2);
      ClientRuns(v, d, s2.(client := End(next, [], []), up := s.up + out));
      var after := RunClient(d, next, s.down[n..]);
      assert (s.up + out) + after.out == s.up + (out + after.out);
    }
  }

  // Both ends in turn: the server on what it was sent, and the client on its answers.
  lemma RoundRuns(v: Server, d: Dial, client: ClientStage, server: Stage, up: Bytes, down: Bytes)
    requires Reachable(v, d, System(End(client, [], []), End(server, [], []), up, down))
    ensures var z := RunServer(v, server, up);
            var c := RunClient(d, client, down + z.out);
            Reachable(v, d, System(End(c.stage, [], []), End(z.stage, [], []), z.got + c.out, c.got))
  {
    hide Reachable, RunServer, RunClient;
    var z := RunServer(v, server, up);
    ServerRuns(v, d, System(End(client, [], []), End(server, [], []), up, down));
    ClientRuns(v, d, System(End(client, [], []), End(z.stage, [], []), z.got, down + z.out));
  }

  lemma ReplyIsRead(d: Dial, bound: Bound)
    requires bound.Valid()
    ensures RunClient(d, AwaitReply, EncodeReply(NewSuccess(bound))) == End(Finished(true), [], [])
  {
    var b := EncodeReply(NewSuccess(bound));
    match bound
    case BoundV4(o, port) =>
      assert b == [0x05, 0x00, 0x00, 0x01] + (o + PortBytes(port));
      assert b[4..] == o + PortBytes(port);
    case BoundV6(o, port) =>
      assert b == [0x05, 0x00, 0x00, 0x04] + (o + PortBytes(port));
      assert b[4..] == o + PortBytes(port);
  }

  // The login is read from the authentication message alone, however long its fields.
  lemma LoginIsInMessage(utf8: Bytes -> bool, d: Dial, more: Bytes)
    requires d.HasCreds()
    ensures match ReadLogin(utf8, d.AuthMessage() + more)
            case Some((login, rest)) =>
              ReadLogin(utf8, d.AuthMessage()).Some? && ReadLogin(utf8, d.AuthMessage()).value.0 == login
            case None => true
  {
    hide Dial.AuthMessage;
    var u, a := d.username.value, d.AuthMessage();
    var b := a + more;
    var n: nat := LowByte(|u|);
    MessageBytes(d);
    assert b[0] == a[0] && b[1] == a[1] && b[2+n] == a[2+n];
    var m: nat := a[2+n];
    assert 3 + n + m <= |a|;
    assert b[2..2+n] == a[2..2+n] && b[3+n..3+n+m] == a[3+n..3+n+m];
  }

  predicate Wanted(v: Server, d: Dial, login: Option<Login>, r: Request) {
    && (v.authRequired ==> d.HasCreds())
    && Understood(v.utf8, d, v.authRequired) == Some((login, r))
    && Grants(v, login, r) && v.connect(r).bound.Valid()
  }

  ghost predicate Opened(v: Server, d: Dial, login: Option<Login>, r: Request) {
    exists moves :: ReturnsOk(v, d, moves) && Play(v, d, moves).value.server.stage == Done(Tunnel(login, r))
  }

  lemma OpenedHere(v: Server, d: Dial, s: System, login: Option<Login>, r: Request)
    requires Reachable(v, d, s) && s.client.stage == Finished(true) && s.server.stage == Done(Tunnel(login, r))
    ensures Opened(v, d, login, r)
  {
  }

  lemma ServerWaits(v: Server, stage: Stage)
    requires stage.Need() > 0
    ensures RunServer(v, stage, []) == End(stage, [], [])
  {
  }

  lemma ServerIsGreeted(v: Server, d: Dial)
    requires v.authRequired ==> d.HasCreds()
    ensures RunServer(v, Greeting, d.InitMessage()) ==
            End(if v.authRequired then AuthHeader else Header(None), [], MethodPart(v, d))
  {
    hide RunServer, Dial.InitMessage;
    GreetingRun(v, d, []);
    ServerWaits(v, if v.authRequired then AuthHeader else Header(None));
    assert d.InitMessage() + [] == d.InitMessage() && MethodPart(v, d) + [] == MethodPart(v, d);
  }

  lemma ClientIsAnswered(v: Server, d: Dial)
    requires v.authRequired ==> d.HasCreds()
    ensures RunClient(d, AwaitMethod, MethodPart(v, d)) ==
            if v.authRequired then End(AwaitAuth, [], d.AuthMessage()) else End(AwaitReply, [], d.ConnectMessage())
  {
    hide Dial.AuthMessage, Dial.ConnectMessage;
    var m := MethodPart(v, d);
    ClientThinks(d, AwaitMethod, m, []);
    assert m + [] == m;
    assert d.ConnectMessage() + [] == d.ConnectMessage();
    if v.authRequired {
      assert d.AuthMessage() + [] == d.AuthMessage();
    }
  }

  lemma Greets(v: Server, d: Dial)
    requires v.authRequired ==> d.HasCreds()
    ensures Reachable(v, d, if v.authRequired
                            then System(End(AwaitAuth, [], []), End(AuthHeader, [], []), d.AuthMessage(), [])
                            else System(End(AwaitReply, [], []), End(Header(None), [], []), d.ConnectMessage(), []))
  {
    assert Play(v, d, []) == Some(Start(d));
    hide RunServer, RunClient, MethodPart, Dial.InitMessage, Dial.AuthMessage, Dial.ConnectMessage;
    var init, m := d.InitMessage(), MethodPart(v, d);
    ClientSends(v, d, Start(d));
    hide Reachable;
    assert [] + init == init && [] + m == m;
    ServerIsGreeted(v, d);
    ClientIsAnswered(v, d);
    RoundRuns(v, d, AwaitMethod, Greeting, init, []);
    var says := if v.authRequired then d.AuthMessage() else d.ConnectMessage();
    assert [] + says == says;
  }

  lemma PlainIsReached(v: Server, d: Dial, r: Request)
    requires !v.authRequired && Wanted(v, d, None, r)
    ensures Opened(v, d, None, r)
  {
    Greets(v, d);
    var b := d.ConnectMessage();
    HeaderRun(v, None, b);
    var reply := EncodeReply(NewSuccess(v.connect(r).bound));
    ReplyIsRead(d, v.connect(r).bound);
    assert [] + reply == reply;
    hide Reachable, RunServer, RunClient;
    RoundRuns(v, d, AwaitReply, Header(None), b, []);
    var z := RunServer(v, Header(None), b);
    OpenedHere(v, d, System(End(Finished(true), [], []), End(z.stage, [], []), z.got + [], []), None, r);
  }

  lemma StatusIsRead(d: Dial, b: Bytes)
    requires d.HasCreds()
    ensures RunClient(d, AwaitAuth, [0x01, 0x00] + b) == After(d.ConnectMessage(), RunClient(d, AwaitReply, b))
    ensures RunClient(d, AwaitAuth, [0x01, 0x00] + b).out == d.ConnectMessage()
  {
    ClientThinks(d, AwaitAuth, [0x01, 0x00], b);
    ClientReplies(d, b);
    assert d.ConnectMessage() + [] == d.ConnectMessage();
  }

  lemma AuthenticatedIsReached(v: Server, d: Dial, login: Option<Login>, r: Request)
    requires v.authRequired && Wanted(v, d, login, r)
    ensures Opened(v, d, login, r)
  {
    hide Reachable, RunServer, RunClient, ReadLogin, ReadRequest, Opened;
    var a, b := d.AuthMessage(), d.ConnectMessage();
    Greets(v, d);
    var r1 := RunServer(v, AuthHeader, a);
    var c1 := RunClient(d, AwaitAuth, r1.out);
    var z2 := RunServer(v, r1.stage, r1.got + b);
    var c2 := RunClient(d, c1.stage, c1.got + z2.out);
    LoginIsInMessage(v.utf8, d, b);
    LoginRun(v, a);
    var sent := RunServer(v, Header(login), ReadLogin(v.utf8, a).value.1);
    assert r1 == After([0x01, 0x00], sent);
    StatusIsRead(d, sent.out);
    assert [] + r1.out == r1.out;
    RoundRuns(v, d, AwaitAuth, AuthHeader, a, []);
    RoundRuns(v, d, c1.stage, r1.stage, r1.got + b, c1.got);
    BothParts(v, d, login, r);
    OpenedHere(v, d, System(End(c2.stage, [], []), End(z2.stage, [], []), z2.got + c2.out, c2.got), login, r);
  }

  // The two rounds together come to what one run on all the bytes would.
  lemma BothParts(v: Server, d: Dial, login: Option<Login>, r: Request)
    requires v.authRequired && Wanted(v, d, login, r)
    ensures var r1 := RunServer(v, AuthHeader, d.AuthMessage());
            var c1 := RunClient(d, AwaitAuth, r1.out);
            var z2 := RunServer(v, r1.stage, r1.got + d.ConnectMessage());
            z2.stage == Done(Tunnel(login, r)) && RunClient(d, c1.stage, c1.got + z2.out).stage == Finished(true)
  {
    hide RunServer, RunClient, ReadLogin, ReadRequest;
    var a, b := d.AuthMessage(), d.ConnectMessage();
    var r1 := RunServer(v, AuthHeader, a);
    var c1 := RunClient(d, AwaitAuth, r1.out);
    var z2 := RunServer(v, r1.stage, r1.got + b);
    var reply := EncodeReply(NewSuccess(v.connect(r).bound));
    RunServerOn(v, AuthHeader, a, b);
    LoginRun(v, a + b);
    HeaderRun(v, login, ReadLogin(v.utf8, a + b).value.1);
    assert r1.out + z2.out == [0x01, 0x00] + reply;
    RunClientOn(d, AwaitAuth, r1.out, z2.out);
    StatusIsRead(d, reply);
    ReplyIsRead(d, v.connect(r).bound);
  }

  // Some run ends with a client that returned Ok and a tunnel to `r` for `login`, if and
  // only if this is what the server reads from the client's bytes, and grants.
  lemma OkExactlyWhen(v: Server, d: Dial, login: Option<Login>, r: Request)
    requires Sane(v)
    ensures Opened(v, d, login, r) <==>
            && (v.authRequired ==> d.HasCreds())
            && Understood(v.utf8, d, v.authRequired) == Some((login, r)) && Grants(v, login, r)
  {
    hide Understood, Play;
    if Opened(v, d, login, r) {
      var moves :| ReturnsOk(v, d, moves) && Play(v, d, moves).value.server.stage == Done(Tunnel(login, r));
      OkMeansUnderstood(v, d, moves);
    } else if Wanted(v, d, login, r) {
      if v.authRequired {
        AuthenticatedIsReached(v, d, login, r);
      } else {
        assert login == None by { PlainLogin(v.utf8, d, login, r); }
        PlainIsReached(v, d, r);
      }
    }
  }

  lemma PlainLogin(utf8: Bytes -> bool, d: Dial, login: Option<Login>, r: Request)
    requires Understood(utf8, d, false) == Some((login, r))
    ensures login == None
  {
  }

  /// When that is the client's own target and login

  // The client's fields are well-formed text.
  predicate Texts(utf8: Bytes -> bool, d: Dial) {
    && d.address.Valid()
    && (d.address.DomainName? ==> utf8(d.address.name))
    && (d.HasCreds() ==> utf8(d.username.value) && utf8(d.password.value))
  }

  // The part of a long name that its length byte covers, and the request this makes.
  function CutName(name: Bytes): Bytes {
    name[..|name| % 256]
  }

  function CutRequest(name: Bytes): Request
    requires !Short(name)
  {
    var k := |name| % 256;
    Request(Connect, DomainName(CutName(name)), PortOf(name[k..k+2]))
  }

  // What is then left for the tunnel to begin with.
  function Stray(name: Bytes, port: U16): Bytes
    requires !Short(name)
  {
    name[|name| % 256 + 2..] + PortBytes(port)
  }

  lemma BodyIsRead(utf8: Bytes -> bool, kind: AddressType, head: Bytes, body: Bytes, port: Bytes, tail: Bytes)
    requires |port| == 2
    ensures ReadBody(utf8, kind, Connect, head + body + port + tail, |head|, |body|) ==
            if kind == TypeName && !utf8(body) then None
            else Some((Request(Connect, AddressFrom(kind, body), PortOf(port)), tail))
  {
    Slices(head, body, port, tail);
  }

  // What comes before the address of a request.
  function RequestHead(a: Address): Bytes {
    [0x05, 0x01, 0x00, a.TypeByte()] + (if a.DomainName? then [LowByte(|a.name|)] else [])
  }

  lemma ConnectParts(d: Dial)
    ensures d.ConnectMessage() == RequestHead(d.address) + Body(d.address) + PortBytes(d.port) + []
    ensures PortOf(PortBytes(d.port)) == d.port
  {
  }

  lemma ShortNameIsRead(utf8: Bytes -> bool, d: Dial)
    requires Texts(utf8, d) && Short(Body(d.address))
    ensures ReadRequest(utf8, d.ConnectMessage()) == Some((TheRequest(d), []))
  {
    hide ReadBody, Dial.ConnectMessage;
    var head, body, port := RequestHead(d.address), Body(d.address), PortBytes(d.port);
    var b := head + body + port + [];
    ConnectParts(d);
    assert forall k :: 0 <= k < |head| ==> b[k] == head[k];
    BodyIsRead(utf8, d.address.Type(), head, body, port, []);
  }

  lemma LongNameIsCut(utf8: Bytes -> bool, d: Dial)
    requires d.address.DomainName? && !Short(d.address.name)
    ensures var name := d.address.name;
            ReadRequest(utf8, d.ConnectMessage()) ==
              if utf8(CutName(name)) then Some((CutRequest(name), Stray(name, d.port))) else None
    ensures CutRequest(d.address.name) != TheRequest(d)
  {
    var name := d.address.name;
    var k := LowByte(|name|);
    var head: Bytes := [0x05, 0x01, 0x00, 0x03, k];
    var b := head + name[..k] + name[k..k+2] + Stray(name, d.port);
    LongNameBytes(d, k);
    assert forall i :: 0 <= i < 5 ==> b[i] == head[i];
    hide ReadBody;
    BodyIsRead(utf8, TypeName, head, name[..k], name[k..k+2], Stray(name, d.port));
  }

  lemma LongNameBytes(d: Dial, k: U8)
    requires d.address.DomainName? && !Short(d.address.name) && k == LowByte(|d.address.name|)
    ensures var name := d.address.name;
            d.ConnectMessage() == [0x05, 0x01, 0x00, 0x03, k] + name[..k] + name[k..k+2] + Stray(name, d.port)
  {
    var name := d.address.name;
    assert name == name[..k] + name[k..k+2] + name[k+2..];
  }

  lemma ShortLoginIsRead(utf8: Bytes -> bool, d: Dial, more: Bytes)
    requires Texts(utf8, d) && d.HasCreds() && LoginShort(Some(d.Creds()))
    ensures ReadLogin(utf8, d.AuthMessage() + more) == Some((d.Creds(), more))
  {
    var u, p := d.username.value, d.password.value;
    var head: Bytes := [0x01, LowByte(|u|)];
    var b := head + u + ([LowByte(|p|)] + p) + more;
    assert d.AuthMessage() + more == b;
    Slices(head, u, [LowByte(|p|)] + p, more);
    LoginParts(b, u, p, more);
  }

  lemma LoginParts(b: Bytes, u: Bytes, p: Bytes, more: Bytes)
    requires Short(u) && Short(p) && |b| == 3 + |u| + |p| + |more|
    requires b[0] == 0x01 && b[1] == |u| && b[2..2+|u|] == u
    requires b[2+|u|..3+|u|+|p|] == [LowByte(|p|)] + p && b[3+|u|+|p|..] == more
    ensures b[2+|u|] == |p| && b[3+|u|..3+|u|+|p|] == p
  {
    assert b[2+|u|] == b[2+|u|..3+|u|+|p|][0];
    assert b[3+|u|..3+|u|+|p|] == b[2+|u|..3+|u|+|p|][1..];
  }

  // The credentials are longer than they can say, and their bytes, read with the lengths
  // that are sent, hold a login and after it a CONNECT request.
  predicate LoginMisread(utf8: Bytes -> bool, d: Dial) {
    d.HasCreds() && !LoginShort(Some(d.Creds())) && Understood(utf8, d, true).Some?
  }

  predicate NameMisread(utf8: Bytes -> bool, a: Address) {
    a.DomainName? && !Short(a.name) && utf8(CutName(a.name))
  }

  // A client that returns Ok, from any server with this notion of text, has a tunnel to
  // its own target under its own login.
  ghost predicate OkMeansOwn(utf8: Bytes -> bool, d: Dial) {
    forall v: Server, moves :: v.utf8 == utf8 && ReturnsOk(v, d, moves) ==>
      Play(v, d, moves).value.server.stage == Done(Tunnel(TheLogin(v, d), TheRequest(d)))
  }

  function Accepting(utf8: Bytes -> bool, auth: bool): (v: Server)
    ensures Sane(v)
  {
    Server(auth, Some((l: Login) => Ok(true)), utf8, (r: Request) => Connected(BoundV4([0, 0, 0, 0], 0)))
  }

  lemma MisreadIsNotOwn(utf8: Bytes -> bool, d: Dial)
    requires d.address.Valid() && (NameMisread(utf8, d.address) || LoginMisread(utf8, d))
    ensures !OkMeansOwn(utf8, d)
  {
    hide ReadRequest;
    var auth := !NameMisread(utf8, d.address);
    var v := Accepting(utf8, auth);
    if !auth {
      LongNameIsCut(utf8, d);
    }
    var (login, r) := Understood(utf8, d, auth).value;
    OkExactlyWhen(v, d, login, r);
    assert (login, r) != (TheLogin(v, d), TheRequest(d));
  }

  lemma OwnIsUnderstood(utf8: Bytes -> bool, d: Dial, auth: bool)
    requires Texts(utf8, d) && !NameMisread(utf8, d.address) && !LoginMisread(utf8, d)
    requires (auth ==> d.HasCreds()) && Understood(utf8, d, auth).Some?
    ensures Understood(utf8, d, auth) == Some((if auth then Some(d.Creds()) else None, TheRequest(d)))
  {
    hide ReadRequest, ReadLogin;
    if auth {
      ShortLoginIsRead(utf8, d, d.ConnectMessage());
    }
    if Short(Body(d.address)) {
      ShortNameIsRead(utf8, d);
    } else {
      LongNameIsCut(utf8, d);
    }
  }

  // Exactly when Ok means the client's own tunnel: when neither its target nor, where it
  // has any, its credentials can be misread. Fields of at most 255 bytes never are.
  lemma OkMeansOwnExactlyWhen(utf8: Bytes -> bool, d: Dial)
    requires Texts(utf8, d)
    ensures OkMeansOwn(utf8, d) <==> !NameMisread(utf8, d.address) && !LoginMisread(utf8, d)
  {
    hide Understood, Play, CutName;
    if NameMisread(utf8, d.address) || LoginMisread(utf8, d) {
      MisreadIsNotOwn(utf8, d);
    } else {
      forall v: Server, moves | v.utf8 == utf8 && ReturnsOk(v, d, moves)
        ensures Play(v, d, moves).value.server.stage == Done(Tunnel(TheLogin(v, d), TheRequest(d)))
      {
        OkMeansUnderstood(v, d, moves);
        OwnIsUnderstood(utf8, d, v.authRequired);
      }
    }
  }

  // A server that reads a long name as well-formed text, and connects to what it read,
  // gives the client a tunnel to another target and tells it Ok; the end of the name is
  // the first thing sent into that tunnel.
  lemma LongNameGoesElsewhere(v: Server, d: Dial)
    requires NameMisread(v.utf8, d.address) && Sane(v) && v.connect(CutRequest(d.address.name)).Connected?
    requires AuthPasses(v, d)
    requires v.authRequired ==> Texts(v.utf8, d) && LoginShort(TheLogin(v, d))
    ensures var r := CutRequest(d.address.name);
            && r != TheRequest(d) && Opened(v, d, TheLogin(v, d), r)
            && Serve(v, Header(TheLogin(v, d)), d.ConnectMessage())
               == Served(Tunnel(TheLogin(v, d), r), EncodeReply(NewSuccess(v.connect(r).bound)),
                         Stray(d.address.name, d.port))
            && Converse(d, AwaitReply, EncodeReply(NewSuccess(v.connect(r).bound))).ok
  {
    hide ReadRequest, ReadLogin, RunServer, RunClient, Serve, Converse;
    var r, login := CutRequest(d.address.name), TheLogin(v, d);
    var reply := EncodeReply(NewSuccess(v.connect(r).bound));
    LongNameIsCut(v.utf8, d);
    if v.authRequired {
      ShortLoginIsRead(v.utf8, d, d.ConnectMessage());
    }
    assert Understood(v.utf8, d, v.authRequired) == Some((login, r));
    OkExactlyWhen(v, d, login, r);
    HeaderRun(v, login, d.ConnectMessage());
    ServeIsRun(v, Header(login), d.ConnectMessage());
    ReplyIsRead(d, v.connect(r).bound);
    ConverseIsRun(d, AwaitReply, reply);
  }

  lemma MessageBytes(d: Dial)
    requires d.HasCreds()
    ensures var u, p, a := d.username.value, d.password.value, d.AuthMessage();
            && |a| == 3 + |u| + |p| && a[0] == 0x01 && a[1] == LowByte(|u|) && a[2+|u|] == LowByte(|p|)
            && (forall i :: 2 <= i < 2 + |u| ==> a[i] == u[i-2])
            && (forall i :: 3 + |u| <= i < |a| ==> a[i] == p[i-3-|u|])
  {
  }

  lemma NoRequestHere(utf8: Bytes -> bool, b: Bytes)
    requires b != [] && b[0] != 0x05
    ensures ReadRequest(utf8, b) == None
  {
  }

  // Long credentials without the byte 5 in them or in the password's length are never
  // misread: what follows the login that the server reads does not begin a request.
  lemma PlainLongLoginIsRefused(utf8: Bytes -> bool, d: Dial)
    requires d.HasCreds() && !LoginShort(Some(d.Creds()))
    requires 0x05 !in d.username.value && 0x05 !in d.password.value && LowByte(|d.password.value|) != 0x05
    ensures !LoginMisread(utf8, d)
  {
    hide Dial.AuthMessage, Dial.ConnectMessage, ReadRequest;
    var u, a := d.username.value, d.AuthMessage();
    var b := a + d.ConnectMessage();
    var n: nat := LowByte(|u|);
    MessageBytes(d);
    assert b[..|a|] == a && b[0] == a[0] && b[1] == a[1] && b[2+n] == a[2+n];
    var at: nat := 3 + n + a[2+n] as nat;
    assert at < |a| && b[at] == a[at] != 0x05;
    assert b[at..] != [] && b[at..][0] == b[at];
    NoRequestHere(utf8, b[at..]);
  }

  // But long credentials can be misread: here a user name that reads as an empty login
  // followed by a request for another target.
  lemma LongLoginCanBeMisread(d: Dial)
    requires d.username == Some([0x00, 0x05, 0x01, 0x00, 0x01, 0, 0, 0, 0, 0, 80] + seq(245, _ => 0x41))
    requires d.password == Some([])
    ensures LoginMisread(_ => true, d)
  {
    var a := d.AuthMessage();
    assert |d.username.value| == 256;
    var b := a + d.ConnectMessage();
    assert b[..14] == [0x01, 0x00, 0x00, 0x05, 0x01, 0x00, 0x01, 0, 0, 0, 0, 0, 80, 0x41];
    assert b[0] == b[..14][0] && b[1] == b[..14][1] && b[2] == b[..14][2];
    var rest := b[3..];
    assert rest[0] == b[..14][3] && rest[1] == b[..14][4] && rest[3] == b[..14][6];
  }

  /// When the whole session agrees

  // The fields that this server gets to see are at most 255 bytes.
  predicate SentShort(v: Server, d: Dial) {
    (AuthPasses(v, d) ==> Short(Body(d.address))) && LoginShort(TheLogin(v, d))
  }

  lemma RunToEnd(v: Server, d: Dial, moves: seq<Move>) returns (all: seq<Move>)
    requires Sane(v) && Play(v, d, moves).Some?
    ensures Play(v, d, all).Some? && forall m :: !Enabled(Play(v, d, all).value, m)
    decreases Measure(d, Play(v, d, moves).value)
  {
    hide Enabled, Apply, Measure;
    var s := Play(v, d, moves).value;
    if m :| Enabled(s, m) {
      assert (moves + [m])[..|moves|] == moves;
      MeasureDrops(v, d, s, m);
      all := RunToEnd(v, d, moves + [m]);
    } else {
      all := moves;
    }
  }

  ghost predicate AlwaysAgrees(v: Server, d: Dial) {
    forall moves :: Play(v, d, moves).Some? ==> Agrees(v, d, Play(v, d, moves).value)
  }

  // A session that the server would grant agrees in every run if and only if no field
  // that is sent is longer than 255 bytes.
  lemma AgreesExactlyWhenShort(v: Server, d: Dial)
    requires Texts(v.utf8, d) && Sane(v) && Succeeds(v, d)
    ensures AlwaysAgrees(v, d) <==> SentShort(v, d)
  {
    hide Play, Agrees;
    if SentShort(v, d) {
      forall moves | Play(v, d, moves).Some? ensures Agrees(v, d, Play(v, d, moves).value) {
        SessionAgrees(v, d, moves);
      }
    } else {
      assert Play(v, d, []).Some? by { StartPlays(v, d); }
      var all := RunToEnd(v, d, []);
      LastDisagrees(v, d, all);
    }
  }

  lemma StartPlays(v: Server, d: Dial)
    ensures Play(v, d, []) == Some(Start(d))
  {
  }

  lemma LastDisagrees(v: Server, d: Dial, all: seq<Move>)
    requires Play(v, d, all).Some? && (forall m :: !Enabled(Play(v, d, all).value, m))
    requires Succeeds(v, d) && !SentShort(v, d)
    ensures !Agrees(v, d, Play(v, d, all).value)
  {
    var s := Play(v, d, all).value;
    if Over(s) {
      LongFieldsNeverArrive(v, d, all);
    }
  }

  // And so for all servers at once: they agree with this client, all of them, if and only
  // if its name, and its credentials if it has any, are at most 255 bytes.
  lemma AllAgreeExactlyWhenShort(utf8: Bytes -> bool, d: Dial)
    requires Texts(utf8, d)
    ensures (forall v: Server :: v.utf8 == utf8 && Sane(v) ==> AlwaysAgrees(v, d)) <==>
            Short(Body(d.address)) && (d.HasCreds() ==> LoginShort(Some(d.Creds())))
  {
    hide AlwaysAgrees;
    if Short(Body(d.address)) && (d.HasCreds() ==> LoginShort(Some(d.Creds()))) {
      forall v: Server | v.utf8 == utf8 && Sane(v) ensures AlwaysAgrees(v, d) {
        FitsAgrees(v, d);
      }
    } else {
      var v := Accepting(utf8, d.HasCreds());
      AgreesExactlyWhenShort(v, d);
    }
  }

  lemma FitsAgrees(v: Server, d: Dial)
    requires Fits(v, d)
    ensures AlwaysAgrees(v, d)
  {
    hide Play, Agrees, Fits;
    forall moves | Play(v, d, moves).Some? ensures Agrees(v, d, Play(v, d, moves).value) {
      SessionAgrees(v, d, moves);
    }
  }
}
