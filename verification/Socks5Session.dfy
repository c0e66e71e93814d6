/**
 The repository's SOCKS5 client talking to its SOCKS5 server over two byte channels
 that cut every write and every read into arbitrary pieces.
 */
module Socks5Session {
  import opened Wrappers
  import opened Socks5

  // One end: its stage, the bytes gathered for it, and the bytes still to be written.
  datatype End<S> = End(stage: S, got: Bytes, out: Bytes)

  datatype System = System(client: End<ClientStage>, server: End<Stage>, up: Bytes, down: Bytes)

  datatype Move =
    | ClientSend(n: nat) | ClientReceive(n: nat) | ClientThink | ClientEof
    | ServerSend(n: nat) | ServerReceive(n: nat) | ServerThink | ServerEof

  function Start(d: Dial): System {
    System(End(AwaitMethod, [], d.InitMessage()), End(Greeting, [], []), [], [])
  }

  predicate ClientReads(s: System) {
    !s.client.stage.Finished? && s.client.out == []
  }

  predicate ServerReads(s: System) {
    !s.server.stage.Done? && s.server.out == []
  }

  predicate Enabled(s: System, m: Move) {
    match m
    case ClientSend(n) => 1 <= n <= |s.client.out|
    case ClientReceive(n) => ClientReads(s) && 1 <= n <= |s.down| && |s.client.got| + n <= s.client.stage.Need()
    case ClientThink => ClientReads(s) && |s.client.got| == s.client.stage.Need()
    // The end of the stream: the server has hung up and everything it wrote has been read.
    case ClientEof =>
      && ClientReads(s) && |s.client.got| < s.client.stage.Need() && s.down == []
      && s.server.stage == Done(Failed) && s.server.out == []
    case ServerSend(n) => 1 <= n <= |s.server.out|
    case ServerReceive(n) => ServerReads(s) && 1 <= n <= |s.up| && |s.server.got| + n <= s.server.stage.Need()
    case ServerThink => ServerReads(s) && |s.server.got| == s.server.stage.Need()
    case ServerEof =>
      && ServerReads(s) && |s.server.got| < s.server.stage.Need() && s.up == []
      && s.client.stage == Finished(false) && s.client.out == []
  }

  function Apply(v: Server, d: Dial, s: System, m: Move): System
    requires Enabled(s, m)
  {
    var c, z := s.client, s.server;
    match m
    case ClientSend(n) => s.(client := c.(out := c.out[n..]), up := s.up + c.out[..n])
    case ClientReceive(n) => s.(client := c.(got := c.got + s.down[..n]), down := s.down[n..])
    case ClientThink =>
      var (stage, out) := ClientAdvance(d, c.stage, c.got);
      s.(client := End(stage, [], out))
    case ClientEof => s.(client := End(Finished(false), [], []))
    case ServerSend(n) => s.(server := z.(out := z.out[n..]), down := s.down + z.out[..n])
    case ServerReceive(n) => s.(server := z.(got := z.got + s.up[..n]), up := s.up[n..])
    case ServerThink =>
      var (stage, out) := Advance(v, z.stage, z.got);
      s.(server := End(stage, [], out))
    case ServerEof => s.(server := End(Done(Failed), [], []))
  }

  // The state after the moves, or nothing when one of them was not enabled.
  function Play(v: Server, d: Dial, moves: seq<Move>): Option<System> {
    if moves == [] then Some(Start(d))
    else
      match Play(v, d, moves[..|moves|-1])
      case None => None
      case Some(s) =>
        if Enabled(s, moves[|moves|-1]) then Some(Apply(v, d, s, moves[|moves|-1])) else None
  }

  predicate Over(s: System) {
    && s.client.stage.Finished? && s.server.stage.Done?
    && s.client.out == [] && s.server.out == []
  }

  /// What the session must come to

  predicate Short(b: Bytes) { |b| <= 255 }

  // The fields that this server gets to see are well-formed text of at most 255 bytes.
  predicate Fits(v: Server, d: Dial) {
    && d.address.Valid()
    && (AuthPasses(v, d) && d.address.DomainName? ==> Short(d.address.name) && v.utf8(d.address.name))
    && (v.authRequired && d.HasCreds() ==>
          && Short(d.username.value) && v.utf8(d.username.value)
          && Short(d.password.value) && v.utf8(d.password.value))
    && (v.connect(TheRequest(d)).Connected? ==> v.connect(TheRequest(d)).bound.Valid())
  }

  function TheRequest(d: Dial): Request {
    Request(Connect, d.address, d.port)
  }

  function TheLogin(v: Server, d: Dial): Option<Login> {
    if v.authRequired && d.HasCreds() then Some(d.Creds()) else None
  }

  predicate AuthPasses(v: Server, d: Dial) {
    !v.authRequired || (d.HasCreds() && v.authenticator.Some? && v.authenticator.value(d.Creds()) == Ok(true))
  }

  predicate Succeeds(v: Server, d: Dial) {
    AuthPasses(v, d) && v.connect(TheRequest(d)).Connected?
  }

  function TheOutcome(v: Server, d: Dial): Outcome {
    if Succeeds(v, d) then Tunnel(TheLogin(v, d), TheRequest(d)) else Failed
  }

  /// The conversation as two streams

  function AuthPart(v: Server, d: Dial): Bytes {
    if v.authRequired && d.HasCreds() then d.AuthMessage() else []
  }

  function ConnectPart(v: Server, d: Dial): Bytes {
    if AuthPasses(v, d) then d.ConnectMessage() else []
  }

  function MethodPart(v: Server, d: Dial): Bytes {
    [0x05, if !v.authRequired then 0x00 else if d.HasCreds() then 0x02 else 0xFF]
  }

  function StatusPart(v: Server, d: Dial): Bytes {
    if v.authRequired && d.HasCreds() then [0x01, if AuthPasses(v, d) then 0x00 else 0x01] else []
  }

  function ReplyPart(v: Server, d: Dial): Bytes {
    if AuthPasses(v, d) then Answer(v, TheLogin(v, d), TheRequest(d)).1 else []
  }

  // What each end has yet to write after its current output.
  function ClientRest(v: Server, d: Dial, stage: ClientStage): Bytes {
    match stage
    case AwaitMethod => AuthPart(v, d) + ConnectPart(v, d)
    case AwaitAuth => ConnectPart(v, d)
    case _ => []
  }

  function ServerRest(v: Server, d: Dial, stage: Stage): Bytes {
    if stage.Rank() >= 9 then MethodPart(v, d) + (StatusPart(v, d) + ReplyPart(v, d))
    else if stage.Rank() >= 5 then StatusPart(v, d) + ReplyPart(v, d)
    else if stage.Rank() >= 1 then ReplyPart(v, d)
    else []
  }

  // What each end has yet to read, from the beginning of its stage.
  function ServerExpects(v: Server, d: Dial, stage: Stage): Bytes {
    match stage
    case Greeting => d.InitMessage() + (AuthPart(v, d) + ConnectPart(v, d))
    case Methods(_) => d.InitMessage()[2..] + (AuthPart(v, d) + ConnectPart(v, d))
    case AuthHeader => AuthPart(v, d) + ConnectPart(v, d)
    case User(_) =>
      if d.HasCreds() then
        d.username.value + ([LowByte(|d.password.value|)] + (d.password.value + ConnectPart(v, d)))
      else []
    case PasswordLength(_) =>
      if d.HasCreds() then [LowByte(|d.password.value|)] + (d.password.value + ConnectPart(v, d)) else []
    case Password(_, _) => if d.HasCreds() then d.password.value + ConnectPart(v, d) else []
    case Header(_) => ConnectPart(v, d)
    case NameLength(_, _) => d.address.Encoded() + PortBytes(d.port)
    case Target(_, _, _, _) => Body(d.address) + PortBytes(d.port)
    case Port(_, _, _) => PortBytes(d.port)
    case Done(_) => []
  }

  function Body(a: Address): Bytes {
    match a
    case IPv4(o) => o
    case IPv6(o) => o
    case DomainName(n) => n
  }

  function ClientExpects(v: Server, d: Dial, stage: ClientStage): Bytes {
    match stage
    case AwaitMethod => MethodPart(v, d) + (StatusPart(v, d) + ReplyPart(v, d))
    case AwaitAuth => StatusPart(v, d) + ReplyPart(v, d)
    case AwaitReply => ReplyPart(v, d)
    case AwaitNameLength => []
    case AwaitTail(_) => if |ReplyPart(v, d)| >= 4 then ReplyPart(v, d)[4..] else []
    // A refused client leaves the address of the error reply unread.
    case Finished(ok) => if !ok && |ReplyPart(v, d)| >= 4 then ReplyPart(v, d)[4..] else []
  }

  // The stages either end can be in, with the data each of them carries.
  predicate ServerStageOk(v: Server, d: Dial, stage: Stage) {
    var creds := v.authRequired && d.HasCreds();
    match stage
    case Greeting => true
    case Methods(n) => n == |d.InitMessage()| - 2
    case AuthHeader => creds
    case User(n) => creds && n == |d.username.value|
    case PasswordLength(user) => creds && user == d.username.value
    case Password(user, n) => creds && user == d.username.value && n == |d.password.value|
    case Header(login) => AuthPasses(v, d) && login == TheLogin(v, d)
    case NameLength(login, command) =>
      AuthPasses(v, d) && login == TheLogin(v, d) && command == Connect && d.address.DomainName?
    case Target(login, command, kind, n) =>
      && AuthPasses(v, d) && login == TheLogin(v, d) && command == Connect
      && kind == d.address.Type() && n == |Body(d.address)|
    case Port(login, command, address) =>
      AuthPasses(v, d) && login == TheLogin(v, d) && command == Connect && address == d.address
    case Done(outcome) => outcome == TheOutcome(v, d)
  }

  predicate ClientStageOk(v: Server, d: Dial, stage: ClientStage) {
    match stage
    case AwaitMethod => true
    case AwaitAuth => v.authRequired && d.HasCreds()
    case AwaitReply => AuthPasses(v, d)
    case AwaitNameLength => false
    case AwaitTail(n) => Succeeds(v, d) && n == |ReplyPart(v, d)| - 4
    case Finished(ok) => ok == Succeeds(v, d)
  }

  predicate Inv(v: Server, d: Dial, s: System) {
    && ServerStageOk(v, d, s.server.stage) && ClientStageOk(v, d, s.client.stage)
    && |s.server.got| <= s.server.stage.Need() && |s.client.got| <= s.client.stage.Need()
    && s.server.got + (s.up + (s.client.out + ClientRest(v, d, s.client.stage)))
       == ServerExpects(v, d, s.server.stage)
    && s.client.got + (s.down + (s.server.out + ServerRest(v, d, s.server.stage)))
       == ClientExpects(v, d, s.client.stage)
  }

  /// Each stage in isolation

  // A stage given the bytes it expects writes the next piece of its stream and
  // moves to the stage that expects what follows.
  ghost predicate ServerStepOk(v: Server, d: Dial, stage: Stage, got: Bytes, tail: Bytes)
    requires !stage.Done? && |got| == stage.Need()
  {
    var (next, out) := Advance(v, stage, got);
    && ServerStageOk(v, d, next)
    && tail == ServerExpects(v, d, next)
    && out + ServerRest(v, d, next) == ServerRest(v, d, stage)
  }

  ghost predicate ServerReady(v: Server, d: Dial, stage: Stage, got: Bytes, tail: Bytes) {
    && Fits(v, d) && ServerStageOk(v, d, stage) && !stage.Done?
    && |got| == stage.Need() && |got| <= |ServerExpects(v, d, stage)|
    && got == ServerExpects(v, d, stage)[..|got|]
    && tail == ServerExpects(v, d, stage)[|got|..]
  }

  lemma Cut(a: Bytes, b: Bytes, n: nat)
    requires n <= |a|
    ensures (a + b)[..n] == a[..n] && (a + b)[n..] == a[n..] + b
  {
  }

  lemma AuthMessageCut(d: Dial, c: Bytes)
    requires d.HasCreds()
    ensures var m, u, p := d.AuthMessage() + c, d.username.value, d.password.value;
            m[..2] == [0x01, LowByte(|u|)] && m[2..] == u + ([LowByte(|p|)] + (p + c))
  {
  }

  lemma Selects(v: Server, d: Dial)
    ensures [0x05, v.SelectMethod(d.InitMessage()[2..]).Byte()] == MethodPart(v, d)
    ensures v.SelectMethod(d.InitMessage()[2..]) ==
            (if !v.authRequired then NoAuth else if d.HasCreds() then UserPass else NoAcceptable)
  {
    var offered := d.InitMessage()[2..];
    assert MethodOf(offered[0]) == NoAuth;
    assert d.HasCreds() ==> MethodOf(offered[1]) == UserPass;
  }

  lemma ServerGreets(v: Server, d: Dial, got: Bytes, tail: Bytes)
    requires ServerReady(v, d, Greeting, got, tail)
    ensures ServerStepOk(v, d, Greeting, got, tail)
  {
    Cut(d.InitMessage(), AuthPart(v, d) + ConnectPart(v, d), 2);
  }

  lemma ServerSelects(v: Server, d: Dial, n: nat, got: Bytes, tail: Bytes)
    requires ServerReady(v, d, Methods(n), got, tail)
    ensures ServerStepOk(v, d, Methods(n), got, tail)
  {
    hide Server.SelectMethod, Dial.InitMessage, AuthPart, ConnectPart, MethodPart, StatusPart, ReplyPart, Answer, Fits;
    OffersRead(v, d, n, got, tail);
    AfterSelection(v, d);
  }

  lemma OffersRead(v: Server, d: Dial, n: nat, got: Bytes, tail: Bytes)
    requires ServerReady(v, d, Methods(n), got, tail)
    ensures tail == AuthPart(v, d) + ConnectPart(v, d)
    ensures [0x05, v.SelectMethod(got).Byte()] == MethodPart(v, d)
    ensures v.SelectMethod(got) ==
            (if !v.authRequired then NoAuth else if d.HasCreds() then UserPass else NoAcceptable)
  {
    hide AuthPart, ConnectPart, StatusPart, ReplyPart, MethodPart, Server.SelectMethod, Advance;
    Cut(d.InitMessage()[2..], AuthPart(v, d) + ConnectPart(v, d), n);
    assert got == d.InitMessage()[2..];
    Selects(v, d);
  }

  // What is left of either stream once the method is chosen.
  lemma AfterSelection(v: Server, d: Dial)
    ensures !v.authRequired ==>
              && AuthPart(v, d) + ConnectPart(v, d) == ConnectPart(v, d)
              && StatusPart(v, d) + ReplyPart(v, d) == ReplyPart(v, d)
    ensures v.authRequired && !d.HasCreds() ==>
              AuthPart(v, d) + ConnectPart(v, d) == [] && StatusPart(v, d) + ReplyPart(v, d) == []
  {
    hide Dial.ConnectMessage, Answer;
  }

  lemma ServerReadsUser(v: Server, d: Dial, stage: Stage, got: Bytes, tail: Bytes)
    requires (stage.AuthHeader? || stage.User?) && ServerReady(v, d, stage, got, tail)
    ensures ServerStepOk(v, d, stage, got, tail)
  {
    var u, p, c := d.username.value, d.password.value, ConnectPart(v, d);
    if stage.User? {
      Cut(u, [LowByte(|p|)] + (p + c), |u|);
    } else {
      AuthMessageCut(d, c);
    }
  }

  lemma ServerReadsPassword(v: Server, d: Dial, stage: Stage, got: Bytes, tail: Bytes)
    requires (stage.PasswordLength? || stage.Password?) && ServerReady(v, d, stage, got, tail)
    ensures ServerStepOk(v, d, stage, got, tail)
  {
    if stage.Password? {
      assert got == d.password.value;
    }
  }

  lemma ServerReadsHeader(v: Server, d: Dial, stage: Stage, got: Bytes, tail: Bytes)
    requires (stage.Header? || stage.NameLength?) && ServerReady(v, d, stage, got, tail)
    ensures ServerStepOk(v, d, stage, got, tail)
  {
    if stage.Header? {
      assert got == d.ConnectMessage()[..4];
      assert tail == d.address.Encoded() + PortBytes(d.port);
    }
  }

  lemma ServerReadsTarget(v: Server, d: Dial, stage: Stage, got: Bytes, tail: Bytes)
    requires (stage.Target? || stage.Port?) && ServerReady(v, d, stage, got, tail)
    ensures ServerStepOk(v, d, stage, got, tail)
  {
    if stage.Target? {
      assert got == Body(d.address);
    } else {
      assert got == PortBytes(d.port);
      assert PortOf(got) == d.port;
    }
  }

  lemma ServerStep(v: Server, d: Dial, stage: Stage, got: Bytes, tail: Bytes)
    requires Fits(v, d) && ServerStageOk(v, d, stage) && !stage.Done?
    requires |got| == stage.Need() && got + tail == ServerExpects(v, d, stage)
    ensures ServerStepOk(v, d, stage, got, tail)
  {
    var all := got + tail;
    assert got == all[..|got|] && tail == all[|got|..];
    if stage.Greeting? { ServerGreets(v, d, got, tail); }
    else if stage.Methods? { ServerSelects(v, d, stage.count, got, tail); }
    else if stage.Rank() >= 7 { ServerReadsUser(v, d, stage, got, tail); }
    else if stage.Rank() >= 5 { ServerReadsPassword(v, d, stage, got, tail); }
    else if stage.Rank() >= 3 { ServerReadsHeader(v, d, stage, got, tail); }
    else { ServerReadsTarget(v, d, stage, got, tail); }
  }

  lemma ClientStep(v: Server, d: Dial, stage: ClientStage, got: Bytes, tail: Bytes)
    requires Fits(v, d) && ClientStageOk(v, d, stage) && !stage.Finished?
    requires |got| == stage.Need() && got + tail == ClientExpects(v, d, stage)
    ensures var (next, out) := ClientAdvance(d, stage, got);
            && ClientStageOk(v, d, next)
            && tail == ClientExpects(v, d, next)
            && out + ClientRest(v, d, next) == ClientRest(v, d, stage)
  {
    var all := got + tail;
    assert got == all[..|got|] && tail == all[|got|..];
    if stage.AwaitMethod? {
      Cut(MethodPart(v, d), StatusPart(v, d) + ReplyPart(v, d), 2);
    } else if stage.AwaitAuth? {
      Cut(StatusPart(v, d), ReplyPart(v, d), 2);
    } else if stage.AwaitReply? {
      Cut(ReplyPart(v, d), [], 4);
    }
  }

  /// The invariant of every run

  lemma StartInv(v: Server, d: Dial)
    ensures Inv(v, d, Start(d))
  {
  }

  lemma {:induction false} Regroup(a: Bytes, b: Bytes, c: Bytes, n: nat)
    requires n <= |b|
    ensures a + (b + c) == (a + b[..n]) + (b[n..] + c)
  {
  }

  // Moving bytes between an end and a channel keeps both streams.
  lemma TransferInv(v: Server, d: Dial, s: System, m: Move)
    requires Inv(v, d, s) && Enabled(s, m)
    requires m.ClientSend? || m.ClientReceive? || m.ServerSend? || m.ServerReceive?
    ensures Inv(v, d, Apply(v, d, s, m))
  {
    var c, z := s.client, s.server;
    var cRest, zRest := ClientRest(v, d, c.stage), ServerRest(v, d, z.stage);
    match m
    case ClientSend(n) => Regroup(s.up, c.out, cRest, n);
    case ClientReceive(n) => Regroup(c.got, s.down, z.out + zRest, n);
    case ServerSend(n) => Regroup(s.down, z.out, zRest, n);
    case ServerReceive(n) => Regroup(z.got, s.up, c.out + cRest, n);
  }

  lemma ClientThinkInv(v: Server, d: Dial, s: System)
    requires Fits(v, d) && Inv(v, d, s) && Enabled(s, ClientThink)
    ensures Inv(v, d, Apply(v, d, s, ClientThink))
  {
    var c, z := s.client, s.server;
    var tail := s.down + (z.out + ServerRest(v, d, z.stage));
    ClientStep(v, d, c.stage, c.got, tail);
    assert c.out + ClientRest(v, d, c.stage) == ClientRest(v, d, c.stage);
    assert [] + tail == tail;
  }

  lemma ServerThinkInv(v: Server, d: Dial, s: System)
    requires Fits(v, d) && Inv(v, d, s) && Enabled(s, ServerThink)
    ensures Inv(v, d, Apply(v, d, s, ServerThink))
  {
    var c, z := s.client, s.server;
    var tail := s.up + (c.out + ClientRest(v, d, c.stage));
    ServerStep(v, d, z.stage, z.got, tail);
    assert z.out + ServerRest(v, d, z.stage) == ServerRest(v, d, z.stage);
    assert [] + tail == tail;
  }

  lemma EofInv(v: Server, d: Dial, s: System, m: Move)
    requires Fits(v, d) && Inv(v, d, s) && Enabled(s, m) && (m.ClientEof? || m.ServerEof?)
    ensures Inv(v, d, Apply(v, d, s, m))
  {
    if m.ClientEof? {
      ClientHasEnough(v, d, s.client.stage);
    } else {
      ServerHasEnough(v, d, s.server.stage);
    }
  }

  lemma ApplyInv(v: Server, d: Dial, s: System, m: Move)
    requires Fits(v, d) && Inv(v, d, s) && Enabled(s, m)
    ensures Inv(v, d, Apply(v, d, s, m))
  {
    match m
    case ClientThink => ClientThinkInv(v, d, s);
    case ServerThink => ServerThinkInv(v, d, s);
    case ClientEof => EofInv(v, d, s, m);
    case ServerEof => EofInv(v, d, s, m);
    case _ => TransferInv(v, d, s, m);
  }

  // A waiting end always has its whole need still coming, unless the server hung up.
  lemma ServerHasEnough(v: Server, d: Dial, stage: Stage)
    requires Fits(v, d) && ServerStageOk(v, d, stage)
    ensures |ServerExpects(v, d, stage)| >= stage.Need()
  {
  }

  lemma ClientHasEnough(v: Server, d: Dial, stage: ClientStage)
    requires Fits(v, d) && ClientStageOk(v, d, stage)
    ensures |ClientExpects(v, d, stage)| >= stage.Need() ||
            (stage.AwaitReply? && v.connect(TheRequest(d)).Lost? && ReplyPart(v, d) == [])
  {
  }

  lemma {:induction false} PlayInv(v: Server, d: Dial, moves: seq<Move>)
    requires Fits(v, d) && Play(v, d, moves).Some?
    ensures Inv(v, d, Play(v, d, moves).value)
  {
    if moves == [] {
      StartInv(v, d);
    } else {
      var before := moves[..|moves|-1];
      PlayInv(v, d, before);
      ApplyInv(v, d, Play(v, d, before).value, moves[|moves|-1]);
    }
  }

  /// Progress, termination and agreement

  // With both channels empty, one of two reading ends already has all it waits for.
  lemma NotBothWaiting(v: Server, d: Dial, s: System)
    requires Fits(v, d) && Inv(v, d, s)
    requires ClientReads(s) && s.down == [] && ServerReads(s) && s.up == []
    ensures |s.client.got| >= s.client.stage.Need() || |s.server.got| >= s.server.stage.Need()
  {
    var c, z := s.client.stage, s.server.stage;
    assert |s.server.got| + |ClientRest(v, d, c)| == |ServerExpects(v, d, z)|;
    assert |s.client.got| + |ServerRest(v, d, z)| == |ClientExpects(v, d, c)|;
  }

  // No reachable state has both ends waiting on empty channels: a session that is
  // not over can always move.
  lemma Progress(v: Server, d: Dial, s: System)
    requires Fits(v, d) && Inv(v, d, s) && !Over(s)
    ensures exists m :: Enabled(s, m)
  {
    if s.client.out != [] {
      assert Enabled(s, ClientSend(1));
    } else if s.server.out != [] {
      assert Enabled(s, ServerSend(1));
    } else if !s.client.stage.Finished? && |s.client.got| == s.client.stage.Need() {
      assert Enabled(s, ClientThink);
    } else if !s.server.stage.Done? && |s.server.got| == s.server.stage.Need() {
      assert Enabled(s, ServerThink);
    } else if !s.client.stage.Finished? && s.down != [] {
      assert Enabled(s, ClientReceive(1));
    } else if !s.server.stage.Done? && s.up != [] {
      assert Enabled(s, ServerReceive(1));
    } else if s.client.stage.Finished? {
      ServerHasEnough(v, d, s.server.stage);
      assert false;
    } else if s.server.stage.Done? {
      ClientHasEnough(v, d, s.client.stage);
      assert Enabled(s, ClientEof);
    } else {
      NotBothWaiting(v, d, s);
    }
  }

  // The addresses that sockets are bound to are well formed.
  ghost predicate Sane(v: Server) {
    forall r :: v.connect(r).Connected? ==> v.connect(r).bound.Valid()
  }

  // A bound on what one turn can put into an end's output.
  function Turn(d: Dial): nat {
    1000 + |d.address.Encoded()| + (if d.HasCreds() then |d.AuthMessage()| else 0)
  }

  // `turns` turns of weight `weight`.
  function Weigh(turns: nat, weight: nat): nat {
    if turns == 0 then 0 else weight + Weigh(turns - 1, weight)
  }

  function Measure(d: Dial, s: System): nat {
    Weigh(s.client.stage.Rank() + s.server.stage.Rank(), 2 * Turn(d))
    + 2 * (|s.client.out| + |s.server.out|) + |s.up| + |s.down|
  }

  lemma TurnIsEnough(v: Server, d: Dial, s: System)
    requires Sane(v)
    ensures Enabled(s, ClientThink) ==> |ClientAdvance(d, s.client.stage, s.client.got).1| < Turn(d)
    ensures Enabled(s, ServerThink) ==> |Advance(v, s.server.stage, s.server.got).1| < Turn(d)
  {
  }

  lemma {:induction false} TurnsPay(a: nat, b: nat, weight: nat)
    requires a < b
    ensures Weigh(a, weight) + weight <= Weigh(b, weight)
  {
    if a + 1 < b {
      TurnsPay(a, b - 1, weight);
    }
  }

  lemma MeasureDrops(v: Server, d: Dial, s: System, m: Move)
    requires Sane(v)
    requires Enabled(s, m)
    ensures Measure(d, Apply(v, d, s, m)) < Measure(d, s)
  {
    var next := Apply(v, d, s, m);
    var before := s.client.stage.Rank() + s.server.stage.Rank();
    var after := next.client.stage.Rank() + next.server.stage.Rank();
    TurnIsEnough(v, d, s);
    if after < before {
      TurnsPay(after, before, 2 * Turn(d));
    }
  }

  // Every run ends: no run is longer than the measure of its first state, whatever
  // the fields and however the bytes are cut.
  lemma {:induction false} RunsEnd(v: Server, d: Dial, moves: seq<Move>)
    requires Sane(v)
    requires Play(v, d, moves).Some?
    ensures |moves| + Measure(d, Play(v, d, moves).value) <= Measure(d, Start(d))
  {
    if moves != [] {
      var before := moves[..|moves|-1];
      RunsEnd(v, d, before);
      MeasureDrops(v, d, Play(v, d, before).value, moves[|moves|-1]);
    }
  }

  // What a run should look like wherever it is stopped: it can move unless it is over;
  // a finished client returned Ok exactly when authentication passes and the server
  // connected; and a tunnel starts with the client's own fields and with both channels empty.
  ghost predicate Agrees(v: Server, d: Dial, s: System) {
    && (Over(s) || exists m :: Enabled(s, m))
    && (s.client.stage.Finished? ==>
          (s.client.stage.ok <==> AuthPasses(v, d) && v.connect(TheRequest(d)).Connected?))
    && (s.server.stage.Done? ==>
          s.server.stage.outcome == if Succeeds(v, d) then Tunnel(TheLogin(v, d), TheRequest(d)) else Failed)
    && (s.client.stage == Finished(true) && s.server.stage.Done? ==>
          s.up == [] && s.down == [] && s.client.out == [] && s.server.out == [])
  }

  lemma SessionAgrees(v: Server, d: Dial, moves: seq<Move>)
    requires Fits(v, d) && Play(v, d, moves).Some?
    ensures Agrees(v, d, Play(v, d, moves).value)
  {
    PlayInv(v, d, moves);
    var s := Play(v, d, moves).value;
    if !Over(s) {
      Progress(v, d, s);
    }
  }

  /// Fields longer than 255 bytes

  // The one-byte lengths keep every name and credential the server sees to 255 bytes.
  predicate SeesShort(stage: Stage) {
    match stage
    case User(n) => n <= 255
    case PasswordLength(user) => Short(user)
    case Password(user, n) => Short(user) && n <= 255
    case Header(login) => LoginShort(login)
    case NameLength(login, _) => LoginShort(login)
    case Target(login, _, kind, n) => LoginShort(login) && n <= 255
    case Port(login, _, address) => LoginShort(login) && Short(Body(address))
    case Done(Tunnel(login, r)) => LoginShort(login) && Short(Body(r.address))
    case _ => true
  }

  predicate LoginShort(login: Option<Login>) {
    login.Some? ==> Short(login.value.user) && Short(login.value.password)
  }

  lemma {:induction false} ServerSeesShort(v: Server, d: Dial, moves: seq<Move>)
    requires Play(v, d, moves).Some?
    ensures SeesShort(Play(v, d, moves).value.server.stage)
  {
    if moves != [] {
      hide SeesShort, Advance, ClientAdvance;
      var before, m := Play(v, d, moves[..|moves|-1]).value, moves[|moves|-1];
      ServerSeesShort(v, d, moves[..|moves|-1]);
      if m.ServerThink? {
        SeesShortOn(v, before.server.stage, before.server.got);
      } else if m.ServerEof? {
        assert SeesShort(Done(Failed)) by { FailedSeesShort(); }
      }
    }
  }

  lemma SeesShortOn(v: Server, stage: Stage, got: Bytes)
    requires !stage.Done? && |got| == stage.Need() && SeesShort(stage)
    ensures SeesShort(Advance(v, stage, got).0)
  {
  }

  lemma FailedSeesShort()
    ensures SeesShort(Done(Failed))
  {
  }

  // A longer field never arrives: whatever tunnel such a run opens, it is for another
  // target or another login than the client's.
  lemma LongFieldsNeverArrive(v: Server, d: Dial, moves: seq<Move>)
    requires Play(v, d, moves).Some? && Play(v, d, moves).value.server.stage.Done?
    requires !Short(Body(d.address)) || (TheLogin(v, d).Some? && !LoginShort(TheLogin(v, d)))
    ensures Play(v, d, moves).value.server.stage.outcome != Tunnel(TheLogin(v, d), TheRequest(d))
  {
    ServerSeesShort(v, d, moves);
  }
}
