/**
 What either end makes of arbitrary bytes, byte by byte (RFC 1928 sections 3 to 6,
 RFC 1929 section 2), with the fallbacks of the code for unassigned values.
 */
module Socks5Bytes {
  import opened Wrappers
  import opened Addresses
  import opened Socks5
  import opened Socks5Session
  import opened Socks5Handlers
  import opened Socks5Misread

  // The same end, having written `said` before.
  function Having(said: Bytes, r: Served): Served {
    r.(written := said + r.written)
  }

  /// The server

  lemma ServeAfter(s: Server, from: Stage, input: Bytes, said: Bytes, to: Stage, rest: Bytes)
    requires RunServer(s, from, input) == After(said, RunServer(s, to, rest))
    ensures Serve(s, from, input) == Having(said, Serve(s, to, rest))
  {
    ServeIsRun(s, from, input);
    ServeIsRun(s, to, rest);
  }

  lemma ServeEnds(s: Server, from: Stage, input: Bytes, outcome: Outcome, rest: Bytes, said: Bytes)
    requires RunServer(s, from, input) == End(Done(outcome), rest, said)
    ensures Serve(s, from, input) == Served(outcome, said, rest)
  {
    ServeIsRun(s, from, input);
  }

  lemma ServeSilent(s: Server, from: Stage, input: Bytes)
    requires Silent(RunServer(s, from, input))
    ensures Serve(s, from, input).outcome == Failed && Serve(s, from, input).written == []
  {
    ServeIsRun(s, from, input);
  }

  // A greeting is answered when it has version 5 and at least one method, all of them
  // there: with 0 when no login is required and 0 is offered, with 2 when one is required
  // and 2 is offered, and else with 255, at which it ends. No other method byte counts.
  lemma GreetingIsAnswered(s: Server, input: Bytes)
    ensures var r := Serve(s, Greeting, input);
            if |input| < 2 || input[0] != 0x05 || input[1] == 0 || |input| < 2 + input[1] as nat then
              r.outcome == Failed && r.written == []
            else
              var n: nat := input[1];
              var offered, rest := input[2..2+n], input[2+n..];
              if !s.authRequired && 0x00 in offered then r == Having([0x05, 0x00], Serve(s, Header(None), rest))
              else if s.authRequired && 0x02 in offered then r == Having([0x05, 0x02], Serve(s, AuthHeader, rest))
              else r == Served(Failed, [0x05, 0xFF], rest)
  {
    hide RunServer, Serve, Silent;
    GreetingRead(s, input);
    if |input| >= 2 && input[0] == 0x05 && input[1] != 0 && |input| >= 2 + input[1] as nat {
      var n: nat := input[1];
      MethodsAnswered(s, input[2..2+n], input[2+n..]);
      assert input[2..] == input[2..2+n] + input[2+n..];
    } else {
      ServeSilent(s, Greeting, input);
    }
  }

  lemma GreetingRead(s: Server, input: Bytes)
    ensures if |input| < 2 || input[0] != 0x05 || input[1] == 0 || |input| < 2 + input[1] as nat then
              Silent(RunServer(s, Greeting, input))
            else Serve(s, Greeting, input) == Serve(s, Methods(input[1]), input[2..])
  {
    if |input| >= 2 && input[0] == 0x05 && input[1] != 0 {
      assert input[0..] == input;
      QuietStage(s, Greeting, input, 0, Methods(input[1]));
      ServeIsRun(s, Greeting, input);
      ServeIsRun(s, Methods(input[1]), input[2..]);
      hide Serve, Advance;
    }
  }

  lemma MethodsAnswered(s: Server, offered: Bytes, rest: Bytes)
    ensures var r := Serve(s, Methods(|offered|), offered + rest);
            if !s.authRequired && 0x00 in offered then r == Having([0x05, 0x00], Serve(s, Header(None), rest))
            else if s.authRequired && 0x02 in offered then r == Having([0x05, 0x02], Serve(s, AuthHeader, rest))
            else r == Served(Failed, [0x05, 0xFF], rest)
  {
    assert (offered + rest)[..|offered|] == offered && (offered + rest)[|offered|..] == rest;
    assert forall b: U8 :: (MethodOf(b) == NoAuth <==> b == 0x00) && (MethodOf(b) == UserPass <==> b == 0x02);
  }

  // A complete login is accepted exactly when there is a backend and it says yes. No
  // backend, a refusal and an error all come to the same: 1 1, and the end.
  lemma LoginIsAnswered(s: Server, user: Bytes, password: Bytes, tail: Bytes)
    requires Short(user) && Short(password)
    ensures var input := [0x01, |user|] + user + ([|password|] + password) + tail;
            var r := Serve(s, AuthHeader, input);
            if !s.utf8(user) || !s.utf8(password) then r.outcome == Failed && r.written == []
            else if s.authenticator.Some? && s.authenticator.value(Login(user, password)) == Ok(true) then
              r == Having([0x01, 0x00], Serve(s, Header(Some(Login(user, password))), tail))
            else r == Served(Failed, [0x01, 0x01], tail)
  {
    hide RunServer, Serve, ReadLogin, Silent;
    var login := Login(user, password);
    var d := Dial(IPv4([0, 0, 0, 0]), 0, Some(user), Some(password));
    var input := [0x01, |user|] + user + ([|password|] + password) + tail;
    assert d.AuthMessage() + tail == input;
    LoginRun(s, input);
    if s.utf8(user) && s.utf8(password) {
      ShortLoginIsRead(s.utf8, d, tail);
      assert ReadLogin(s.utf8, input) == Some((login, tail)) by { assert d.Creds() == login; }
      if s.ValidateCredentials(login) {
        ServeAfter(s, AuthHeader, input, [0x01, 0x00], Header(Some(login)), tail);
      } else {
        ServeEnds(s, AuthHeader, input, Failed, tail, [0x01, 0x01]);
      }
    } else {
      IllFormedLogin(s.utf8, d, tail);
      ServeSilent(s, AuthHeader, input);
    }
  }

  lemma IllFormedLogin(utf8: Bytes -> bool, d: Dial, tail: Bytes)
    requires d.address.Valid() && d.HasCreds() && LoginShort(Some(d.Creds()))
    requires !utf8(d.username.value) || !utf8(d.password.value)
    ensures ReadLogin(utf8, d.AuthMessage() + tail) == None
  {
    ShortLoginIsRead(_ => true, d, tail);
  }

  // The reply that the source writes for an outcome, byte by byte.
  function ReplyBytes(c: Connection): Bytes {
    match c
    case Connected(BoundV4(o, port)) => [0x05, 0x00, 0x00, 0x01] + o + [port / 256, port % 256]
    case Connected(BoundV6(o, port)) => [0x05, 0x00, 0x00, 0x04] + o + [port / 256, port % 256]
    case BlockedByPolicy => [0x05, 0x02, 0x00, 0x01, 0, 0, 0, 0, 0, 0]
    case Unreachable => [0x05, 0x04, 0x00, 0x01, 0, 0, 0, 0, 0, 0]
    case Lost => []
  }

  // A complete request, for every command byte, reserved byte and address type byte: 2 and
  // 3 are refused with 7, every other command is a CONNECT; 1 and 4 are addresses of 4 and
  // 16 bytes, every other type is a name with its length in front; the port is big-endian.
  lemma RequestIsAnswered(s: Server, login: Option<Login>, command: U8, reserved: U8, kind: U8,
                          body: Bytes, port: Bytes, tail: Bytes)
    requires |port| == 2
    requires if kind == 0x01 then |body| == 4 else if kind == 0x04 then |body| == 16 else Short(body)
    ensures var length: Bytes := if kind == 0x01 || kind == 0x04 then [] else [|body|];
            var input := [0x05, command, reserved, kind] + length + body + port + tail;
            var address := if kind == 0x01 then IPv4(body) else if kind == 0x04 then IPv6(body) else DomainName(body);
            var target := Request(Connect, address, port[0] as nat * 256 + port[1]);
            var r := Serve(s, Header(login), input);
            if address.DomainName? && !s.utf8(body) then r.outcome == Failed && r.written == []
            else if command == 0x02 || command == 0x03 then
              r == Served(Failed, [0x05, 0x07, 0x00, 0x01, 0, 0, 0, 0, 0, 0], tail)
            else
              r == Served(if s.connect(target).Connected? then Tunnel(login, target) else Failed,
                          ReplyBytes(s.connect(target)), tail)
  {
    hide RunServer, Serve, ReadRequest, Silent;
    var length: Bytes := if kind == 0x01 || kind == 0x04 then [] else [|body|];
    var input := [0x05, command, reserved, kind] + length + body + port + tail;
    RequestIsRead(s.utf8, command, reserved, kind, body, port, tail);
    HeaderRun(s, login, input);
    match ReadRequest(s.utf8, input) {
      case None => ServeSilent(s, Header(login), input);
      case Some((q, rest)) =>
        AnswerBytes(s, login, q);
        ServeEnds(s, Header(login), input, Answer(s, login, q).0.outcome, rest, Answer(s, login, q).1);
    }
  }

  lemma AnswerBytes(s: Server, login: Option<Login>, q: Request)
    ensures Answer(s, login, q).0.Done?
    ensures (Answer(s, login, q).0.outcome, Answer(s, login, q).1) ==
              if q.command == Connect then
                (if s.connect(q).Connected? then Tunnel(login, q) else Failed, ReplyBytes(s.connect(q)))
              else (Failed, [0x05, 0x07, 0x00, 0x01, 0, 0, 0, 0, 0, 0])
  {
    forall code: U8 ensures EncodeReply(NewError(code)) == [0x05, code, 0x00, 0x01, 0, 0, 0, 0, 0, 0] {
    }
  }

  lemma RequestIsRead(utf8: Bytes -> bool, command: U8, reserved: U8, kind: U8,
                      body: Bytes, port: Bytes, tail: Bytes)
    requires |port| == 2
    requires if kind == 0x01 then |body| == 4 else if kind == 0x04 then |body| == 16 else Short(body)
    ensures var length: Bytes := if kind == 0x01 || kind == 0x04 then [] else [|body|];
            var address := if kind == 0x01 then IPv4(body) else if kind == 0x04 then IPv6(body) else DomainName(body);
            var verb := if command == 0x02 then Bind else if command == 0x03 then UdpAssociate else Connect;
            ReadRequest(utf8, [0x05, command, reserved, kind] + length + body + port + tail) ==
              if address.DomainName? && !utf8(body) then None
              else Some((Request(verb, address, port[0] as nat * 256 + port[1]), tail))
  {
    var length: Bytes := if kind == 0x01 || kind == 0x04 then [] else [|body|];
    var head := [0x05, command, reserved, kind] + length;
    var b := head + body + port + tail;
    Slices(head, body, port, tail);
    assert forall k :: 0 <= k < |head| ==> b[k] == head[k];
  }

  // A request or a login of another version gets no answer, and neither does one that
  // ends too soon.
  lemma OtherVersionsGetNothing(s: Server, login: Option<Login>, input: Bytes)
    ensures |input| < 4 || input[0] != 0x05 ==>
              Serve(s, Header(login), input).outcome == Failed && Serve(s, Header(login), input).written == []
    ensures |input| < 2 || input[0] != 0x01 ==>
              Serve(s, AuthHeader, input).outcome == Failed && Serve(s, AuthHeader, input).written == []
  {
    hide RunServer, Serve, Silent;
    HeaderRun(s, login, input);
    LoginRun(s, input);
    if |input| < 4 || input[0] != 0x05 {
      ServeSilent(s, Header(login), input);
    }
    if |input| < 2 || input[0] != 0x01 {
      ServeSilent(s, AuthHeader, input);
    }
  }

  /// The client

  // A reply that the client takes for success: version 5, code 0, and a whole address of
  // type 1, 4 or 3 with its port.
  predicate GoodReply(b: Bytes) {
    && |b| >= 5 && b[0] == 0x05 && b[1] == 0x00
    && (|| (b[3] == 0x01 && |b| >= 10)
        || (b[3] == 0x04 && |b| >= 22)
        || (b[3] == 0x03 && |b| >= 7 + b[4] as nat))
  }

  lemma ReplyDecides(d: Dial, b: Bytes)
    ensures Converse(d, AwaitReply, b).ok <==> GoodReply(b)
    ensures Converse(d, AwaitReply, b).written == []
  {
    if |b| >= 4 {
      assert b[..4][0] == b[0] && b[..4][1] == b[1] && b[..4][3] == b[3];
      if |b| >= 5 {
        assert b[4..][..1] == [b[4]] && b[4..][1..] == b[5..];
      }
    }
  }

  // What the client makes of any answers: it returns Ok exactly when the method is 0, or 2
  // and it has credentials and they are accepted, and then a good reply follows; and it
  // says its credentials only when asked, its target only when let in.
  lemma ClientIsDecided(d: Dial, input: Bytes)
    ensures var c := Converse(d, AwaitMethod, input);
            if |input| < 2 || input[0] != 0x05 then !c.ok && c.written == []
            else if input[1] == 0x02 && d.HasCreds() then
              if |input| < 4 || input[2] != 0x01 || input[3] != 0x00 then !c.ok && c.written == d.AuthMessage()
              else (c.ok <==> GoodReply(input[4..])) && c.written == d.AuthMessage() + d.ConnectMessage()
            else if input[1] == 0x00 then (c.ok <==> GoodReply(input[2..])) && c.written == d.ConnectMessage()
            else !c.ok && c.written == []
  {
    hide Dial.AuthMessage, Dial.ConnectMessage, GoodReply;
    var a, m := d.ConnectMessage(), if d.HasCreds() then d.AuthMessage() else [];
    assert a + [] == a && m + [] == m && m + (a + []) == m + a;
    if |input| >= 2 {
      assert input[..2][0] == input[0] && input[..2][1] == input[1];
      ReplyDecides(d, input[2..]);
      if |input| >= 4 {
        assert input[2..][..2] == input[2..4] && input[2..][2..] == input[4..];
        ReplyDecides(d, input[4..]);
      }
    }
    StepsOfClient(d, input);
  }

  lemma StepsOfClient(d: Dial, input: Bytes)
    ensures |input| < 2 ==> Converse(d, AwaitMethod, input) == Conversed(false, [], [])
    ensures |input| < 2 ==> Converse(d, AwaitAuth, input) == Conversed(false, [], [])
  {
  }
}
