/**
 The two negotiations as the source writes them: straight-line readers and writers
 over a stream, proved equal to running the stages of module Socks5 one after another.
 */
module Socks5Handlers {
  import opened Wrappers
  import opened Addresses
  import opened Socks5
  import opened Socks5Session

  // A socket seen from one end: what will arrive on it and what was written to it.
  class Stream {
    var input: Bytes
    var output: Bytes

    constructor (input: Bytes)
      ensures this.input == input && output == []
    {
      this.input := input;
      output := [];
    }

    // Fills the first `n` cells, or fails at the end of the stream having drained it.
    method ReadExact(buf: array<U8>, n: nat) returns (ok: bool)
      requires n <= buf.Length
      modifies this`input, buf
      ensures ok == (n <= |old(input)|)
      ensures ok ==> buf[..n] == old(input)[..n] && input == old(input)[n..]
      ensures !ok ==> input == []
    {
      if n > |input| {
        input := [];
        return false;
      }
      for i := 0 to n
        modifies buf
        invariant input == old(input)
        invariant buf[..i] == input[..i]
      {
        buf[i] := input[i];
      }
      input := input[n..];
      ok := true;
    }

    method WriteAll(bytes: Bytes)
      modifies this`output
      ensures output == old(output) + bytes
    {
      output := output + bytes;
    }
  }

  /// The server

  datatype Served = Served(outcome: Outcome, written: Bytes, rest: Bytes)

  // The server's stages run from `stage` on a stream that holds `input` and then ends.
  function Serve(s: Server, stage: Stage, input: Bytes): Served
    decreases stage.Rank()
  {
    if stage.Done? then Served(stage.outcome, [], input)
    else if |input| < stage.Need() then Served(Failed, [], [])
    else
      var (next, out) := Advance(s, stage, input[..stage.Need()]);
      var after := Serve(s, next, input[stage.Need()..]);
      after.(written := out + after.written)
  }

  // `from` is `to` with the output written between `out0` and `out1` put in front.
  ghost predicate Extends(from: Served, to: Served, out0: Bytes, out1: Bytes) {
    && |out0| <= |out1| && out1[..|out0|] == out0
    && from == to.(written := out1[|out0|..] + to.written)
  }

  // A stretch of handler code took the stream from one point of the run to another.
  ghost predicate Led(s: Server, from: Stage, in0: Bytes, out0: Bytes, to: Stage, in1: Bytes, out1: Bytes) {
    Extends(Serve(s, from, in0), Serve(s, to, in1), out0, out1)
  }

  lemma LedStep(s: Server, stage: Stage, in0: Bytes, out0: Bytes)
    requires !stage.Done? && stage.Need() <= |in0|
    ensures var (next, out) := Advance(s, stage, in0[..stage.Need()]);
            Led(s, stage, in0, out0, next, in0[stage.Need()..], out0 + out)
  {
  }

  lemma LedShort(s: Server, stage: Stage, in0: Bytes, out0: Bytes)
    requires !stage.Done? && |in0| < stage.Need()
    ensures Led(s, stage, in0, out0, Done(Failed), [], out0)
  {
  }

  lemma ExtendsOn(a: Served, b: Served, c: Served, out0: Bytes, out1: Bytes, out2: Bytes)
    requires Extends(a, b, out0, out1) && Extends(b, c, out1, out2)
    ensures Extends(a, c, out0, out2)
  {
    assert out2[|out0|..] == out1[|out0|..] + out2[|out1|..];
    assert out1[|out0|..] + (out2[|out1|..] + c.written) == out2[|out0|..] + c.written;
  }

  lemma LedOn(s: Server, a: Stage, in0: Bytes, out0: Bytes, b: Stage, in1: Bytes, out1: Bytes,
              c: Stage, in2: Bytes, out2: Bytes)
    requires Led(s, a, in0, out0, b, in1, out1) && Led(s, b, in1, out1, c, in2, out2)
    ensures Led(s, a, in0, out0, c, in2, out2)
  {
    ExtendsOn(Serve(s, a, in0), Serve(s, b, in1), Serve(s, c, in2), out0, out1, out2);
  }

  // Code that was led to the end of the run has done all that the run does.
  lemma LedEnds(s: Server, from: Stage, in0: Bytes, out0: Bytes, outcome: Outcome, in1: Bytes, out1: Bytes)
    requires Led(s, from, in0, out0, Done(outcome), in1, out1)
    ensures Serve(s, from, in0).outcome == outcome && Serve(s, from, in0).rest == in1
    ensures out1 == out0 + Serve(s, from, in0).written
  {
    assert Serve(s, Done(outcome), in1) == Served(outcome, [], in1);
    assert out1[|out0|..] + [] == out1[|out0|..];
  }

  // One `read_exact` of `n` bytes, as the stage the code has come to.
  method ReadStage(s: Server, ghost stage: Stage, stream: Stream, buf: array<U8>, n: nat) returns (ok: bool)
    requires !stage.Done? && stage.Need() == n <= buf.Length
    modifies stream`input, buf
    ensures ok == (n <= |old(stream.input)|)
    ensures ok ==> buf[..n] == old(stream.input)[..n] && stream.input == old(stream.input)[n..]
    ensures ok ==> var (next, out) := Advance(s, stage, buf[..n]);
                   Led(s, stage, old(stream.input), stream.output, next, stream.input, stream.output + out)
    ensures !ok ==> Led(s, stage, old(stream.input), stream.output, Done(Failed), stream.input, stream.output)
  {
    ok := stream.ReadExact(buf, n);
    if ok {
      LedStep(s, stage, old(stream.input), stream.output);
    } else {
      LedShort(s, stage, old(stream.input), stream.output);
    }
  }

  // The four reads of a login, put together.
  lemma LoginIsRead(utf8: Bytes -> bool, b: Bytes, n: nat, m: nat, user: Bytes, password: Bytes, rest: Bytes)
    requires |b| >= 2 && b[0] == 0x01 && b[1] == n && |b[2..]| >= n && user == b[2..][..n]
    requires var c := b[2..][n..];
             && |c| >= 1 && c[0] == m && |c[1..]| >= m
             && password == c[1..][..m] && rest == c[1..][m..]
    requires utf8(user) && utf8(password)
    ensures ReadLogin(utf8, b) == Some((Login(user, password), rest))
  {
    assert b[2..][n..] == b[2+n..] && b[2+n..][1..] == b[3+n..];
    assert b[2..][..n] == b[2..2+n] && b[3+n..][..m] == b[3+n..3+n+m] && b[3+n..][m..] == b[3+n+m..];
  }

  // `handle_user_pass_auth`
  method HandleUserPassAuth(s: Server, stream: Stream) returns (login: Option<Login>)
    modifies stream
    ensures Led(s, AuthHeader, old(stream.input), old(stream.output),
                if login.Some? then Header(login) else Done(Failed), stream.input, stream.output)
    ensures login.Some? ==>
              && s.authenticator.Some? && s.authenticator.value(login.value) == Ok(true)
              && ReadLogin(s.utf8, old(stream.input)) == Some((login.value, stream.input))
  {
    hide Led;
    ghost var in0, out0 := stream.input, stream.output;
    assert out0 + [] == out0;
    var buf := new U8[256];
    var ok := ReadStage(s, AuthHeader, stream, buf, 2);
    if !ok { return None; }
    var version, ulen := buf[0], buf[1];
    if version != 0x01 { return None; }

    ghost var in1, userStage := stream.input, User(ulen);
    ok := ReadStage(s, userStage, stream, buf, ulen);
    if !ok {
      LedOn(s, AuthHeader, in0, out0, userStage, in1, out0, Done(Failed), stream.input, out0);
      return None;
    }
    var username := buf[..ulen];
    ghost var in2, lengthStage := stream.input, PasswordLength(username);
    if !s.utf8(username) {
      LedOn(s, AuthHeader, in0, out0, userStage, in1, out0, Done(Failed), in2, out0);
      return None;
    }
    LedOn(s, AuthHeader, in0, out0, userStage, in1, out0, lengthStage, in2, out0);

    ok := ReadStage(s, lengthStage, stream, buf, 1);
    if !ok {
      LedOn(s, AuthHeader, in0, out0, lengthStage, in2, out0, Done(Failed), stream.input, out0);
      return None;
    }
    var plen := buf[0];
    ghost var in3, passwordStage := stream.input, Password(username, plen);
    LedOn(s, AuthHeader, in0, out0, lengthStage, in2, out0, passwordStage, in3, out0);

    ok := ReadStage(s, passwordStage, stream, buf, plen);
    if !ok {
      LedOn(s, AuthHeader, in0, out0, passwordStage, in3, out0, Done(Failed), stream.input, out0);
      return None;
    }
    var password := buf[..plen];
    ghost var in4 := stream.input;
    if !s.utf8(password) {
      LedOn(s, AuthHeader, in0, out0, passwordStage, in3, out0, Done(Failed), in4, out0);
      return None;
    }

    LoginIsRead(s.utf8, in0, ulen, plen, username, password, in4);
    var success := s.ValidateCredentials(Login(username, password));
    stream.WriteAll([0x01, if success then 0x00 else 0x01]);
    login := if success then Some(Login(username, password)) else None;
    LedOn(s, AuthHeader, in0, out0, passwordStage, in3, out0,
          if success then Header(login) else Done(Failed), in4, stream.output);
  }

  // `handle_handshake`: the login that was accepted, if one was asked for, or the failure.
  method HandleHandshake(s: Server, stream: Stream) returns (r: Result<Option<Login>, ()>)
    modifies stream
    ensures Led(s, Greeting, old(stream.input), old(stream.output),
                if r.Ok? then Header(r.value) else Done(Failed), stream.input, stream.output)
    ensures r.Ok? ==>
              && (if s.authRequired then
                    r.value.Some? && s.authenticator.Some? && s.authenticator.value(r.value.value) == Ok(true)
                  else r.value.None?)
              && |old(stream.input)| >= 2 && |old(stream.input)| >= 2 + old(stream.input)[1] as nat
              && var after := old(stream.input)[2 + old(stream.input)[1] as nat..];
                 if s.authRequired then ReadLogin(s.utf8, after) == Some((r.value.value, stream.input))
                 else stream.input == after
  {
    ghost var in0, out0 := stream.input, stream.output;
    var buf := new U8[257];
    var ok := ReadStage(s, Greeting, stream, buf, 2);
    if !ok { return Err(()); }
    var version, nmethods := buf[0], buf[1];
    if version != 0x05 { return Err(()); }
    if nmethods == 0 { return Err(()); }

    ghost var in1, methods := stream.input, Methods(nmethods);
    ok := ReadStage(s, methods, stream, buf, nmethods);
    if !ok {
      LedOn(s, Greeting, in0, out0, methods, in1, out0, Done(Failed), stream.input, out0);
      return Err(());
    }
    var selected := s.SelectMethod(buf[..nmethods]);
    stream.WriteAll([0x05, selected.Byte()]);
    ghost var in2, out2 := stream.input, stream.output;
    assert in2 == in0[2 + nmethods as nat..];

    match selected
    case NoAuth =>
      LedOn(s, Greeting, in0, out0, methods, in1, out0, Header(None), in2, out2);
      r := Ok(None);
    case UserPass =>
      LedOn(s, Greeting, in0, out0, methods, in1, out0, AuthHeader, in2, out2);
      var login := HandleUserPassAuth(s, stream);
      r := if login.Some? then Ok(login) else Err(());
      LedOn(s, Greeting, in0, out0, AuthHeader, in2, out2,
            if r.Ok? then Header(r.value) else Done(Failed), stream.input, stream.output);
    case NoAcceptable =>
      LedOn(s, Greeting, in0, out0, methods, in1, out0, Done(Failed), in2, out2);
      r := Err(());
  }

  // `send_response`
  method SendResponse(stream: Stream, response: Reply)
    modifies stream`output
    ensures stream.output == old(stream.output) + EncodeReply(response)
  {
    var buf: Bytes := [];
    buf := buf + [0x05];
    buf := buf + [response.code];
    buf := buf + [0x00];
    match response.address {
      case IPv4(ip) =>
        buf := buf + [0x01];
        buf := buf + ip;
      case IPv6(ip) =>
        buf := buf + [0x04];
        buf := buf + ip;
      case DomainName(domain) =>
        buf := buf + [0x03];
        buf := buf + [LowByte(|domain|)];
        buf := buf + domain;
    }
    buf := buf + PortBytes(response.port);
    assert buf == EncodeReply(response);
    stream.WriteAll(buf);
  }

  // `handle_request` and, once the request is complete, the reply to it
  // (`handle_socks5_connection`, `handle_socks5_connect`).
  method HandleRequest(s: Server, login: Option<Login>, stream: Stream) returns (outcome: Outcome)
    modifies stream
    ensures Led(s, Header(login), old(stream.input), old(stream.output), Done(outcome), stream.input, stream.output)
  {
    hide Led, Answer;
    ghost var in0, out0, header := stream.input, stream.output, Header(login);
    assert out0 + [] == out0;
    var buf := new U8[4];
    var ok := ReadStage(s, header, stream, buf, 4);
    if !ok { return Failed; }
    var version, command, kind := buf[0], CommandOf(buf[1]), AddressTypeOf(buf[3]);
    if version != 0x05 { return Failed; }

    ghost var in1, addressStage := stream.input, AddressStage(login, command, kind);
    var address := ReadAddress(s, login, command, kind, stream);
    if address.None? {
      LedOn(s, header, in0, out0, addressStage, in1, out0, Done(Failed), stream.input, out0);
      return Failed;
    }
    ghost var in2, portStage := stream.input, Port(login, command, address.value);
    LedOn(s, header, in0, out0, addressStage, in1, out0, portStage, in2, out0);

    var portBuf := new U8[2];
    ok := ReadStage(s, portStage, stream, portBuf, 2);
    if !ok {
      LedOn(s, header, in0, out0, portStage, in2, out0, Done(Failed), stream.input, out0);
      return Failed;
    }
    var request := Request(command, address.value, PortOf(portBuf[..2]));
    ghost var in3 := stream.input;
    outcome := AnswerRequest(s, login, request, stream);
    LedOn(s, header, in0, out0, portStage, in2, out0, Done(outcome), in3, stream.output);
  }

  // The stage after a request header that names an address of the given type.
  ghost function AddressStage(login: Option<Login>, command: Command, kind: AddressType): Stage {
    match kind
    case TypeV4 => Target(login, command, kind, 4)
    case TypeV6 => Target(login, command, kind, 16)
    case TypeName => NameLength(login, command)
  }

  // The address of a request, in any of its three forms.
  method ReadAddress(s: Server, ghost login: Option<Login>, ghost command: Command, kind: AddressType, stream: Stream)
    returns (address: Option<Address>)
    modifies stream`input
    ensures Led(s, AddressStage(login, command, kind), old(stream.input), stream.output,
                if address.Some? then Port(login, command, address.value) else Done(Failed),
                stream.input, stream.output)
  {
    hide Led;
    ghost var in0, out, start := stream.input, stream.output, AddressStage(login, command, kind);
    assert out + [] == out;
    match kind
    case TypeV4 =>
      var ipBuf := new U8[4];
      var ok := ReadStage(s, start, stream, ipBuf, 4);
      address := if ok then Some(IPv4(ipBuf[..4])) else None;
    case TypeV6 =>
      var ipBuf := new U8[16];
      var ok := ReadStage(s, start, stream, ipBuf, 16);
      address := if ok then Some(IPv6(ipBuf[..16])) else None;
    case TypeName =>
      var lenBuf := new U8[1];
      var ok := ReadStage(s, start, stream, lenBuf, 1);
      if !ok { return None; }
      var len := lenBuf[0];
      var domainBuf := new U8[len];
      ghost var in1, target := stream.input, Target(login, command, kind, len);
      ok := ReadStage(s, target, stream, domainBuf, len);
      if ok && s.utf8(domainBuf[..len]) {
        address := Some(DomainName(domainBuf[..len]));
      } else {
        address := None;
      }
      LedOn(s, start, in0, out, target, in1, out,
            if address.Some? then Port(login, command, address.value) else Done(Failed), stream.input, out);
  }

  method AnswerRequest(s: Server, login: Option<Login>, request: Request, stream: Stream) returns (outcome: Outcome)
    modifies stream`output
    ensures (Done(outcome), stream.output) ==
            (Answer(s, login, request).0, old(stream.output) + Answer(s, login, request).1)
  {
    if request.command != Connect {
      SendResponse(stream, NewError(0x07));
      return Failed;
    }
    match s.connect(request)
    case Connected(bound) =>
      SendResponse(stream, NewSuccess(bound));
      outcome := Tunnel(login, request);
    case BlockedByPolicy =>
      SendResponse(stream, NewError(0x02));
      outcome := Failed;
    case Unreachable =>
      SendResponse(stream, NewError(0x04));
      outcome := Failed;
    case Lost =>
      assert stream.output + [] == stream.output;
      outcome := Failed;
  }

  // `handle_socks5_connection`
  method HandleConnection(s: Server, stream: Stream) returns (outcome: Outcome)
    modifies stream
    ensures Serve(s, Greeting, old(stream.input)).outcome == outcome
    ensures stream.output == old(stream.output) + Serve(s, Greeting, old(stream.input)).written
    ensures stream.input == Serve(s, Greeting, old(stream.input)).rest
  {
    hide Led, Serve;
    ghost var in0, out0 := stream.input, stream.output;
    var r := HandleHandshake(s, stream);
    if r.Err? {
      LedEnds(s, Greeting, in0, out0, Failed, stream.input, stream.output);
      return Failed;
    }
    ghost var in1, out1 := stream.input, stream.output;
    outcome := HandleRequest(s, r.value, stream);
    LedOn(s, Greeting, in0, out0, Header(r.value), in1, out1, Done(outcome), stream.input, stream.output);
    LedEnds(s, Greeting, in0, out0, outcome, stream.input, stream.output);
  }

  /// The client

  datatype Conversed = Conversed(ok: bool, written: Bytes, rest: Bytes)

  // The client's stages run from `stage` on a stream that holds `input` and then ends.
  function Converse(d: Dial, stage: ClientStage, input: Bytes): Conversed
    decreases stage.Rank()
  {
    if stage.Finished? then Conversed(stage.ok, [], input)
    else if |input| < stage.Need() then Conversed(false, [], [])
    else
      var (next, out) := ClientAdvance(d, stage, input[..stage.Need()]);
      var after := Converse(d, next, input[stage.Need()..]);
      after.(written := out + after.written)
  }

  lemma ConverseOnce(d: Dial, stage: ClientStage, input: Bytes)
    requires !stage.Finished?
    ensures |input| < stage.Need() ==> Converse(d, stage, input) == Conversed(false, [], [])
    ensures |input| >= stage.Need() ==>
              var (next, out) := ClientAdvance(d, stage, input[..stage.Need()]);
              var after := Converse(d, next, input[stage.Need()..]);
              Converse(d, stage, input) == after.(written := out + after.written)
  {
  }

  lemma ConverseOver(d: Dial, ok: bool, input: Bytes)
    ensures Converse(d, Finished(ok), input) == Conversed(ok, [], input)
  {
  }

  // The second half of `socks5_connect_handshake`: the reply to the connect message.
  method ReadReply(ghost d: Dial, stream: Stream) returns (ok: bool)
    modifies stream`input
    ensures Converse(d, AwaitReply, old(stream.input)) == Conversed(ok, [], stream.input)
  {
    var connResp := new U8[4];
    ok := stream.ReadExact(connResp, 4);
    if !ok { return; }
    if connResp[0] != 0x05 { return false; }
    if connResp[1] != 0x00 { return false; }
    var kind := connResp[3];
    if kind == 0x01 {
      var buf := new U8[6];
      ok := stream.ReadExact(buf, 6);
    } else if kind == 0x04 {
      var buf := new U8[18];
      ok := stream.ReadExact(buf, 18);
    } else if kind == 0x03 {
      var lenBuf := new U8[1];
      ok := stream.ReadExact(lenBuf, 1);
      if !ok { return; }
      var size: nat := (lenBuf[0] as nat) + 2;
      var domainBuf := new U8[size];
      ok := stream.ReadExact(domainBuf, size);
    } else {
      ok := false;
    }
  }

  // `socks5_connect_handshake`
  method ConnectHandshake(d: Dial, stream: Stream) returns (ok: bool)
    modifies stream
    ensures ok == Converse(d, AwaitMethod, old(stream.input)).ok
    ensures stream.output == old(stream.output) + d.InitMessage() + Converse(d, AwaitMethod, old(stream.input)).written
    ensures stream.input == Converse(d, AwaitMethod, old(stream.input)).rest
  {
    hide Converse, Dial.AuthMessage, Dial.ConnectMessage;
    ConverseOnce(d, AwaitMethod, stream.input);
    var methods: Bytes := if d.HasCreds() then [0x00, 0x02] else [0x00];
    var initMessage: Bytes := [0x05, LowByte(|methods|)];
    initMessage := initMessage + methods;
    stream.WriteAll(initMessage);
    assert initMessage == d.InitMessage();
    ghost var out1 := stream.output;

    var resp := new U8[2];
    ok := stream.ReadExact(resp, 2);
    if !ok { return; }
    ConverseOver(d, false, stream.input);
    if resp[0] != 0x05 { return false; }
    var chosen := resp[1];
    if chosen == 0x02 && d.HasCreds() {
      ConverseOnce(d, AwaitAuth, stream.input);
      stream.WriteAll(d.AuthMessage());
      var authResp := new U8[2];
      ok := stream.ReadExact(authResp, 2);
      ConverseOver(d, false, stream.input);
      if !ok { return; }
      if authResp[0] != 0x01 { return false; }
      if authResp[1] != 0x00 { return false; }
    } else if chosen != 0x00 {
      return false;
    }
    stream.WriteAll(d.ConnectMessage());
    ok := ReadReply(d, stream);
  }

  /// What the straight-line server does with the client's bytes

  lemma ServeStage(s: Server, stage: Stage, input: Bytes, next: Stage, out: Bytes, after: Served)
    requires !stage.Done? && stage.Need() <= |input|
    requires Advance(s, stage, input[..stage.Need()]) == (next, out) && Serve(s, next, input[stage.Need()..]) == after
    ensures Serve(s, stage, input) == after.(written := out + after.written)
  {
  }

  lemma ServeNothingMore(s: Server, outcome: Outcome, tail: Bytes)
    ensures Serve(s, Done(outcome), [] + tail) == Served(outcome, [], tail)
  {
    assert [] + tail == tail;
  }

  lemma {:induction false} ServeExpected(v: Server, d: Dial, stage: Stage, tail: Bytes)
    requires Fits(v, d) && ServerStageOk(v, d, stage)
    ensures Serve(v, stage, ServerExpects(v, d, stage) + tail)
            == Served(TheOutcome(v, d), ServerRest(v, d, stage), tail)
    decreases stage.Rank()
  {
    if stage.Done? {
      ServeNothingMore(v, stage.outcome, tail);
    } else {
      var all, n := ServerExpects(v, d, stage), stage.Need();
      ServerHasEnough(v, d, stage);
      Cut(all, tail, n);
      assert all[..n] + all[n..] == all;
      ServerStep(v, d, stage, all[..n], all[n..]);
      var (next, out) := Advance(v, stage, all[..n]);
      ServeExpected(v, d, next, tail);
      ServeStage(v, stage, all + tail, next, out, Served(TheOutcome(v, d), ServerRest(v, d, next), tail));
    }
  }

  // Given everything the client would write, followed by any bytes of the tunnel, the
  // server comes to the client's own login and request, answers with the predicted
  // bytes, and leaves exactly the tunnel's bytes unread.
  lemma ServerReadsClient(v: Server, d: Dial, tail: Bytes)
    requires Fits(v, d)
    ensures Serve(v, Greeting, d.InitMessage() + (AuthPart(v, d) + ConnectPart(v, d)) + tail)
            == Served(TheOutcome(v, d), MethodPart(v, d) + (StatusPart(v, d) + ReplyPart(v, d)), tail)
  {
    ServeExpected(v, d, Greeting, tail);
  }

  /// What no client can get, whatever bytes it sends

  predicate LoginFits(s: Server, login: Option<Login>) {
    if s.authRequired then login.Some? && s.Vouches(login.value) else login.None?
  }

  predicate Safe(s: Server, stage: Stage) {
    match stage
    case Greeting => true
    case Methods(_) => true
    case AuthHeader => s.authRequired
    case User(_) => s.authRequired
    case PasswordLength(_) => s.authRequired
    case Password(_, _) => s.authRequired
    case Header(login) => LoginFits(s, login)
    case NameLength(login, _) => LoginFits(s, login)
    case Target(login, _, _, _) => LoginFits(s, login)
    case Port(login, _, _) => LoginFits(s, login)
    case Done(Failed) => true
    case Done(Tunnel(login, r)) => LoginFits(s, login) && r.command == Connect && s.connect(r).Connected?
  }

  lemma {:induction false} ServeIsSafe(s: Server, stage: Stage, input: Bytes)
    requires Safe(s, stage)
    ensures Safe(s, Done(Serve(s, stage, input).outcome))
    decreases stage.Rank()
  {
    if !stage.Done? && stage.Need() <= |input| {
      var next := Advance(s, stage, input[..stage.Need()]).0;
      ServeIsSafe(s, next, input[stage.Need()..]);
    }
  }

  // For every stream of bytes from any client: a tunnel is only ever opened for a CONNECT
  // request whose target was connected, and, when authentication is required, only for a
  // login that the backend accepted.
  lemma NoTunnelWithoutLogin(s: Server, input: Bytes)
    ensures match Serve(s, Greeting, input).outcome
            case Failed => true
            case Tunnel(login, r) =>
              && r.command == Connect && s.connect(r).Connected?
              && (s.authRequired ==>
                    login.Some? && s.authenticator.Some? && s.authenticator.value(login.value) == Ok(true))
  {
    ServeIsSafe(s, Greeting, input);
  }

  /// Replies read back (RFC 1928 section 6)

  function DecodeReply(b: Bytes): Option<(Reply, Bytes)> {
    if |b| < 5 || b[0] != 0x05 then None
    else
      var skip := if b[3] == 0x03 then 5 else 4;
      var size: nat := if b[3] == 0x01 then 4 else if b[3] == 0x04 then 16 else b[4];
      if b[3] !in {0x01, 0x03, 0x04} || |b| < skip + size + 2 then None
      else
        Some((Reply(b[1], AddressFrom(AddressTypeOf(b[3]), b[skip..skip+size]), PortOf(b[skip+size..skip+size+2])),
              b[skip+size+2..]))
  }

  lemma DecodesAs(b: Bytes, code: U8, kind: U8, skip: nat, body: Bytes, port: Bytes, tail: Bytes)
    requires |b| == skip + |body| + 2 + |tail| && |b| >= 5 && |port| == 2
    requires b[0] == 0x05 && b[1] == code && b[3] == kind && kind in {0x01, 0x03, 0x04}
    requires skip == (if kind == 0x03 then 5 else 4)
    requires |body| == (if kind == 0x01 then 4 else if kind == 0x04 then 16 else b[4])
    requires b[skip..skip+|body|] == body && b[skip+|body|..skip+|body|+2] == port && b[skip+|body|+2..] == tail
    ensures DecodeReply(b) == Some((Reply(code, AddressFrom(AddressTypeOf(kind), body), PortOf(port)), tail))
  {
  }

  // A reply with a valid address, of at most 255 bytes when it is a name, is read back
  // with its code, address and port, and nothing after it is touched.
  lemma ReplyRoundTrip(r: Reply, tail: Bytes)
    requires r.address.Valid() && Short(Body(r.address))
    ensures DecodeReply(EncodeReply(r) + tail) == Some((r, tail))
  {
    hide DecodeReply;
    var body, port := Body(r.address), PortBytes(r.port);
    var head: Bytes := ReplyHead(r);
    var b := head + body + port + tail;
    assert EncodeReply(r) + tail == b by { ReplyParts(r); }
    hide EncodeReply;
    Slices(head, body, port, tail);
    assert forall k :: 0 <= k < |head| ==> b[k] == head[k];
    assert PortOf(port) == r.port;
    DecodesAs(b, r.code, r.address.TypeByte(), |head|, body, port, tail);
  }

  function ReplyHead(r: Reply): Bytes {
    [0x05, r.code, 0x00, r.address.TypeByte()] + (if r.address.DomainName? then [LowByte(|r.address.name|)] else [])
  }

  lemma ReplyParts(r: Reply)
    ensures EncodeReply(r) == ReplyHead(r) + Body(r.address) + PortBytes(r.port)
  {
  }

  lemma Slices(head: Bytes, body: Bytes, port: Bytes, tail: Bytes)
    ensures var b := head + body + port + tail;
            && b[|head|..|head|+|body|] == body
            && b[|head|+|body|..|head|+|body|+|port|] == port
            && b[|head|+|body|+|port|..] == tail
  {
  }
}
