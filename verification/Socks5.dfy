/**
 Both ends of the SOCKS5 negotiation (RFC 1928 sections 3 to 6, RFC 1929 section 2):
 the server of `src/socks5.rs` and `src/server.rs`, and the client of
 `src/upstream.rs`. Each end is a list of stages; a stage waits for a fixed number of
 bytes, and once it has them it writes some bytes and moves to another stage.
 */
module Socks5 {
  import opened Wrappers
  import opened Addresses

  type Bytes = seq<U8>

  datatype AuthMethod = NoAuth | UserPass | NoAcceptable
  {
    function Byte(): U8 {
      match this
      case NoAuth => 0x00
      case UserPass => 0x02
      case NoAcceptable => 0xFF
    }
  }

  function MethodOf(b: U8): AuthMethod {
    if b == 0x00 then NoAuth else if b == 0x02 then UserPass else NoAcceptable
  }

  datatype Command = Connect | Bind | UdpAssociate

  // An unknown command byte falls back to Connect.
  function CommandOf(b: U8): Command {
    if b == 0x02 then Bind else if b == 0x03 then UdpAssociate else Connect
  }

  datatype AddressType = TypeV4 | TypeName | TypeV6

  // An unknown address type byte falls back to a domain name.
  function AddressTypeOf(b: U8): AddressType {
    if b == 0x01 then TypeV4 else if b == 0x04 then TypeV6 else TypeName
  }

  datatype Address = IPv4(octets4: Bytes) | IPv6(octets6: Bytes) | DomainName(name: Bytes)
  {
    predicate Valid() {
      match this
      case IPv4(o) => |o| == 4
      case IPv6(o) => |o| == 16
      case DomainName(n) => true
    }

    function TypeByte(): U8 {
      match this
      case IPv4(_) => 0x01
      case IPv6(_) => 0x04
      case DomainName(_) => 0x03
    }

    function Type(): AddressType {
      AddressTypeOf(TypeByte())
    }

    // The bytes after the type byte; the length of a name is cut to one byte.
    function Encoded(): Bytes {
      match this
      case IPv4(o) => o
      case IPv6(o) => o
      case DomainName(n) => [LowByte(|n|)] + n
    }
  }

  function LowByte(n: nat): U8 { n % 256 }

  function PortBytes(port: U16): Bytes { [port / 256, port % 256] }

  function PortOf(b: Bytes): U16
    requires |b| == 2
  {
    (b[0] as nat) * 256 + b[1]
  }

  datatype Request = Request(command: Command, address: Address, port: U16)

  datatype Reply = Reply(code: U8, address: Address, port: U16)

  // A bound socket address: always an IP address.
  datatype Bound = BoundV4(octets4: Bytes, port: U16) | BoundV6(octets6: Bytes, port: U16)
  {
    predicate Valid() {
      match this
      case BoundV4(o, _) => |o| == 4
      case BoundV6(o, _) => |o| == 16
    }
  }

  function NewSuccess(bound: Bound): Reply {
    match bound
    case BoundV4(o, port) => Reply(0x00, IPv4(o), port)
    case BoundV6(o, port) => Reply(0x00, IPv6(o), port)
  }

  function NewError(code: U8): Reply {
    Reply(code, IPv4([0, 0, 0, 0]), 0)
  }

  function EncodeReply(r: Reply): Bytes {
    [0x05, r.code, 0x00, r.address.TypeByte()] + r.address.Encoded() + PortBytes(r.port)
  }

  datatype Login = Login(user: Bytes, password: Bytes)

  // What connecting to the target came to. `Lost` is a connected socket whose
  // local address cannot be read, after which the server hangs up without a reply.
  datatype Connection = Connected(bound: Bound) | BlockedByPolicy | Unreachable | Lost

  type Authenticator = Login -> Result<bool, string>

  // Everything the server consults: its settings, its backends and the target.
  datatype Server = Server(authRequired: bool, authenticator: Option<Authenticator>, utf8: Bytes -> bool,
                           connect: Request -> Connection)
  {
    function ValidateCredentials(login: Login): bool {
      match authenticator
      case None => false
      case Some(auth) => match auth(login) case Ok(valid) => valid case Err(_) => false
    }

    // The backend, if there is one, says yes.
    predicate Vouches(login: Login) {
      authenticator.Some? && authenticator.value(login) == Ok(true)
    }

    function SelectMethod(offered: Bytes): AuthMethod {
      if authRequired then
        if exists i :: 0 <= i < |offered| && MethodOf(offered[i]) == UserPass then UserPass else NoAcceptable
      else if exists i :: 0 <= i < |offered| && MethodOf(offered[i]) == NoAuth then NoAuth
      else NoAcceptable
    }
  }

  /// The server

  datatype Outcome = Tunnel(login: Option<Login>, request: Request) | Failed

  datatype Stage =
    | Greeting
    | Methods(count: nat)
    | AuthHeader
    | User(userLength: nat)
    | PasswordLength(user: Bytes)
    | Password(user: Bytes, passwordLength: nat)
    | Header(login: Option<Login>)
    | NameLength(login: Option<Login>, command: Command)
    | Target(login: Option<Login>, command: Command, kind: AddressType, length: nat)
    | Port(login: Option<Login>, command: Command, address: Address)
    | Done(outcome: Outcome)
  {
    function Need(): nat {
      match this
      case Greeting => 2
      case Methods(n) => n
      case AuthHeader => 2
      case User(n) => n
      case PasswordLength(_) => 1
      case Password(_, n) => n
      case Header(_) => 4
      case NameLength(_, _) => 1
      case Target(_, _, _, n) => n
      case Port(_, _, _) => 2
      case Done(_) => 0
    }

    function Rank(): nat {
      match this
      case Greeting => 10
      case Methods(n) => 9
      case AuthHeader => 8
      case User(n) => 7
      case PasswordLength(_) => 6
      case Password(_, n) => 5
      case Header(_) => 4
      case NameLength(_, _) => 3
      case Target(_, _, _, _) => 2
      case Port(_, _, _) => 1
      case Done(_) => 0
    }
  }

  function AddressFrom(kind: AddressType, bytes: Bytes): Address {
    match kind
    case TypeV4 => IPv4(bytes)
    case TypeV6 => IPv6(bytes)
    case TypeName => DomainName(bytes)
  }

  // The reply to a complete request, and how the connection ends after it.
  function Answer(s: Server, login: Option<Login>, r: Request): (Stage, Bytes) {
    if r.command != Connect then (Done(Failed), EncodeReply(NewError(0x07)))
    else
      match s.connect(r)
      case Connected(bound) => (Done(Tunnel(login, r)), EncodeReply(NewSuccess(bound)))
      case BlockedByPolicy => (Done(Failed), EncodeReply(NewError(0x02)))
      case Unreachable => (Done(Failed), EncodeReply(NewError(0x04)))
      case Lost => (Done(Failed), [])
  }

  function Advance(s: Server, stage: Stage, got: Bytes): (r: (Stage, Bytes))
    requires !stage.Done? && |got| == stage.Need()
    ensures r.0.Rank() < stage.Rank()
  {
    match stage
    case Greeting =>
      if got[0] != 0x05 || got[1] == 0 then (Done(Failed), []) else (Methods(got[1]), [])
    case Methods(_) =>
      var m := s.SelectMethod(got);
      (match m case NoAuth => Header(None) case UserPass => AuthHeader case NoAcceptable => Done(Failed),
       [0x05, m.Byte()])
    case AuthHeader =>
      if got[0] != 0x01 then (Done(Failed), []) else (User(got[1]), [])
    case User(_) =>
      if !s.utf8(got) then (Done(Failed), []) else (PasswordLength(got), [])
    case PasswordLength(user) =>
      (Password(user, got[0]), [])
    case Password(user, _) =>
      if !s.utf8(got) then (Done(Failed), [])
      else if s.ValidateCredentials(Login(user, got)) then (Header(Some(Login(user, got))), [0x01, 0x00])
      else (Done(Failed), [0x01, 0x01])
    case Header(login) =>
      var command := CommandOf(got[1]);
      if got[0] != 0x05 then (Done(Failed), [])
      else (match AddressTypeOf(got[3])
            case TypeV4 => Target(login, command, TypeV4, 4)
            case TypeV6 => Target(login, command, TypeV6, 16)
            case TypeName => NameLength(login, command), [])
    case NameLength(login, command) =>
      (Target(login, command, TypeName, got[0]), [])
    case Target(login, command, kind, _) =>
      if kind == TypeName && !s.utf8(got) then (Done(Failed), [])
      else (Port(login, command, AddressFrom(kind, got)), [])
    case Port(login, command, address) =>
      Answer(s, login, Request(command, address, PortOf(got)))
  }

  /// Whole messages

  // The login at the front of `b`, if there is a complete and well-formed one.
  function ReadLogin(utf8: Bytes -> bool, b: Bytes): Option<(Login, Bytes)> {
    if |b| < 2 || b[0] != 0x01 || |b| < 3 + b[1] as nat then None
    else
      var n: nat := b[1];
      var m: nat := b[2 + n];
      if |b| < 3 + n + m || !utf8(b[2..2+n]) || !utf8(b[3+n..3+n+m]) then None
      else Some((Login(b[2..2+n], b[3+n..3+n+m]), b[3+n+m..]))
  }

  // The body of a request whose header and, for a name, length take `skip` bytes.
  function ReadBody(utf8: Bytes -> bool, kind: AddressType, command: Command, b: Bytes, skip: nat, n: nat)
    : Option<(Request, Bytes)>
  {
    if |b| < skip + n + 2 || (kind == TypeName && !utf8(b[skip..skip+n])) then None
    else
      var address := AddressFrom(kind, b[skip..skip+n]);
      Some((Request(command, address, PortOf(b[skip+n..skip+n+2])), b[skip+n+2..]))
  }

  function ReadRequest(utf8: Bytes -> bool, b: Bytes): Option<(Request, Bytes)> {
    if |b| < 4 || b[0] != 0x05 then None
    else
      match AddressTypeOf(b[3])
      case TypeV4 => ReadBody(utf8, TypeV4, CommandOf(b[1]), b, 4, 4)
      case TypeV6 => ReadBody(utf8, TypeV6, CommandOf(b[1]), b, 4, 16)
      case TypeName => if |b| < 5 then None else ReadBody(utf8, TypeName, CommandOf(b[1]), b, 5, b[4])
  }

  /// The client

  datatype Dial = Dial(address: Address, port: U16, username: Option<Bytes>, password: Option<Bytes>)
  {
    predicate HasCreds() { username.Some? && password.Some? }

    function Creds(): Login
      requires HasCreds()
    {
      Login(username.value, password.value)
    }

    function InitMessage(): Bytes {
      if HasCreds() then [0x05, 2, 0x00, 0x02] else [0x05, 1, 0x00]
    }

    function AuthMessage(): Bytes
      requires HasCreds()
    {
      [0x01, LowByte(|username.value|)] + username.value + [LowByte(|password.value|)] + password.value
    }

    function ConnectMessage(): Bytes {
      [0x05, 0x01, 0x00, address.TypeByte()] + address.Encoded() + PortBytes(port)
    }
  }

  datatype ClientStage =
    | AwaitMethod
    | AwaitAuth
    | AwaitReply
    | AwaitNameLength
    | AwaitTail(length: nat)
    | Finished(ok: bool)
  {
    function Need(): nat {
      match this
      case AwaitMethod => 2
      case AwaitAuth => 2
      case AwaitReply => 4
      case AwaitNameLength => 1
      case AwaitTail(n) => n
      case Finished(_) => 0
    }

    function Rank(): nat {
      match this
      case AwaitMethod => 5
      case AwaitAuth => 4
      case AwaitReply => 3
      case AwaitNameLength => 2
      case AwaitTail(_) => 1
      case Finished(_) => 0
    }
  }

  function ClientAdvance(d: Dial, stage: ClientStage, got: Bytes): (r: (ClientStage, Bytes))
    requires !stage.Finished? && |got| == stage.Need()
    ensures r.0.Rank() < stage.Rank()
  {
    match stage
    case AwaitMethod =>
      if got[0] != 0x05 then (Finished(false), [])
      else if got[1] == 0x02 && d.HasCreds() then (AwaitAuth, d.AuthMessage())
      else if got[1] != 0x00 then (Finished(false), [])
      else (AwaitReply, d.ConnectMessage())
    case AwaitAuth =>
      if got[0] != 0x01 || got[1] != 0x00 then (Finished(false), [])
      else (AwaitReply, d.ConnectMessage())
    case AwaitReply =>
      if got[0] != 0x05 || got[1] != 0x00 then (Finished(false), [])
      else if got[3] == 0x01 then (AwaitTail(6), [])
      else if got[3] == 0x04 then (AwaitTail(18), [])
      else if got[3] == 0x03 then (AwaitNameLength, [])
      else (Finished(false), [])
    case AwaitNameLength => (AwaitTail((got[0] as nat) + 2), [])
    case AwaitTail(_) => (Finished(true), [])
  }
}
