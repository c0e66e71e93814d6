/**
 What `handle_regular_proxy` of `src/http_proxy.rs` writes to the target, read again
 (RFC 9112 section 5).
 */
module HttpForward {
  import opened Wrappers
  import opened Text
  import opened TextLemmas
  import opened HttpReader

  predicate Forwarded(name: string) {
    name != "proxy-connection" && name != "proxy-authorization"
  }

  function HeaderLine(name: string, value: string): string {
    name + ": " + value + "\r\n"
  }

  // The header lines in the order in which the map happens to be iterated.
  function RenderHeaders(headers: Headers, order: seq<string>): string
    requires forall n :: n in order ==> n in headers
  {
    if order == [] then ""
    else
      assert order[0] in order;
      assert forall n :: n in order[1..] ==> n in order;
      (if Forwarded(order[0]) then HeaderLine(order[0], headers[order[0]]) else "") + RenderHeaders(headers, order[1..])
  }

  // An iteration order of the map: every name once.
  ghost predicate IsOrder(headers: Headers, order: seq<string>) {
    && (forall n :: n in order <==> n in headers)
    && (forall i, j :: 0 <= i < j < |order| ==> order[i] != order[j])
  }

  function RequestLine(r: Request): string {
    r.verb + (" " + (r.uri + (" " + r.version))) + "\r\n"
  }

  function Render(r: Request, order: seq<string>): string
    requires forall n :: n in order ==> n in r.headers
  {
    RequestLine(r) + RenderHeaders(r.headers, order) + "\r\n"
  }

  lemma HeaderLineText(name: string, value: string)
    ensures HeaderLine(name, value) == name + ": " + value + "\r\n"
  {
  }

  // The request part of `handle_regular_proxy`.
  method RenderRequest(r: Request, order: seq<string>) returns (requestData: string)
    requires IsOrder(r.headers, order)
    ensures requestData == Render(r, order)
  {
    hide HeaderLine;
    requestData := r.verb + " " + r.uri + " " + r.version + "\r\n";
    assert requestData == RequestLine(r);
    for i := 0 to |order|
      invariant forall n :: n in order ==> n in r.headers
      invariant requestData + RenderHeaders(r.headers, order[i..]) == RequestLine(r) + RenderHeaders(r.headers, order)
    {
      var name := order[i];
      ghost var before := requestData;
      ghost var rest := order[i..];
      assert rest[0] == name && rest[1..] == order[i+1..];
      if name != "proxy-connection" && name != "proxy-authorization" {
        requestData := requestData + (name + ": " + r.headers[name] + "\r\n");
        assert HeaderLine(name, r.headers[name]) == name + ": " + r.headers[name] + "\r\n" by {
          HeaderLineText(name, r.headers[name]);
        }
        assert before + (HeaderLine(name, r.headers[name]) + RenderHeaders(r.headers, order[i+1..]))
            == requestData + RenderHeaders(r.headers, order[i+1..]);
      } else {
        assert "" + RenderHeaders(r.headers, order[i+1..]) == RenderHeaders(r.headers, order[i+1..]);
      }
    }
    assert requestData + "" == requestData;
    requestData := requestData + "\r\n";
  }

  /// The normal form of parsed requests

  predicate NormalName(n: string) {
    Trimmed(n) && Lower(n) == n && ':' !in n && '\n' !in n
  }

  predicate NormalValue(v: string) {
    Trimmed(v) && '\n' !in v
  }

  predicate NormalHeaders(h: Headers) {
    forall n :: n in h ==> NormalName(n) && NormalValue(h[n])
  }

  predicate Normal(r: Request) {
    IsWord(r.verb) && IsWord(r.uri) && IsWord(r.version) && NormalHeaders(r.headers)
  }

  lemma TrimKeeps(s: string, c: char)
    requires c !in s
    ensures c !in Trim(s)
  {
    var i, j := TrimSlice(s);
  }

  lemma InsertIsNormal(headers: Headers, line: string)
    requires NormalHeaders(headers) && '\n' !in line
    ensures NormalHeaders(Insert(headers, line))
  {
    match Find(line, ':')
    case None =>
    case Some(at) =>
      var left, right := line[..at], line[at+1..];
      var name := Trim(left);
      assert ':' !in left;
      TrimKeeps(left, ':');
      TrimKeeps(left, '\n');
      TrimKeeps(right, '\n');
      var i, j := TrimSlice(left);
      var k, l := TrimSlice(right);
      LowerTrimmed(name);
      assert NormalName(Lower(name)) && NormalValue(Trim(right));
  }

  lemma {:induction false} HeadersAreNormal(input: string, headers: Headers)
    requires NormalHeaders(headers)
    ensures NormalHeaders(ReadHeaders(input, headers).0)
    decreases |input|
  {
    hide Line, Trim, Insert, NormalHeaders;
    var line := Line(input);
    if line != "" && Trim(line) != "" {
      TrimmedLineIsOneLine(input);
      InsertIsNormal(headers, Trim(line));
      HeadersAreNormal(input[|line|..], Insert(headers, Trim(line)));
    }
  }

  lemma ParsedIsNormal(input: string)
    requires ReadUnlimited(input).Ok?
    ensures Normal(ReadUnlimited(input).value.request)
  {
    hide Line, Trim, NormalHeaders, ReadHeaders;
    var line := Line(input);
    var parts := Words(Trim(line));
    WordsAreWords(Trim(line));
    assert parts[0] in parts && parts[1] in parts && parts[2] in parts;
    assert NormalHeaders(map[]) by { NoHeadersAreNormal(); }
    HeadersAreNormal(input[|line|..], map[]);
  }

  lemma NoHeadersAreNormal()
    ensures NormalHeaders(map[])
  {
  }

  /// Reading rendered lines back

  lemma TrimHeaderLine(name: string, value: string)
    requires Trimmed(name) && NormalValue(value)
    ensures Trim(HeaderLine(name, value)) == if value == "" then name + ":" else name + ": " + value
  {
    if value == "" {
      var core := name + ":";
      assert HeaderLine(name, value) == "" + core + " \r\n";
      TrimOf("", core, " \r\n");
    } else {
      var core := name + ": " + value;
      assert HeaderLine(name, value) == "" + core + "\r\n";
      TrimOf("", core, "\r\n");
    }
  }

  lemma InsertAt(headers: Headers, left: string, right: string)
    requires ':' !in left
    ensures Insert(headers, left + ":" + right) == headers[Lower(Trim(left)) := Trim(right)]
  {
    hide Trim, Lower;
    FindAt(left, ':', right);
    var line := left + [':'] + right;
    assert line[..|left|] == left && line[|left|+1..] == right;
  }

  lemma TrimAfterSpace(value: string)
    requires Trimmed(value)
    ensures Trim(" " + value) == value
  {
    if value == "" {
      TrimBlank(" ");
    } else {
      assert " " + value == " " + value + "";
      TrimOf(" ", value, "");
    }
  }

  lemma CoreText(name: string, value: string)
    ensures (if value == "" then name + ":" else name + ": " + value)
            == name + ":" + (if value == "" then "" else " " + value)
  {
    if value == "" {
      assert name + ":" + "" == name + ":";
    } else {
      Reassociate(name + ":", " ", value);
      assert name + ":" + " " == name + ": ";
    }
  }

  lemma InsertHeaderLine(headers: Headers, name: string, value: string)
    requires Trimmed(name) && ':' !in name && NormalValue(value)
    ensures Insert(headers, Trim(HeaderLine(name, value))) == headers[Lower(name) := value]
    ensures Trim(HeaderLine(name, value)) != ""
  {
    hide Insert, Trim, Lower, HeaderLine;
    TrimHeaderLine(name, value);
    TrimmedStays(name);
    TrimmedStays(value);
    TrimAfterSpace(value);
    CoreText(name, value);
    InsertAt(headers, name, if value == "" then "" else " " + value);
  }

  lemma HeaderLineIsLine(name: string, value: string, rest: string)
    requires '\n' !in name && '\n' !in value
    ensures Line(HeaderLine(name, value) + rest) == HeaderLine(name, value)
    ensures (HeaderLine(name, value) + rest)[|HeaderLine(name, value)|..] == rest
  {
    var text := name + ": " + value + "\r";
    LineOf(text, rest);
    assert HeaderLine(name, value) == text + "\n";
  }

  // A rendered header line in front of a stream is read as one header.
  lemma ReadHeaderLine(name: string, value: string, rest: string, headers: Headers)
    requires Trimmed(name) && ':' !in name && '\n' !in name && NormalValue(value)
    ensures var (all, used) := ReadHeaders(rest, headers[Lower(name) := value]);
            ReadHeaders(HeaderLine(name, value) + rest, headers) == (all, |HeaderLine(name, value)| + used)
  {
    hide Line, Trim, Insert, Lower, ReadHeaders;
    InsertHeaderLine(headers, name, value);
    HeaderLineIsLine(name, value, rest);
    var line := HeaderLine(name, value);
    assert line != "";
    ReadOne(line + rest, line, rest, headers, headers[Lower(name) := value]);
  }

  lemma ReadOne(input: string, line: string, rest: string, headers: Headers, next: Headers)
    requires Line(input) == line && line != "" && Trim(line) != "" && Insert(headers, Trim(line)) == next
    requires |line| <= |input| && input[|line|..] == rest
    ensures var (all, used) := ReadHeaders(rest, next);
            ReadHeaders(input, headers) == (all, |line| + used)
  {
    hide Line, Trim, Insert;
  }

  lemma ReadBlank(rest: string, headers: Headers)
    ensures ReadHeaders("\r\n" + rest, headers) == (headers, 2)
  {
    assert "\r\n" + rest == "\r" + "\n" + rest;
    LineOf("\r", rest);
    assert "\r" + "\n" == "\r\n";
    TrimBlank("\r\n");
    hide Line, Trim, Insert;
  }

  // The headers in `order` that are forwarded, added to `onto`.
  function AddForwarded(headers: Headers, order: seq<string>, onto: Headers): Headers
    requires forall n :: n in order ==> n in headers
  {
    if order == [] then onto
    else
      assert order[0] in order;
      assert forall n :: n in order[1..] ==> n in order;
      AddForwarded(headers, order[1..], if Forwarded(order[0]) then onto[order[0] := headers[order[0]]] else onto)
  }

  lemma {:induction false} ReadRendered(headers: Headers, order: seq<string>, onto: Headers, tail: string)
    requires NormalHeaders(headers) && forall n :: n in order ==> n in headers
    ensures ReadHeaders(RenderHeaders(headers, order) + ("\r\n" + tail), onto)
            == (AddForwarded(headers, order, onto), |RenderHeaders(headers, order)| + 2)
    decreases |order|
  {
    hide ReadHeaders, HeaderLine, NormalName, NormalValue;
    if order == [] {
      assert "" + ("\r\n" + tail) == "\r\n" + tail;
      ReadBlank(tail, onto);
    } else {
      var name, rest := order[0], order[1..];
      assert name in order;
      assert forall n :: n in rest ==> n in order;
      var after := RenderHeaders(headers, rest) + ("\r\n" + tail);
      if Forwarded(name) {
        ReadRendered(headers, rest, onto[name := headers[name]], tail);
        ReadNormalLine(name, headers[name], after, onto);
        assert RenderHeaders(headers, order) + ("\r\n" + tail) == HeaderLine(name, headers[name]) + after;
      } else {
        ReadRendered(headers, rest, onto, tail);
        assert "" + RenderHeaders(headers, rest) == RenderHeaders(headers, rest);
      }
    }
  }

  lemma ReadNormalLine(name: string, value: string, rest: string, headers: Headers)
    requires NormalName(name) && NormalValue(value)
    ensures var (all, used) := ReadHeaders(rest, headers[name := value]);
            ReadHeaders(HeaderLine(name, value) + rest, headers) == (all, |HeaderLine(name, value)| + used)
  {
    hide ReadHeaders, HeaderLine, Lower;
    ReadHeaderLine(name, value, rest, headers);
  }

  // The headers that are forwarded.
  function Kept(headers: Headers): Headers {
    headers - {"proxy-connection", "proxy-authorization"}
  }

  lemma {:induction false} AddForwardedIsUnion(headers: Headers, order: seq<string>, onto: Headers)
    requires forall n :: n in order ==> n in headers
    ensures AddForwarded(headers, order, onto)
            == onto + (map n | n in headers && n in order && Forwarded(n) :: headers[n])
    decreases |order|
  {
    if order != [] {
      var name, rest := order[0], order[1..];
      assert name in order;
      assert forall n :: n in rest ==> n in order;
      assert forall n :: n in order <==> n == name || n in rest;
      AddForwardedIsUnion(headers, rest, if Forwarded(name) then onto[name := headers[name]] else onto);
    }
  }

  lemma AllKeptAreAdded(headers: Headers, order: seq<string>)
    requires IsOrder(headers, order)
    ensures AddForwarded(headers, order, map[]) == Kept(headers)
  {
    AddForwardedIsUnion(headers, order, map[]);
    hide AddForwarded;
    assert forall n :: n in headers ==> (Forwarded(n) <==> n !in {"proxy-connection", "proxy-authorization"});
  }

  lemma ReadRequestLine(r: Request, rest: string)
    requires IsWord(r.verb) && IsWord(r.uri) && IsWord(r.version)
    ensures Line(RequestLine(r) + rest) == RequestLine(r)
    ensures Words(Trim(RequestLine(r))) == [r.verb, r.uri, r.version]
  {
    var core := r.verb + (" " + (r.uri + (" " + r.version)));
    assert RequestLine(r) == (core + "\r") + "\n" && RequestLine(r) + rest == (core + "\r") + "\n" + rest;
    assert '\n' !in core + "\r";
    LineOf(core + "\r", rest);
    assert core[|core|-1] == r.version[|r.version|-1];
    assert RequestLine(r) == "" + core + "\r\n";
    TrimOf("", core, "\r\n");
    ThreeWords(r.verb, r.uri, r.version);
  }

  lemma RenderSplits(r: Request, order: seq<string>, tail: string)
    requires forall n :: n in order ==> n in r.headers
    ensures Render(r, order) + tail == RequestLine(r) + (RenderHeaders(r.headers, order) + ("\r\n" + tail))
    ensures |Render(r, order)| == |RequestLine(r)| + |RenderHeaders(r.headers, order)| + 2
  {
    hide RequestLine, RenderHeaders;
  }

  lemma ReadsAs(input: string, line: string, rest: string, r: Request, headers: Headers, used: nat)
    requires input == line + rest && line != "" && Line(input) == line
    requires Words(Trim(line)) == [r.verb, r.uri, r.version] && ReadHeaders(rest, map[]) == (headers, used)
    ensures ReadUnlimited(input) == Ok(Parsed(r.(headers := headers), |line| + used))
  {
    hide Line, Trim, Words, ReadHeaders;
    assert input[|line|..] == rest;
  }

  // A normal request, written in any header order and followed by anything, is read
  // back with the same method, target and version and exactly the forwarded headers,
  // and nothing after it is touched.
  lemma RenderedReadsBack(r: Request, order: seq<string>, tail: string)
    requires Normal(r) && IsOrder(r.headers, order)
    ensures ReadUnlimited(Render(r, order) + tail) == Ok(Parsed(r.(headers := Kept(r.headers)), |Render(r, order)|))
  {
    hide ReadUnlimited, Render, RequestLine, RenderHeaders, ReadHeaders, NormalHeaders, AddForwarded, Kept;
    var rest := RenderHeaders(r.headers, order) + ("\r\n" + tail);
    RenderSplits(r, order, tail);
    ReadRequestLine(r, rest);
    ReadRendered(r.headers, order, map[], tail);
    AllKeptAreAdded(r.headers, order);
    assert RequestLine(r) != "" by { RequestLineIsText(r); }
    ReadsAs(Render(r, order) + tail, RequestLine(r), rest, r, Kept(r.headers), |RenderHeaders(r.headers, order)| + 2);
  }

  lemma RequestLineIsText(r: Request)
    ensures RequestLine(r) != ""
  {
  }

  // For every stream the server accepts, whatever its limit: the forwarded request,
  // in any header order and before any body, is read back by a reader with room for it
  // as the accepted request without its two proxy headers.
  lemma ForwardingPreserves(input: string, limit: nat, order: seq<string>, body: string, room: nat)
    ensures match ReadLimited(input, limit)
            case Err(_) => true
            case Ok(Parsed(r, _)) =>
              IsOrder(r.headers, order) && |Render(r, order)| < room ==>
                ReadLimited(Render(r, order) + body, room)
                == Ok(Parsed(r.(headers := Kept(r.headers)), |Render(r, order)|))
  {
    hide ReadLimited, ReadUnlimited, Normal, Render;
    match ReadLimited(input, limit)
    case Err(_) =>
    case Ok(Parsed(r, _)) =>
      if IsOrder(r.headers, order) && |Render(r, order)| < room {
        LimitOnlyRejects(input, limit);
        ParsedIsNormal(input);
        RenderedReadsBack(r, order, body);
        LimitOnlyRejects(Render(r, order) + body, room);
      }
  }
}
