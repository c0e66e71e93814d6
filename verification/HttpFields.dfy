/**
 The header map of a parsed request as a statement about its field lines, and when
 forwarding keeps every one of them (RFC 9112 section 5).
 */
module HttpFields {
  import opened Wrappers
  import opened Text
  import opened TextLemmas
  import opened HttpReader
  import opened HttpForward

  /// The field lines of a message

  // The position of the first blank line, or the number of lines when there is none.
  function FirstBlank(lines: seq<string>): (n: nat)
    ensures n <= |lines|
    ensures forall i :: 0 <= i < n ==> Trim(lines[i]) != ""
    ensures n < |lines| ==> Trim(lines[n]) == ""
  {
    if lines == [] || Trim(lines[0]) == "" then 0
    else
      var n := FirstBlank(lines[1..]);
      assert forall i :: 0 < i < n + 1 ==> lines[i] == lines[1..][i-1];
      n + 1
  }

  type Field = (string, string)

  // The name before the first colon of a line, in lower case, and the value after it.
  function FieldOf(line: string): Option<Field> {
    match Find(line, ':')
    case None => None
    case Some(i) => Some((Lower(Trim(line[..i])), Trim(line[i+1..])))
  }

  function FieldIn(line: string): seq<Field> {
    match FieldOf(line) case Some(f) => [f] case None => []
  }

  function FieldsIn(lines: seq<string>): seq<Field> {
    if lines == [] then []
    else FieldIn(Trim(lines[0])) + FieldsIn(lines[1..])
  }

  // The fields in the text cut at its line feeds, up to the first blank line.
  function Fields(text: string): seq<Field> {
    var lines := Split(text, '\n');
    FieldsIn(lines[..FirstBlank(lines)])
  }

  // What comes after the request line.
  function AfterFirstLine(input: string): string {
    input[|Line(input)|..]
  }

  lemma TrimLineFeed(line: string)
    ensures Trim(line + "\n") == Trim(line)
  {
    var i, n := AfterSpace(line, 0), |line|;
    var s := line + "\n";
    assert forall k :: 0 <= k < n ==> s[k] == line[k];
    if i == n {
      TrimBlank(line);
      TrimBlank(s);
    } else {
      assert AfterSpace(s, 0) == i;
      TrimEndLineFeed(line[i..]);
      assert s[i..] == line[i..] + "\n";
    }
  }

  lemma TrimEndLineFeed(t: string)
    ensures TrimEnd(t + "\n") == TrimEnd(t)
  {
    var s, j := t + "\n", BeforeSpace(t, |t|);
    assert forall k :: 0 <= k < |t| ==> s[k] == t[k];
    assert BeforeSpace(s, |s|) == j;
    assert s[..j] == t[..j];
  }

  lemma FirstOfLines(text: string)
    ensures var lines := Split(text, '\n');
            && Trim(lines[0]) == Trim(Line(text))
            && |Line(text)| <= |text|
            && (|lines| > 1 ==> lines[1..] == Split(AfterFirstLine(text), '\n'))
            && (|lines| == 1 ==> AfterFirstLine(text) == "")
  {
    match Find(text, '\n')
    case None =>
    case Some(i) =>
      TrimLineFeed(text[..i]);
      assert text[..i+1] == text[..i] + "\n";
  }

  lemma NoFields()
    ensures Fields("") == []
  {
    assert Split("", '\n') == [""];
    TrimBlank("");
    assert FirstBlank([""]) == 0;
  }

  lemma FirstLineFields(lines: seq<string>)
    requires lines != []
    ensures FieldsIn(lines[..FirstBlank(lines)]) ==
              if Trim(lines[0]) == "" then []
              else FieldIn(Trim(lines[0])) + FieldsIn(lines[1..][..FirstBlank(lines[1..])])
  {
    hide Trim, FieldIn;
    if Trim(lines[0]) != "" {
      var n := FirstBlank(lines[1..]);
      assert FirstBlank(lines) == n + 1;
      assert lines[..n+1][0] == lines[0] && lines[..n+1][1..] == lines[1..][..n];
    }
  }

  lemma FieldsInNothing()
    ensures FieldsIn([]) == [] && FirstBlank([]) == 0
  {
  }

  lemma FieldsStep(text: string)
    ensures Fields(text) ==
              if Trim(Line(text)) == "" then [] else FieldIn(Trim(Line(text))) + Fields(AfterFirstLine(text))
  {
    hide Line, Trim, FieldIn, FieldsIn, FirstBlank, Split, AfterFirstLine;
    var lines := Split(text, '\n');
    FirstOfLines(text);
    FirstLineFields(lines);
    if |lines| == 1 {
      assert lines[1..] == [] && lines[1..][..0] == [];
      FieldsInNothing();
      NoFields();
    }
  }

  /// The header map is the last field of each name

  function Entered(headers: Headers, fields: seq<Field>): Headers
    decreases |fields|
  {
    if fields == [] then headers else Entered(headers[fields[0].0 := fields[0].1], fields[1..])
  }

  lemma EnteredFirst(headers: Headers, line: string, rest: seq<Field>)
    ensures Entered(headers, FieldIn(line) + rest) == Entered(Insert(headers, line), rest)
  {
    match FieldOf(line)
    case None => assert [] + rest == rest;
    case Some(f) => assert ([f] + rest)[0] == f && ([f] + rest)[1..] == rest;
  }

  lemma {:induction false} HeadersAreEntered(text: string, headers: Headers)
    ensures ReadHeaders(text, headers).0 == Entered(headers, Fields(text))
    decreases |text|
  {
    hide Line, Trim, Insert, Fields, FieldIn, Entered;
    FieldsStep(text);
    var line := Line(text);
    if line == "" {
      EmptyLine(text);
      NoFields();
      EnteredNothing(headers);
    } else if Trim(line) == "" {
      EnteredNothing(headers);
    } else {
      HeadersAreEntered(AfterFirstLine(text), Insert(headers, Trim(line)));
      EnteredFirst(headers, Trim(line), Fields(AfterFirstLine(text)));
    }
  }

  lemma EmptyLine(text: string)
    requires Line(text) == ""
    ensures text == ""
  {
  }

  lemma EnteredNothing(headers: Headers)
    ensures Entered(headers, []) == headers
  {
  }

  predicate HasName(fields: seq<Field>, name: string) {
    exists k :: 0 <= k < |fields| && fields[k].0 == name
  }

  predicate LastNamed(fields: seq<Field>, k: int, name: string) {
    0 <= k < |fields| && fields[k].0 == name && forall j :: k < j < |fields| ==> fields[j].0 != name
  }

  lemma {:induction false} EnteredIsLast(headers: Headers, fields: seq<Field>, name: string)
    ensures var h := Entered(headers, fields);
            && (name in h <==> name in headers || HasName(fields, name))
            && (forall k :: LastNamed(fields, k, name) ==> h[name] == fields[k].1)
            && (name in headers && !HasName(fields, name) ==> h[name] == headers[name])
    decreases |fields|
  {
    if fields != [] {
      var first, rest := fields[0], fields[1..];
      EnteredIsLast(headers[first.0 := first.1], rest, name);
      assert forall k :: 0 < k < |fields| ==> fields[k] == rest[k-1];
      assert forall k :: 0 <= k < |rest| ==> rest[k] == fields[k+1];
      assert HasName(fields, name) <==> first.0 == name || HasName(rest, name);
      forall k | LastNamed(fields, k, name) ensures Entered(headers, fields)[name] == fields[k].1 {
        if k > 0 {
          assert LastNamed(rest, k - 1, name);
        } else {
          assert !HasName(rest, name);
        }
      }
    }
  }

  // The header map of every parsed request: a name is in it exactly when some line before
  // the first blank one gives it, and its value is that of the last such line.
  lemma HeadersAreLastFields(input: string, name: string)
    ensures match ReadUnlimited(input)
            case Err(_) => true
            case Ok(p) =>
              var fields := Fields(AfterFirstLine(input));
              && (name in p.request.headers <==> HasName(fields, name))
              && (forall k :: LastNamed(fields, k, name) ==> p.request.headers[name] == fields[k].1)
  {
    hide Line, Trim, Words, Fields, Entered, ReadHeaders;
    HeadersAreEntered(AfterFirstLine(input), map[]);
    EnteredIsLast(map[], Fields(AfterFirstLine(input)), name);
  }

  /// When forwarding keeps every field line

  // The fields but those with the names of the two proxy headers.
  function ToForward(fields: seq<Field>): seq<Field> {
    if fields == [] then []
    else
      var drop := fields[0].0 in {"proxy-connection", "proxy-authorization"};
      (if drop then [] else [fields[0]]) + ToForward(fields[1..])
  }

  // No forwarded name is given twice.
  predicate DistinctNames(fields: seq<Field>) {
    forall i, j :: 0 <= i < j < |fields| && Forwarded(fields[i].0) ==> fields[i].0 != fields[j].0
  }

  // What the forwarder writes for the map, in the order of its iteration.
  function Written(headers: Headers, order: seq<string>): seq<Field>
    requires forall n :: n in order ==> n in headers
  {
    if order == [] then []
    else
      assert order[0] in order;
      assert forall n :: n in order[1..] ==> n in order;
      (if Forwarded(order[0]) then [(order[0], headers[order[0]])] else []) + Written(headers, order[1..])
  }

  lemma FieldAt(left: string, right: string)
    requires ':' !in left
    ensures FieldOf(left + ":" + right) == Some((Lower(Trim(left)), Trim(right)))
  {
    hide Trim, Lower;
    FindAt(left, ':', right);
    var line := left + [':'] + right;
    assert line[..|left|] == left && line[|left|+1..] == right;
  }

  lemma FieldOfHeaderLine(name: string, value: string)
    requires NormalName(name) && NormalValue(value)
    ensures Trim(HeaderLine(name, value)) != ""
    ensures FieldOf(Trim(HeaderLine(name, value))) == Some((name, value))
  {
    hide Trim, Lower, FieldOf, HeaderLine;
    TrimHeaderLine(name, value);
    TrimmedStays(name);
    TrimmedStays(value);
    TrimAfterSpace(value);
    CoreText(name, value);
    FieldAt(name, if value == "" then "" else " " + value);
  }

  lemma FieldsOfHeaderLine(name: string, value: string, rest: string)
    requires NormalName(name) && NormalValue(value)
    ensures Fields(HeaderLine(name, value) + rest) == [(name, value)] + Fields(rest)
  {
    hide Trim, FieldOf, Fields, HeaderLine, Line;
    HeaderLineIsLine(name, value, rest);
    FieldOfHeaderLine(name, value);
    FieldsStep(HeaderLine(name, value) + rest);
  }

  lemma FieldsOfBlank(tail: string)
    ensures Fields("\r\n" + tail) == []
  {
    assert "\r\n" + tail == "\r" + "\n" + tail;
    LineOf("\r", tail);
    assert "\r" + "\n" == "\r\n";
    TrimBlank("\r\n");
    hide Line, Trim, Fields;
    FieldsStep("\r\n" + tail);
  }

  lemma {:induction false} RenderedFields(headers: Headers, order: seq<string>, tail: string)
    requires NormalHeaders(headers) && forall n :: n in order ==> n in headers
    ensures Fields(RenderHeaders(headers, order) + ("\r\n" + tail)) == Written(headers, order)
    decreases |order|
  {
    hide Fields, HeaderLine, NormalName, NormalValue;
    if order == [] {
      assert "" + ("\r\n" + tail) == "\r\n" + tail;
      FieldsOfBlank(tail);
    } else {
      var name, rest := order[0], order[1..];
      assert name in order;
      assert forall n :: n in rest ==> n in order;
      var after := RenderHeaders(headers, rest) + ("\r\n" + tail);
      RenderedFields(headers, rest, tail);
      if Forwarded(name) {
        FieldsOfHeaderLine(name, headers[name], after);
        assert RenderHeaders(headers, order) + ("\r\n" + tail) == HeaderLine(name, headers[name]) + after;
      } else {
        assert "" + RenderHeaders(headers, rest) == RenderHeaders(headers, rest);
        assert [] + Written(headers, rest) == Written(headers, rest);
      }
    }
  }

  lemma ForwardedFields(r: Request, order: seq<string>, body: string)
    requires Normal(r) && forall n :: n in order ==> n in r.headers
    ensures Fields(AfterFirstLine(Render(r, order) + body)) == Written(r.headers, order)
  {
    hide Fields, RequestLine, RenderHeaders, NormalHeaders, Line, Render;
    var rest := RenderHeaders(r.headers, order) + ("\r\n" + body);
    RenderSplits(r, order, body);
    ReadRequestLine(r, rest);
    assert (RequestLine(r) + rest)[|RequestLine(r)|..] == rest;
    RenderedFields(r.headers, order, body);
  }

  lemma {:induction false} ForwardCounts(fields: seq<Field>, f: Field)
    ensures multiset(ToForward(fields))[f] == if Forwarded(f.0) then multiset(fields)[f] else 0
  {
    if fields != [] {
      ForwardCounts(fields[1..], f);
      assert fields == [fields[0]] + fields[1..];
    }
  }

  lemma {:induction false} WrittenCounts(headers: Headers, order: seq<string>, f: Field)
    requires forall n :: n in order ==> n in headers
    requires forall i, j :: 0 <= i < j < |order| ==> order[i] != order[j]
    ensures multiset(Written(headers, order))[f] == if f.0 in order && Forwarded(f.0) then Share(headers, f) else 0
    decreases |order|
  {
    if order != [] {
      var name, rest := order[0], order[1..];
      assert name in order && order == [name] + rest;
      assert forall n :: n in rest ==> n in order;
      assert name !in rest;
      WrittenCounts(headers, rest, f);
    }
  }

  lemma OccursTwice<T>(s: seq<T>, i: nat, j: nat)
    requires i < j < |s| && s[i] == s[j]
    ensures multiset(s)[s[i]] >= 2
  {
    assert s == s[..j] + s[j..];
    assert s[i] == s[..j][i] && s[j] == s[j..][0];
    assert s[i] in multiset(s[..j]) && s[i] in multiset(s[j..]);
  }

  lemma {:induction false} OccursOnce<T>(s: seq<T>, x: T)
    requires forall i, j :: 0 <= i < j < |s| && s[i] == x ==> s[j] != x
    ensures multiset(s)[x] == if x in s then 1 else 0
  {
    if s != [] {
      assert s == [s[0]] + s[1..];
      OccursOnce(s[1..], x);
    }
  }

  // How often the map can give a field back: once, with the value it holds.
  function Share(headers: Headers, f: Field): nat {
    if f.0 in headers && headers[f.0] == f.1 then 1 else 0
  }

  // Fields with distinct names are entered once each, and a name that is entered has its
  // field in the list.
  lemma DistinctAreEntered(fields: seq<Field>, f: Field)
    requires DistinctNames(fields) && Forwarded(f.0)
    ensures multiset(fields)[f] == Share(Entered(map[], fields), f)
  {
    hide Entered;
    EnteredIsLast(map[], fields, f.0);
    OccursOnce(fields, f);
    if HasName(fields, f.0) {
      var k :| 0 <= k < |fields| && fields[k].0 == f.0;
      assert LastNamed(fields, k, f.0);
      assert f in fields <==> fields[k] == f;
    }
  }

  lemma RepeatedIsLost(fields: seq<Field>, i: nat, j: nat)
    requires i < j < |fields| && fields[i].0 == fields[j].0
    ensures exists f: Field :: f.0 == fields[i].0 && multiset(fields)[f] > Share(Entered(map[], fields), f)
  {
    var h := Entered(map[], fields);
    var a, b := fields[i], fields[j];
    assert a in multiset(fields) && b in multiset(fields);
    if a == b {
      OccursTwice(fields, i, j);
    } else {
      assert a.1 != b.1;
    }
  }

  // For every accepted request, in any order of the map: the field lines that the next
  // hop reads are those that were sent, less the two proxy headers and each as often as
  // it was sent, if and only if no forwarded name was sent twice.
  lemma ForwardingKeepsFieldsExactlyWhen(input: string, limit: nat, order: seq<string>, body: string)
    ensures match ReadLimited(input, limit)
            case Err(_) => true
            case Ok(Parsed(r, _)) =>
              IsOrder(r.headers, order) ==>
                var sent := Fields(AfterFirstLine(input));
                multiset(Fields(AfterFirstLine(Render(r, order) + body))) == multiset(ToForward(sent))
                <==> DistinctNames(sent)
  {
    hide ReadLimited, ReadUnlimited, Normal, Render, Fields, DistinctNames, Entered;
    match ReadLimited(input, limit)
    case Err(_) =>
    case Ok(Parsed(r, _)) =>
      if IsOrder(r.headers, order) {
        LimitOnlyRejects(input, limit);
        ParsedIsNormal(input);
        ForwardedFields(r, order, body);
        ParsedIsEntered(input);
        KeepsExactlyWhen(Fields(AfterFirstLine(input)), r.headers, order);
      }
  }

  lemma ParsedIsEntered(input: string)
    requires ReadUnlimited(input).Ok?
    ensures ReadUnlimited(input).value.request.headers == Entered(map[], Fields(AfterFirstLine(input)))
  {
    hide Line, Trim, Words, Fields, Entered, ReadHeaders;
    HeadersAreEntered(AfterFirstLine(input), map[]);
  }

  lemma KeepsExactlyWhen(fields: seq<Field>, headers: Headers, order: seq<string>)
    requires headers == Entered(map[], fields) && IsOrder(headers, order)
    ensures multiset(Written(headers, order)) == multiset(ToForward(fields)) <==> DistinctNames(fields)
  {
    hide Entered, Written, ToForward;
    var w, t := multiset(Written(headers, order)), multiset(ToForward(fields));
    forall f: Field
      ensures w[f] == (if Forwarded(f.0) then Share(headers, f) else 0)
      ensures t[f] == (if Forwarded(f.0) then multiset(fields)[f] else 0)
    {
      WrittenCounts(headers, order, f);
      ForwardCounts(fields, f);
    }
    if DistinctNames(fields) {
      forall f: Field ensures w[f] == t[f] {
        if Forwarded(f.0) {
          DistinctAreEntered(fields, f);
        }
      }
    } else {
      var i, j :| 0 <= i < j < |fields| && Forwarded(fields[i].0) && fields[i].0 == fields[j].0;
      RepeatedIsLost(fields, i, j);
    }
  }
}
