/**
 The bounded request reader of `src/http_proxy.rs`, over a byte stream of ASCII text.
 */
module HttpReader {
  import opened Wrappers
  import opened Text
  import opened TextLemmas

  type Headers = map<string, string>

  datatype Request = Request(verb: string, uri: string, version: string, headers: Headers)

  datatype ReadError = EmptyRequestLine | SizeExceeded | BadRequestLine

  // A request and how many bytes were taken to read it.
  datatype Parsed = Parsed(request: Request, used: nat)

  // One header line: the text before the first colon, trimmed and in lower case, and
  // the text after it, trimmed. A line without a colon is ignored.
  function Insert(headers: Headers, line: string): Headers {
    match Find(line, ':')
    case None => headers
    case Some(i) => headers[Lower(Trim(line[..i])) := Trim(line[i+1..])]
  }

  /// The reader without a limit

  function ReadHeaders(input: string, headers: Headers): (Headers, nat)
    decreases |input|
  {
    var line := Line(input);
    if line == "" then (headers, 0)
    else if Trim(line) == "" then (headers, |line|)
    else
      var (all, used) := ReadHeaders(input[|line|..], Insert(headers, Trim(line)));
      (all, |line| + used)
  }

  function ReadUnlimited(input: string): Result<Parsed, ReadError> {
    var line := Line(input);
    var parts := Words(Trim(line));
    if line == "" then Err(EmptyRequestLine)
    else if |parts| != 3 then Err(BadRequestLine)
    else
      var (headers, used) := ReadHeaders(input[|line|..], map[]);
      Ok(Parsed(Request(parts[0], parts[1], parts[2], headers), |line| + used))
  }

  /// The reader under a limit

  // A line read through a reader that ends after `limit` bytes.
  function LimitedLine(input: string, limit: nat): (r: string)
    ensures |r| <= limit && |r| <= |input|
  {
    Line(if limit < |input| then input[..limit] else input)
  }

  function ReadHeadersLimited(input: string, limit: nat, headers: Headers): Result<(Headers, nat), ReadError>
    decreases |input|
  {
    var line := LimitedLine(input, limit);
    if |line| == limit then Err(SizeExceeded)
    else if line == "" then Ok((headers, 0))
    else if Trim(line) == "" then Ok((headers, |line|))
    else
      match ReadHeadersLimited(input[|line|..], limit - |line|, Insert(headers, Trim(line)))
      case Err(e) => Err(e)
      case Ok((all, used)) => Ok((all, |line| + used))
  }

  function ReadLimited(input: string, limit: nat): Result<Parsed, ReadError> {
    var line := LimitedLine(input, limit);
    var parts := Words(Trim(line));
    if line == "" then Err(EmptyRequestLine)
    else if |line| == limit then Err(SizeExceeded)
    else if |parts| != 3 then Err(BadRequestLine)
    else
      match ReadHeadersLimited(input[|line|..], limit - |line|, map[])
      case Err(e) => Err(e)
      case Ok((headers, used)) => Ok(Parsed(Request(parts[0], parts[1], parts[2], headers), |line| + used))
  }

  // What reading a line takes from the front of `input`: nothing after a line feed, and
  // not less than a whole line unless the input or the limit ends it.
  predicate TakesLine(input: string, limit: nat, line: string) {
    && line <= input && |line| <= limit
    && (line != "" ==> '\n' !in line[..|line|-1])
    && (|line| == |input| || |line| == limit || (line != "" && line[|line|-1] == '\n'))
  }

  // There is exactly one such line.
  lemma LineIsLimitedLine(input: string, limit: nat, line: string)
    ensures TakesLine(input, limit, line) <==> line == LimitedLine(input, limit)
  {
    var cut := if limit < |input| then input[..limit] else input;
    LineShape(cut);
    LineIsPrefix(cut);
    if TakesLine(input, limit, line) {
      assert line == cut[..|line|];
      if line != "" && line[|line|-1] == '\n' {
        assert cut == line[..|line|-1] + "\n" + cut[|line|..];
        LineOf(line[..|line|-1], cut[|line|..]);
      } else {
        assert '\n' !in line;
        FindNone(cut, '\n');
      }
    }
  }

  class Stream {
    var rest: string

    constructor (input: string)
      ensures rest == input
    {
      rest := input;
    }

    // `read_line` on the stream seen through `take(limit)`.
    method ReadLine(limit: nat) returns (line: string, left: nat)
      modifies this
      ensures TakesLine(old(rest), limit, line) && old(rest) == line + rest
      ensures left == limit - |line|
    {
      line := LimitedLine(rest, limit);
      LineIsLimitedLine(rest, limit, line);
      rest := rest[|line|..];
      left := limit - |line|;
    }
  }

  // One step of the header reader, on the line it takes.
  lemma LimitedStep(input: string, limit: nat, line: string, headers: Headers)
    requires TakesLine(input, limit, line)
    ensures ReadHeadersLimited(input, limit, headers) ==
              if |line| == limit then Err(SizeExceeded)
              else if line == "" then Ok((headers, 0))
              else if Trim(line) == "" then Ok((headers, |line|))
              else
                match ReadHeadersLimited(input[|line|..], limit - |line|, Insert(headers, Trim(line)))
                case Err(e) => Err(e)
                case Ok((all, used)) => Ok((all, |line| + used))
  {
    hide LimitedLine, TakesLine, Trim, Insert;
    LineIsLimitedLine(input, limit, line);
  }

  // `handle_request`
  method HandleRequest(stream: Stream, maxSize: nat) returns (r: Result<Request, ReadError>)
    modifies stream
    ensures match ReadLimited(old(stream.rest), maxSize)
            case Err(e) => r == Err(e)
            case Ok(p) =>
              r == Ok(p.request) && p.used <= |old(stream.rest)| && stream.rest == old(stream.rest)[p.used..]
  {
    hide Line, LimitedLine, TakesLine, Trim, Insert, Words, ReadHeadersLimited;
    ghost var input := stream.rest;
    var line, limit := stream.ReadLine(maxSize);
    LineIsLimitedLine(input, maxSize, line);
    assert stream.rest == input[|line|..];
    if |line| == 0 {
      return Err(EmptyRequestLine);
    }
    if limit == 0 {
      return Err(SizeExceeded);
    }
    var parts := Words(Trim(line));
    if |parts| != 3 {
      return Err(BadRequestLine);
    }
    var headers: Headers := map[];
    ghost var used: nat := |line|;
    ghost var whole := ReadHeadersLimited(stream.rest, limit, headers);
    while true
      invariant used <= |input| && stream.rest == input[used..]
      invariant match ReadHeadersLimited(stream.rest, limit, headers)
                case Err(e) => whole == Err(e)
                case Ok((all, n)) => whole == Ok((all, used - |line| + n))
      decreases |stream.rest|
    {
      var next;
      ghost var before := stream.rest;
      ghost var room := limit;
      next, limit := stream.ReadLine(limit);
      LimitedStep(before, room, next, headers);
      assert stream.rest == before[|next|..];
      if limit == 0 {
        return Err(SizeExceeded);
      }
      used := used + |next|;
      assert stream.rest == input[used..];
      if |next| == 0 {
        break;
      }
      var headerLine := Trim(next);
      if headerLine == "" {
        break;
      }
      headers := Insert(headers, headerLine);
    }
    r := Ok(Request(parts[0], parts[1], parts[2], headers));
  }

  /// The limit only ever rejects

  lemma LimitedLineCases(input: string, limit: nat)
    ensures |Line(input)| < limit ==> LimitedLine(input, limit) == Line(input)
    ensures |Line(input)| >= limit ==> |LimitedLine(input, limit)| == limit
  {
    if limit < |input| {
      var cut := input[..limit];
      match Find(input, '\n') {
        case None =>
          FindNone(cut, '\n');
        case Some(i) =>
          if i < limit {
            assert input == input[..i] + "\n" + input[i+1..];
            assert cut == input[..i] + "\n" + input[i+1..limit];
            FindAt(input[..i], '\n', input[i+1..limit]);
            assert cut[..i+1] == input[..i+1];
          } else {
            assert forall k :: 0 <= k < limit ==> cut[k] == input[..i][k];
            FindNone(cut, '\n');
          }
      }
    }
  }

  // One step of both header readers, on a line that goes on.
  lemma HeadersStep(input: string, limit: nat, headers: Headers)
    requires Line(input) != "" && Trim(Line(input)) != "" && |Line(input)| < limit
    ensures var line := Line(input);
            var (all, used) := ReadHeaders(input[|line|..], Insert(headers, Trim(line)));
            && ReadHeaders(input, headers) == (all, |line| + used)
            && ReadHeadersLimited(input, limit, headers) ==
                 match ReadHeadersLimited(input[|line|..], limit - |line|, Insert(headers, Trim(line)))
                 case Err(e) => Err(e)
                 case Ok((most, n)) => Ok((most, |line| + n))
  {
    hide Line, LimitedLine, Trim, Insert;
    LimitedLineCases(input, limit);
  }

  lemma HeadersEnd(input: string, limit: nat, headers: Headers)
    requires Line(input) == "" || Trim(Line(input)) == "" || |Line(input)| >= limit
    ensures var (all, used) := ReadHeaders(input, headers);
            var r := ReadHeadersLimited(input, limit, headers);
            if used < limit then r == Ok((all, used)) else r == Err(SizeExceeded)
  {
    hide Line, LimitedLine, Trim, Insert;
    LimitedLineCases(input, limit);
  }

  lemma {:induction false} HeadersUnderLimit(input: string, limit: nat, headers: Headers)
    ensures var (all, used) := ReadHeaders(input, headers);
            var r := ReadHeadersLimited(input, limit, headers);
            if used < limit then r == Ok((all, used)) else r == Err(SizeExceeded)
    decreases |input|
  {
    hide Line, LimitedLine, Trim, Insert;
    var line := Line(input);
    if line != "" && Trim(line) != "" && |line| < limit {
      HeadersUnderLimit(input[|line|..], limit - |line|, Insert(headers, Trim(line)));
      HeadersStep(input, limit, headers);
    } else {
      HeadersEnd(input, limit, headers);
    }
  }

  // A request accepted without a limit after `used` bytes is accepted, unchanged, under
  // exactly the limits above `used`; under every other limit it is an error. Nothing
  // else is ever accepted under a limit.
  lemma LimitOnlyRejects(input: string, limit: nat)
    ensures match ReadUnlimited(input)
            case Ok(p) => if p.used < limit then ReadLimited(input, limit) == Ok(p) else ReadLimited(input, limit).Err?
            case Err(_) => ReadLimited(input, limit).Err?
  {
    hide Line, LimitedLine, Trim, Words;
    LimitedLineCases(input, limit);
    var line := Line(input);
    if line != "" && |line| < limit {
      HeadersUnderLimit(input[|line|..], limit - |line|, map[]);
    }
  }

  predicate LineStart(input: string, k: nat) {
    k == 0 || (k <= |input| && input[k-1] == '\n')
  }

  // No line that starts before position `n` is blank.
  predicate NoBlankBefore(input: string, n: nat)
    requires n <= |input|
  {
    forall k :: 0 <= k < n && LineStart(input, k) ==> Trim(Line(input[k..])) != ""
  }

  predicate FirstBlankLine(input: string, start: nat, used: nat)
    requires used <= |input|
  {
    && start < used && LineStart(input, start) && NoBlankBefore(input, start)
    && Line(input[start..]) == input[start..used] && Trim(input[start..used]) == ""
  }

  // Where a reader that took the first `used` bytes of `input` stopped: just after the
  // first blank line, or, when there is none, at the end of the stream.
  predicate StopsWell(input: string, used: nat) {
    && used <= |input|
    && ((used == |input| && NoBlankBefore(input, used))
        || exists start :: 0 <= start < used && FirstBlankLine(input, start, used))
  }

  lemma Reslice(input: string, n: nat, a: nat, b: nat)
    requires n <= |input| && a <= b <= |input[n..]|
    ensures input[n..][a..] == input[n+a..] && input[n..][a..b] == input[n+a..n+b]
  {
  }

  // The line starts after the first line are those of what follows it.
  lemma LaterStarts(input: string, k: nat)
    requires k < |input| && LineStart(input, k)
    ensures var n := |Line(input)|;
            k == 0 || (n <= k && LineStart(input[n..], k - n) && input[k..] == input[n..][k-n..])
  {
    var line := Line(input);
    LineIsPrefix(input);
    LineShape(input);
    assert forall i :: 0 <= i < |line| - 1 ==> line[..|line|-1][i] == line[i] == input[i] != '\n';
    if k > |line| {
      assert input[|line|..][k-|line|-1] == input[k-1];
    }
  }

  lemma NoBlankLater(input: string, m: nat)
    requires input != "" && Trim(Line(input)) != "" && |Line(input)| + m <= |input|
    requires NoBlankBefore(input[|Line(input)|..], m)
    ensures NoBlankBefore(input, |Line(input)| + m)
  {
    hide Line, Trim, LineStart;
    var n := |Line(input)|;
    forall k | 0 <= k < n + m && LineStart(input, k) ensures Trim(Line(input[k..])) != "" {
      LaterStarts(input, k);
      assert input[0..] == input;
    }
  }

  lemma StopsLater(input: string, used: nat)
    requires input != "" && Trim(Line(input)) != "" && StopsWell(input[|Line(input)|..], used)
    ensures StopsWell(input, |Line(input)| + used)
  {
    var n := |Line(input)|;
    var later := input[n..];
    if used == |later| && NoBlankBefore(later, used) {
      NoBlankLater(input, used);
    } else {
      var start :| FirstBlankLine(later, start, used);
      FirstBlankLater(input, start, used);
    }
  }

  lemma FirstBlankLater(input: string, start: nat, used: nat)
    requires input != "" && Trim(Line(input)) != "" && |Line(input)| + used <= |input|
    requires FirstBlankLine(input[|Line(input)|..], start, used)
    ensures FirstBlankLine(input, |Line(input)| + start, |Line(input)| + used)
  {
    hide Line, Trim, LineStart, NoBlankBefore;
    var n := |Line(input)|;
    NoBlankLater(input, start);
    Reslice(input, n, start, used);
    StartsLater(input, start);
  }

  lemma StartsLater(input: string, start: nat)
    requires |Line(input)| + start < |input| && LineStart(input[|Line(input)|..], start)
    ensures LineStart(input, |Line(input)| + start)
  {
    var n := |Line(input)|;
    LineShape(input);
    LineIsPrefix(input);
    if start > 0 {
      assert input[n..][start-1] == input[n+start-1];
    }
  }

  lemma {:induction false} HeadersStopWell(input: string, headers: Headers)
    ensures StopsWell(input, ReadHeaders(input, headers).1)
    decreases |input|
  {
    hide Line, Trim, Insert, FirstBlankLine, StopsWell;
    var line := Line(input);
    if line == "" {
      EmptyStopsWell();
    } else if Trim(line) == "" {
      BlankStopsWell(input);
    } else {
      HeadersStopWell(input[|line|..], Insert(headers, Trim(line)));
      StopsLater(input, ReadHeaders(input[|line|..], Insert(headers, Trim(line))).1);
    }
  }

  lemma EmptyStopsWell()
    ensures StopsWell("", 0)
  {
  }

  lemma BlankStopsWell(input: string)
    requires input != "" && Trim(Line(input)) == ""
    ensures StopsWell(input, |Line(input)|)
  {
    LineIsPrefix(input);
    assert input[0..] == input && input[0..|Line(input)|] == Line(input);
    assert FirstBlankLine(input, 0, |Line(input)|);
  }

  lemma UnlimitedStopsWell(input: string)
    requires ReadUnlimited(input).Ok?
    ensures StopsWell(input, ReadUnlimited(input).value.used)
  {
    hide Line, Trim, StopsWell, ReadHeaders;
    var line := Line(input);
    assert Trim(line) != "" by { assert Words("") == []; }
    HeadersStopWell(input[|line|..], map[]);
    StopsLater(input, ReadHeaders(input[|line|..], map[]).1);
  }

  // An accepted request takes fewer bytes than the limit and ends just after its first
  // blank line or, if it has none, at the end of the stream.
  lemma AcceptedStopsWell(input: string, limit: nat)
    requires ReadLimited(input, limit).Ok?
    ensures var used := ReadLimited(input, limit).value.used; used < limit && StopsWell(input, used)
  {
    hide StopsWell;
    LimitOnlyRejects(input, limit);
    UnlimitedStopsWell(input);
  }
}
