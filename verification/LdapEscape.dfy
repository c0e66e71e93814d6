/**
 The LDAP filter escape of `src/auth/ldap.rs`: five sequential replacements, against one
 simultaneous escape and the unescaping of RFC 4515 section 3.
 */
module LdapEscape {
  import opened Text
  import opened Wrappers

  // `str::replace` for a one-character pattern.
  function Replace(s: string, c: char, sub: string): string {
    if s == "" then "" else (if s[0] == c then sub else [s[0]]) + Replace(s[1..], c, sub)
  }

  function EscapeFilterValue(value: string): string {
    var v1 := Replace(value, '\\', "\\5c");
    var v2 := Replace(v1, '*', "\\2a");
    var v3 := Replace(v2, '(', "\\28");
    var v4 := Replace(v3, ')', "\\29");
    Replace(v4, '\0', "\\00")
  }

  // What one character becomes.
  function EscapeChar(c: char): string {
    if c == '\\' then "\\5c"
    else if c == '*' then "\\2a"
    else if c == '(' then "\\28"
    else if c == ')' then "\\29"
    else if c == '\0' then "\\00"
    else [c]
  }

  function Simultaneous(s: string): string {
    if s == "" then "" else EscapeChar(s[0]) + Simultaneous(s[1..])
  }

  lemma ReplaceCons(x: char, s: string, c: char, sub: string)
    ensures Replace([x] + s, c, sub) == (if x == c then sub else [x]) + Replace(s, c, sub)
  {
    assert ([x] + s)[1..] == s;
  }

  lemma PeelOff(s: string, t: string)
    requires s != ""
    ensures s == [s[0]] + s[1..] && s + t == [s[0]] + (s[1..] + t)
  {
  }

  lemma {:induction false} ReplaceAppends(s: string, t: string, c: char, sub: string)
    ensures Replace(s + t, c, sub) == Replace(s, c, sub) + Replace(t, c, sub)
  {
    if s == "" {
      assert s + t == t;
      assert Replace("", c, sub) == "";
    } else {
      hide Replace;
      ReplaceAppends(s[1..], t, c, sub);
      ReplaceCons(s[0], s[1..], c, sub);
      ReplaceCons(s[0], s[1..] + t, c, sub);
      PeelOff(s, t);
      Reassociate(if s[0] == c then sub else [s[0]], Replace(s[1..], c, sub), Replace(t, c, sub));
    }
  }

  lemma {:induction false} ReplaceAbsent(s: string, c: char, sub: string)
    requires c !in s
    ensures Replace(s, c, sub) == s
  {
    if s != "" {
      ReplaceAbsent(s[1..], c, sub);
    }
  }

  lemma ReplaceOne(x: char, c: char, sub: string)
    ensures Replace([x], c, sub) == if x == c then sub else [x]
  {
    assert [x][1..] == "";
  }

  // The last passes leave alone what holds none of their characters.
  lemma LastTwoSkip(v: string)
    requires ')' !in v && '\0' !in v
    ensures Replace(Replace(v, ')', "\\29"), '\0', "\\00") == v
  {
    ReplaceAbsent(v, ')', "\\29");
    ReplaceAbsent(v, '\0', "\\00");
  }

  lemma LastFourSkip(v: string)
    requires '*' !in v && '(' !in v && ')' !in v && '\0' !in v
    ensures Replace(Replace(Replace(Replace(v, '*', "\\2a"), '(', "\\28"), ')', "\\29"), '\0', "\\00") == v
  {
    ReplaceAbsent(v, '*', "\\2a");
    ReplaceAbsent(v, '(', "\\28");
    LastTwoSkip(v);
  }

  lemma EscapeEarly(x: char)
    requires x == '\\' || x == '*'
    ensures EscapeFilterValue([x]) == EscapeChar(x)
  {
    hide Replace;
    ReplaceOne(x, '\\', "\\5c");
    if x == '\\' {
      LastFourSkip("\\5c");
    } else {
      ReplaceOne(x, '*', "\\2a");
      ReplaceAbsent("\\2a", '(', "\\28");
      LastTwoSkip("\\2a");
    }
  }

  lemma EscapeLate(x: char)
    requires x != '\\' && x != '*'
    ensures EscapeFilterValue([x]) == EscapeChar(x)
  {
    hide Replace;
    ReplaceOne(x, '\\', "\\5c");
    ReplaceOne(x, '*', "\\2a");
    ReplaceOne(x, '(', "\\28");
    if x == '(' {
      LastTwoSkip("\\28");
    } else {
      ReplaceOne(x, ')', "\\29");
      if x == ')' {
        ReplaceAbsent("\\29", '\0', "\\00");
      } else {
        ReplaceOne(x, '\0', "\\00");
      }
    }
  }

  // No later replacement touches what an earlier one wrote.
  lemma EscapeOne(x: char)
    ensures EscapeFilterValue([x]) == EscapeChar(x)
  {
    if x == '\\' || x == '*' {
      EscapeEarly(x);
    } else {
      EscapeLate(x);
    }
  }

  lemma EscapeAppends(s: string, t: string)
    ensures EscapeFilterValue(s + t) == EscapeFilterValue(s) + EscapeFilterValue(t)
  {
    hide Replace;
    ReplaceAppends(s, t, '\\', "\\5c");
    var s1, t1 := Replace(s, '\\', "\\5c"), Replace(t, '\\', "\\5c");
    ReplaceAppends(s1, t1, '*', "\\2a");
    var s2, t2 := Replace(s1, '*', "\\2a"), Replace(t1, '*', "\\2a");
    ReplaceAppends(s2, t2, '(', "\\28");
    var s3, t3 := Replace(s2, '(', "\\28"), Replace(t2, '(', "\\28");
    ReplaceAppends(s3, t3, ')', "\\29");
    ReplaceAppends(Replace(s3, ')', "\\29"), Replace(t3, ')', "\\29"), '\0', "\\00");
  }

  // The five passes in their order are one simultaneous escape.
  lemma {:induction false} SequentialIsSimultaneous(s: string)
    ensures EscapeFilterValue(s) == Simultaneous(s)
  {
    if s != "" {
      SequentialIsSimultaneous(s[1..]);
      EscapeOne(s[0]);
      EscapeAppends([s[0]], s[1..]);
      assert [s[0]] + s[1..] == s;
    }
  }

  /// Unescaping

  function HexValue(c: char): Option<nat> {
    if '0' <= c <= '9' then Some(c as nat - '0' as nat)
    else if 'a' <= c <= 'f' then Some(c as nat - 'a' as nat + 10)
    else if 'A' <= c <= 'F' then Some(c as nat - 'A' as nat + 10)
    else None
  }

  // A backslash and two hexadecimal digits stand for one octet; any other special is malformed.
  function Unescape(s: string): Option<string> {
    if s == "" then Some("")
    else if s[0] == '\\' then
      if |s| < 3 || HexValue(s[1]).None? || HexValue(s[2]).None? then None
      else
        match Unescape(s[3..])
        case None => None
        case Some(rest) => Some([(HexValue(s[1]).value * 16 + HexValue(s[2]).value) as char] + rest)
    else if s[0] in "*()\0" then None
    else
      match Unescape(s[1..])
      case None => None
      case Some(rest) => Some([s[0]] + rest)
  }

  lemma UnescapeCode(x: char, y: char, rest: string)
    requires HexValue(x).Some? && HexValue(y).Some? && Unescape(rest).Some?
    ensures Unescape(['\\', x, y] + rest)
            == Some([(HexValue(x).value * 16 + HexValue(y).value) as char] + Unescape(rest).value)
  {
    assert (['\\', x, y] + rest)[3..] == rest;
  }

  lemma UnescapeChar(c: char, rest: string)
    requires Unescape(rest).Some?
    ensures Unescape(EscapeChar(c) + rest) == Some([c] + Unescape(rest).value)
  {
    if c == '\\' || c == '*' || c == '(' || c == ')' || c == '\0' {
      hide Unescape;
      UnescapeCode('5', 'c', rest);
      UnescapeCode('2', 'a', rest);
      UnescapeCode('2', '8', rest);
      UnescapeCode('2', '9', rest);
      UnescapeCode('0', '0', rest);
    } else {
      assert ([c] + rest)[1..] == rest;
    }
  }

  // The unescaping of a filter value gives the value back, for every string.
  lemma {:induction false} EscapeRoundTrip(s: string)
    ensures Unescape(EscapeFilterValue(s)) == Some(s)
  {
    SequentialIsSimultaneous(s);
    if s != "" {
      EscapeRoundTrip(s[1..]);
      SequentialIsSimultaneous(s[1..]);
      UnescapeChar(s[0], Simultaneous(s[1..]));
      assert [s[0]] + s[1..] == s;
    }
  }

  lemma EscapeIsInjective(s: string, t: string)
    requires EscapeFilterValue(s) == EscapeFilterValue(t)
    ensures s == t
  {
    EscapeRoundTrip(s);
    EscapeRoundTrip(t);
  }

  /// The shape of the output

  const CODES: set<string> := {"5c", "2a", "28", "29", "00"}

  // No bare special anywhere, and every backslash begins one of the five codes.
  predicate Inert(s: string) {
    forall i :: 0 <= i < |s| ==>
      && s[i] !in "*()\0"
      && (s[i] == '\\' ==> i + 2 < |s| && s[i+1..i+3] in CODES)
  }

  lemma InertAppends(s: string, t: string)
    requires Inert(s) && Inert(t)
    ensures Inert(s + t)
  {
    var u := s + t;
    forall i | 0 <= i < |u|
      ensures u[i] !in "*()\0" && (u[i] == '\\' ==> i + 2 < |u| && u[i+1..i+3] in CODES)
    {
      if i < |s| {
        assert u[i] == s[i];
        if s[i] == '\\' { assert u[i+1..i+3] == s[i+1..i+3]; }
      } else {
        assert u[i] == t[i-|s|];
        if u[i] == '\\' { assert u[i+1..i+3] == t[i-|s|+1..i-|s|+3]; }
      }
    }
  }

  lemma {:induction false} EscapedIsInert(s: string)
    ensures Inert(EscapeFilterValue(s))
  {
    SequentialIsSimultaneous(s);
    if s != "" {
      EscapedIsInert(s[1..]);
      SequentialIsSimultaneous(s[1..]);
      var e := EscapeChar(s[0]);
      assert Inert(e) by {
        assert |e| == 3 ==> e[1..3] == [e[1], e[2]];
        assert s[0] == '\\' ==> e[1..3] == "5c";
        assert s[0] == '*' ==> e[1..3] == "2a";
        assert s[0] == '(' ==> e[1..3] == "28";
        assert s[0] == ')' ==> e[1..3] == "29";
        assert s[0] == '\0' ==> e[1..3] == "00";
      }
      InertAppends(e, Simultaneous(s[1..]));
    }
  }
}
