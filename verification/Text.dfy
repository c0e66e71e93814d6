/**
 The string operations of the Rust standard library that the source uses, over ASCII text.
 */
module Text {
  import opened Wrappers

  function LowerChar(c: char): (r: char)
    ensures r == ' ' <==> c == ' '
  {
    if 'A' <= c <= 'Z' then (c as int + 32) as char else c
  }

  function Lower(s: string): (r: string)
    ensures |r| == |s|
    ensures forall i :: 0 <= i < |s| ==> r[i] == LowerChar(s[i])
  {
    seq(|s|, i requires 0 <= i < |s| => LowerChar(s[i]))
  }

  lemma LowerAlphabet(s: string)
    ensures Lower("ABCDEFGHIJKLMNOPQRSTUVWXYZ") == "abcdefghijklmnopqrstuvwxyz"
    ensures (forall i :: 0 <= i < |s| ==> s[i] !in "ABCDEFGHIJKLMNOPQRSTUVWXYZ") ==> Lower(s) == s
  {
    var upper, lower := "ABCDEFGHIJKLMNOPQRSTUVWXYZ", "abcdefghijklmnopqrstuvwxyz";
    forall i | 0 <= i < 26 ensures upper[i] == 'A' + i as char && lower[i] == 'a' + i as char {
    }
    forall c | 'A' <= c <= 'Z' ensures c in upper {
      assert upper[c as int - 'A' as int] == c;
    }
  }

  predicate IsSpace(c: char) {
    '\t' <= c <= '\r' || c == ' '
  }

  // The first position from `i` on that does not hold white space.
  function AfterSpace(s: string, i: nat): (r: nat)
    requires i <= |s|
    ensures i <= r <= |s|
    ensures forall k :: i <= k < r ==> IsSpace(s[k])
    ensures r < |s| ==> !IsSpace(s[r])
    decreases |s| - i
  {
    if i < |s| && IsSpace(s[i]) then AfterSpace(s, i + 1) else i
  }

  // The least length up to `n` after which `s[..n]` holds only white space.
  function BeforeSpace(s: string, n: nat): (r: nat)
    requires n <= |s|
    ensures r <= n
    ensures forall k :: r <= k < n ==> IsSpace(s[k])
    ensures r > 0 ==> !IsSpace(s[r-1])
  {
    if n > 0 && IsSpace(s[n-1]) then BeforeSpace(s, n - 1) else n
  }

  function TrimStart(s: string): string {
    s[AfterSpace(s, 0)..]
  }

  function TrimEnd(s: string): string {
    s[..BeforeSpace(s, |s|)]
  }

  function Trim(s: string): string {
    TrimEnd(TrimStart(s))
  }

  function TrimDots(s: string): string {
    if s != "" && s[0] == '.' then TrimDots(s[1..]) else s
  }

  function FindFrom(s: string, c: char, i: nat): (r: Option<nat>)
    requires i <= |s|
    ensures r.None? ==> forall k :: i <= k < |s| ==> s[k] != c
    ensures r.Some? ==> i <= r.value < |s| && s[r.value] == c && forall k :: i <= k < r.value ==> s[k] != c
    decreases |s| - i
  {
    if i == |s| then None else if s[i] == c then Some(i) else FindFrom(s, c, i + 1)
  }

  function Find(s: string, c: char): (r: Option<nat>)
    ensures r.None? ==> c !in s
    ensures r.Some? ==> r.value < |s| && s[r.value] == c && forall k :: 0 <= k < r.value ==> s[k] != c
  {
    FindFrom(s, c, 0)
  }

  function FindBefore(s: string, c: char, n: nat): (r: Option<nat>)
    requires n <= |s|
    ensures r.None? ==> forall k :: 0 <= k < n ==> s[k] != c
    ensures r.Some? ==> r.value < n && s[r.value] == c && forall k :: r.value < k < n ==> s[k] != c
  {
    if n == 0 then None else if s[n-1] == c then Some(n - 1) else FindBefore(s, c, n - 1)
  }

  function FindLast(s: string, c: char): (r: Option<nat>)
    ensures r.None? ==> c !in s
    ensures r.Some? ==> r.value < |s| && s[r.value] == c && forall k :: r.value < k < |s| ==> s[k] != c
  {
    FindBefore(s, c, |s|)
  }

  predicate EndsWith(s: string, t: string) {
    |t| <= |s| && s[|s|-|t|..] == t
  }

  // `str::split` on one character: never empty.
  function Split(s: string, c: char): (r: seq<string>)
    ensures r != []
  {
    match Find(s, c)
    case None => [s]
    case Some(i) => [s[..i]] + Split(s[i+1..], c)
  }

  lemma FindAt(a: string, c: char, b: string)
    requires c !in a
    ensures Find(a + [c] + b, c) == Some(|a|)
  {
    var s := a + [c] + b;
    assert s[|a|] == c;
    assert forall k :: 0 <= k < |a| ==> s[k] == a[k];
  }

  lemma FindLastAt(a: string, c: char, b: string)
    requires c !in b
    ensures FindLast(a + [c] + b, c) == Some(|a|)
  {
    var s := a + [c] + b;
    assert s[|a|] == c;
    assert forall k :: |a| < k < |s| ==> s[k] == b[k - |a| - 1];
  }

  lemma FindNone(s: string, c: char)
    requires c !in s
    ensures Find(s, c) == None && FindLast(s, c) == None && Split(s, c) == [s]
  {
  }

  lemma SplitAt(a: string, c: char, b: string)
    requires c !in a
    ensures Split(a + [c] + b, c) == [a] + Split(b, c)
  {
    FindAt(a, c, b);
    assert (a + [c] + b)[..|a|] == a && (a + [c] + b)[|a|+1..] == b;
  }

  lemma {:induction false} PartsHoldNoSeparator(s: string, c: char)
    ensures forall k :: 0 <= k < |Split(s, c)| ==> c !in Split(s, c)[k]
    ensures c in s ==> |Split(s, c)| >= 2
    decreases |s|
  {
    match Find(s, c)
    case None =>
    case Some(i) => PartsHoldNoSeparator(s[i+1..], c);
  }

  // The text from `i` to `j` stands between separators or ends, with no separator in it.
  predicate Stands(s: string, c: char, i: int, j: int) {
    0 <= i <= j <= |s| && c !in s[i..j] && (i == 0 || s[i-1] == c) && (j == |s| || s[j] == c)
  }

  ghost predicate IsPieceOf(s: string, c: char, p: string) {
    exists i, j :: Stands(s, c, i, j) && p == s[i..j]
  }

  lemma StandsLater(s: string, c: char, f: nat, i: int, j: int)
    requires f < |s| && s[f] == c && f < i
    ensures Stands(s, c, i, j) <==> Stands(s[f+1..], c, i - f - 1, j - f - 1)
    ensures Stands(s, c, i, j) ==> s[i..j] == s[f+1..][i-f-1..j-f-1]
  {
    var rest := s[f+1..];
    if i <= j <= |s| {
      assert s[i..j] == rest[i-f-1..j-f-1];
      assert i - f - 1 > 0 ==> rest[i-f-2] == s[i-1];
      assert j < |s| ==> rest[j-f-1] == s[j];
    }
  }

  lemma StandsFirst(s: string, c: char, f: nat, i: int, j: int)
    requires f <= |s| && c !in s[..f] && (f == |s| || s[f] == c) && i <= f
    ensures Stands(s, c, i, j) <==> i == 0 && j == f
  {
    assert forall k :: 0 <= k < f ==> s[k] == s[..f][k] != c;
    assert s[0..f] == s[..f];
    if 0 <= i <= j <= |s| {
      assert forall k :: i <= k < j ==> s[k] == s[i..j][k-i];
    }
  }

  // `split` gives exactly the pieces.
  lemma {:induction false} SplitPieces(s: string, c: char, p: string)
    ensures p in Split(s, c) <==> IsPieceOf(s, c, p)
    decreases |s|
  {
    match Find(s, c)
    case None =>
      assert s[..|s|] == s;
      forall i, j ensures Stands(s, c, i, j) <==> i == 0 && j == |s| {
        if i <= |s| {
          StandsFirst(s, c, |s|, i, j);
        }
      }
      assert Stands(s, c, 0, |s|);
    case Some(f) =>
      var rest := s[f+1..];
      assert Split(s, c) == [s[..f]] + Split(rest, c);
      hide Split, Stands;
      SplitPieces(rest, c, p);
      forall i, j
        ensures Stands(s, c, i, j) <==> (i == 0 && j == f) || (i > f && Stands(rest, c, i - f - 1, j - f - 1))
      {
        if i <= f {
          StandsFirst(s, c, f, i, j);
        } else {
          StandsLater(s, c, f, i, j);
        }
      }
      PiecesJoin(s, c, f, p);
  }

  lemma PiecesJoin(s: string, c: char, f: nat, p: string)
    requires f < |s| && s[f] == c
    requires forall i, j :: Stands(s, c, i, j) <==>
                            (i == 0 && j == f) || (i > f && Stands(s[f+1..], c, i - f - 1, j - f - 1))
    ensures IsPieceOf(s, c, p) <==> p == s[..f] || IsPieceOf(s[f+1..], c, p)
  {
    var rest := s[f+1..];
    assert s[0..f] == s[..f];
    if i, j :| Stands(s, c, i, j) && p == s[i..j] {
      if i > f {
        StandsLater(s, c, f, i, j);
      }
    }
    if p == s[..f] {
      assert Stands(s, c, 0, f);
    }
    if i, j :| Stands(rest, c, i, j) && p == rest[i..j] {
      PieceIsLater(s, c, f, i, j);
    }
  }

  lemma PieceIsLater(s: string, c: char, f: nat, i: int, j: int)
    requires f < |s| && s[f] == c && Stands(s[f+1..], c, i, j)
    ensures IsPieceOf(s, c, s[f+1..][i..j])
  {
    StandsLater(s, c, f, i + f + 1, j + f + 1);
    assert Stands(s, c, i + f + 1, j + f + 1);
  }

  lemma FirstPartIsPrefix(s: string, c: char)
    ensures Split(s, c)[0] <= s
  {
  }

  lemma Reassociate<T>(a: seq<T>, b: seq<T>, c: seq<T>)
    ensures a + b + c == a + (b + c)
  {
  }

  lemma Peel(a: string, i: nat, b: string)
    requires i < |a|
    ensures a == a[..i] + [a[i]] + a[i+1..]
    ensures a + [a[i]] + b == a[..i] + [a[i]] + (a[i+1..] + [a[i]] + b)
  {
  }

  lemma SplitAppendStep(first: string, c: char, rest: string, b: string)
    requires c !in first && Split(rest + [c] + b, c) == Split(rest, c) + Split(b, c)
    ensures Split(first + [c] + (rest + [c] + b), c) == Split(first + [c] + rest, c) + Split(b, c)
  {
    SplitAt(first, c, rest);
    SplitAt(first, c, rest + [c] + b);
    Reassociate([first], Split(rest, c), Split(b, c));
  }

  lemma {:induction false} SplitAppend(a: string, c: char, b: string)
    ensures Split(a + [c] + b, c) == Split(a, c) + Split(b, c)
    decreases |a|
  {
    match Find(a, c)
    case None => SplitAt(a, c, b);
    case Some(i) =>
      SplitAppend(a[i+1..], c, b);
      SplitAppendStep(a[..i], c, a[i+1..], b);
      Peel(a, i, b);
  }

  function Join(parts: seq<string>, c: char): string
    requires parts != []
  {
    if |parts| == 1 then parts[0] else parts[0] + [c] + Join(parts[1..], c)
  }

  lemma {:induction false} JoinSplit(s: string, c: char)
    ensures Join(Split(s, c), c) == s
    decreases |s|
  {
    match Find(s, c)
    case None =>
    case Some(i) =>
      JoinSplit(s[i+1..], c);
      assert Split(s, c)[1..] == Split(s[i+1..], c);
      assert s == s[..i] + [c] + s[i+1..];
  }

  lemma {:induction false} JoinAppend(p: seq<string>, q: seq<string>, c: char)
    requires p != [] && q != []
    ensures Join(p + q, c) == Join(p, c) + [c] + Join(q, c)
  {
    if |p| == 1 {
      assert (p + q)[1..] == q;
    } else {
      assert (p + q)[1..] == p[1..] + q;
      JoinAppend(p[1..], q, c);
      assert p[0] + [c] + (Join(p[1..], c) + [c] + Join(q, c)) == Join(p, c) + [c] + Join(q, c);
    }
  }

  /// Decimal numbers

  predicate IsDigit(c: char) { '0' <= c <= '9' }

  function DigitValue(c: char): (r: nat)
    requires IsDigit(c)
    ensures r < 10
  {
    c as nat - '0' as nat
  }

  function DigitsValue(s: string): nat
    requires forall i :: 0 <= i < |s| ==> IsDigit(s[i])
  {
    if s == "" then 0 else DigitsValue(s[..|s|-1]) * 10 + DigitValue(s[|s|-1])
  }

  // `str::parse` for an unsigned type with largest value `max`: an optional plus sign
  // and at least one digit.
  function ParseUnsigned(s: string, max: nat): (r: Option<nat>)
    ensures r.Some? ==> r.value <= max
  {
    var digits := if s != "" && s[0] == '+' then s[1..] else s;
    if digits == "" || exists i :: 0 <= i < |digits| && !IsDigit(digits[i]) then None
    else if DigitsValue(digits) <= max then Some(DigitsValue(digits))
    else None
  }

  function Decimal(n: nat): (r: string)
    ensures r != "" && forall i :: 0 <= i < |r| ==> IsDigit(r[i])
  {
    if n < 10 then [(n + '0' as nat) as char]
    else Decimal(n / 10) + [(n % 10 + '0' as nat) as char]
  }

  lemma {:induction false} DecimalValue(n: nat)
    ensures DigitsValue(Decimal(n)) == n
  {
    var d := Decimal(n);
    if n >= 10 {
      DecimalValue(n / 10);
      assert d[..|d|-1] == Decimal(n / 10);
    } else {
      assert d[..|d|-1] == "";
    }
  }

  lemma ParseDecimal(n: nat, max: nat)
    requires n <= max
    ensures ParseUnsigned(Decimal(n), max) == Some(n)
    ensures forall c :: c in Decimal(n) ==> IsDigit(c)
  {
    DecimalValue(n);
  }

  lemma NotInDecimal(n: nat, c: char)
    requires !IsDigit(c)
    ensures c !in Decimal(n)
  {
    var d := Decimal(n);
    assert forall i :: 0 <= i < |d| ==> IsDigit(d[i]);
  }

  /// Words

  // `split_whitespace`
  function Words(s: string): seq<string> {
    if s == "" then []
    else if IsSpace(s[0]) then Words(s[1..])
    else
      var n := WordLength(s);
      [s[..n]] + Words(s[n..])
  }

  function WordEnd(s: string, i: nat): (n: nat)
    requires i <= |s|
    ensures i <= n <= |s|
    ensures forall k :: i <= k < n ==> !IsSpace(s[k])
    ensures n < |s| ==> IsSpace(s[n])
    decreases |s| - i
  {
    if i == |s| || IsSpace(s[i]) then i else WordEnd(s, i + 1)
  }

  function WordLength(s: string): (n: nat)
    ensures n <= |s|
    ensures forall i :: 0 <= i < n ==> !IsSpace(s[i])
    ensures n < |s| ==> IsSpace(s[n])
    ensures s != "" && !IsSpace(s[0]) ==> n > 0
  {
    WordEnd(s, 0)
  }

  predicate IsWord(s: string) {
    s != "" && forall i :: 0 <= i < |s| ==> !IsSpace(s[i])
  }

  lemma {:induction false} WordsAreWords(s: string)
    ensures forall w :: w in Words(s) ==> IsWord(w) && (forall c :: c in w ==> c in s)
    decreases |s|
  {
    if s != "" {
      if IsSpace(s[0]) {
        WordsAreWords(s[1..]);
      } else {
        WordsAreWords(s[WordLength(s)..]);
      }
    }
  }

  lemma WordsCons(w: string, rest: string)
    requires IsWord(w) && (rest == "" || IsSpace(rest[0]))
    ensures Words(w + rest) == [w] + Words(rest)
  {
    var s := w + rest;
    var n := WordLength(s);
    assert forall k :: 0 <= k < |w| ==> s[k] == w[k];
    assert rest != "" ==> s[|w|] == rest[0];
    assert s[..n] == w && s[n..] == rest;
  }
}
