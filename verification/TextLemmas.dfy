/**
 Facts about trimming, words and lines used by the HTTP modules.
 */
module TextLemmas {
  import opened Text

  predicate Trimmed(s: string) {
    s != "" ==> !IsSpace(s[0]) && !IsSpace(s[|s|-1])
  }

  predicate AllSpace(s: string) {
    forall i :: 0 <= i < |s| ==> IsSpace(s[i])
  }

  // Trimming leaves a slice that neither starts nor ends with white space, and drops
  // a final white-space character.
  lemma TrimSlice(s: string) returns (i: nat, j: nat)
    ensures i <= j <= |s| && Trim(s) == s[i..j] && Trimmed(Trim(s))
    ensures s != "" && IsSpace(s[|s|-1]) ==> i == j || j < |s|
  {
    i := AfterSpace(s, 0);
    var t := s[i..];
    j := i + BeforeSpace(t, |t|);
    assert t[..j-i] == s[i..j];
    assert t != "" ==> t[|t|-1] == s[|s|-1];
  }

  lemma TrimmedStays(s: string)
    requires Trimmed(s)
    ensures Trim(s) == s
  {
  }

  lemma TrimOf(head: string, core: string, tail: string)
    requires AllSpace(head) && AllSpace(tail) && Trimmed(core) && core != ""
    ensures Trim(head + core + tail) == core
  {
    var s := head + core + tail;
    assert s[|head|] == core[0];
    assert forall k :: 0 <= k < |head| ==> s[k] == head[k];
    assert AfterSpace(s, 0) == |head|;
    var t := s[|head|..];
    assert t == core + tail;
    assert t[|core|-1] == core[|core|-1];
    assert forall k :: |core| <= k < |t| ==> t[k] == tail[k-|core|];
    assert BeforeSpace(t, |t|) == |core|;
  }

  lemma TrimBlank(s: string)
    requires AllSpace(s)
    ensures Trim(s) == ""
  {
    assert AfterSpace(s, 0) == |s|;
  }

  lemma LowerTrimmed(s: string)
    ensures Trimmed(Lower(s)) == Trimmed(s)
    ensures Lower(Lower(s)) == Lower(s)
    ensures forall c :: c in Lower(s) && !('a' <= c <= 'z') ==> c in s
  {
    var t := Lower(s);
    forall i | 0 <= i < |s| ensures Lower(t)[i] == t[i] && (('a' <= t[i] <= 'z') || t[i] == s[i]) {
    }
  }

  lemma WordsSkip(rest: string)
    ensures Words(" " + rest) == Words(rest)
  {
    assert (" " + rest)[1..] == rest;
  }

  lemma WordsSteps(s: string)
    ensures s == "" ==> Words(s) == []
    ensures s != "" && IsSpace(s[0]) ==> Words(s) == Words(s[1..])
    ensures s != "" && !IsSpace(s[0]) ==> Words(s) == [s[..WordLength(s)]] + Words(s[WordLength(s)..])
  {
  }

  lemma {:induction false} WordsAppend(a: string, x: char, b: string)
    requires IsSpace(x)
    ensures Words(a + [x] + b) == Words(a) + Words(b)
    decreases |a|
  {
    hide Words;
    var s := a + [x] + b;
    WordsSteps(a);
    if a == "" {
      assert s[0] == x && s[1..] == b;
      WordsSteps(s);
      assert [] + Words(b) == Words(b);
    } else if IsSpace(a[0]) {
      assert s[0] == a[0] && s[1..] == a[1..] + [x] + b;
      WordsSteps(s);
      WordsAppend(a[1..], x, b);
    } else {
      var n := WordLength(a);
      FirstWordStays(a, x, b);
      WordsAppend(a[n..], x, b);
      assert [a[..n]] + (Words(a[n..]) + Words(b)) == [a[..n]] + Words(a[n..]) + Words(b);
    }
  }

  lemma FirstWordStays(a: string, x: char, b: string)
    requires IsSpace(x) && a != "" && !IsSpace(a[0])
    ensures var s, n := a + [x] + b, WordLength(a);
            n > 0 && s[..n] == a[..n] && Words(s) == [a[..n]] + Words(a[n..] + [x] + b)
  {
    var s, n := a + [x] + b, WordLength(a);
    assert forall k :: 0 <= k < |a| ==> s[k] == a[k];
    assert s[..n] == a[..n] && s[n..] == a[n..] + [x] + b;
    assert n == |a| ==> s[n] == x;
    WordsCons(a[..n], a[n..] + [x] + b);
    assert s == a[..n] + (a[n..] + [x] + b);
  }

  lemma {:induction false} WordsOfSpace(s: string)
    requires AllSpace(s)
    ensures Words(s) == []
  {
    if s != "" {
      WordsOfSpace(s[1..]);
    }
  }

  lemma {:induction false} WordsTrimStart(s: string)
    ensures Words(TrimStart(s)) == Words(s)
    ensures s != "" && IsSpace(s[0]) ==> TrimStart(s) == TrimStart(s[1..])
    decreases |s|
  {
    if s != "" && IsSpace(s[0]) {
      WordsTrimStart(s[1..]);
      var i := AfterSpace(s[1..], 0);
      assert forall k :: 0 <= k < |s| - 1 ==> s[1..][k] == s[k+1];
      assert AfterSpace(s, 0) == i + 1;
      assert s[i+1..] == s[1..][i..];
    }
  }

  lemma WordsTrimEnd(s: string)
    ensures Words(TrimEnd(s)) == Words(s)
  {
    var n := BeforeSpace(s, |s|);
    if n < |s| {
      assert s == s[..n] + [s[n]] + s[n+1..];
      WordsAppend(s[..n], s[n], s[n+1..]);
      WordsOfSpace(s[n+1..]);
    } else {
      assert s[..n] == s;
    }
  }

  // Trimming loses no word.
  lemma WordsTrim(s: string)
    ensures Words(Trim(s)) == Words(s)
  {
    WordsTrimStart(s);
    WordsTrimEnd(TrimStart(s));
  }

  lemma {:induction false} SomeWord(s: string)
    requires s != "" && !IsSpace(s[|s|-1])
    ensures Words(s) != []
    decreases |s|
  {
    if IsSpace(s[0]) {
      SomeWord(s[1..]);
    }
  }

  lemma OneWordFrom(t: string)
    requires t != "" && !IsSpace(t[0]) && !IsSpace(t[|t|-1])
    ensures |Words(t)| == 1 <==> IsWord(t)
    ensures |Words(t)| == 1 ==> Words(t) == [t]
  {
    var n := WordLength(t);
    assert Words(t) == [t[..n]] + Words(t[n..]);
    hide Words;
    if n < |t| {
      SomeWord(t[n..]);
    } else {
      assert t[..n] == t && t[n..] == "";
      WordsOfSpace("");
    }
  }

  lemma TrimStartEnds(s: string)
    requires s != "" && !IsSpace(s[|s|-1])
    ensures var t := TrimStart(s); t != "" && !IsSpace(t[0]) && t[|t|-1] == s[|s|-1]
  {
    var i := AfterSpace(s, 0);
    assert i < |s|;
  }

  // A text that does not end in white space is one word exactly when it holds none once
  // its start is trimmed.
  lemma OneWord(s: string)
    requires s != "" && !IsSpace(s[|s|-1])
    ensures |Words(s)| == 1 <==> IsWord(TrimStart(s))
    ensures |Words(s)| == 1 ==> Words(s) == [TrimStart(s)]
  {
    hide Words, TrimStart;
    WordsTrimStart(s);
    TrimStartEnds(s);
    OneWordFrom(TrimStart(s));
  }

  // Three words separated by single spaces are those three words.
  lemma ThreeWords(a: string, b: string, c: string)
    requires IsWord(a) && IsWord(b) && IsWord(c)
    ensures Words(a + (" " + (b + (" " + c)))) == [a, b, c]
  {
    WordsCons(a, " " + (b + (" " + c)));
    assert (" " + (b + (" " + c)))[1..] == b + (" " + c);
    WordsCons(b, " " + c);
    assert (" " + c)[1..] == c;
    WordsCons(c, "");
    assert c + "" == c;
  }

  /// Lines

  // The first line with its line feed, or everything when there is none.
  function Line(input: string): (r: string)
    ensures |r| <= |input|
    ensures input != "" ==> r != ""
  {
    match Find(input, '\n')
    case None => input
    case Some(i) => input[..i+1]
  }

  lemma LineIsPrefix(input: string)
    ensures Line(input) == input[..|Line(input)|]
  {
  }

  lemma LineOf(text: string, rest: string)
    requires '\n' !in text
    ensures Line(text + "\n" + rest) == text + "\n"
  {
    FindAt(text, '\n', rest);
  }

  // Only the last character of a line can be a line feed.
  lemma LineShape(input: string)
    ensures var l := Line(input); l != "" ==> '\n' !in l[..|l|-1]
    ensures var l := Line(input); l != "" && l[|l|-1] != '\n' ==> l == input
  {
    match Find(input, '\n')
    case None =>
    case Some(i) => assert input[..i+1][..i] == input[..i];
  }

  lemma TrimmedLineIsOneLine(input: string)
    ensures '\n' !in Trim(Line(input))
  {
    var l := Line(input);
    LineShape(input);
    var i, j := TrimSlice(l);
    if l != "" && l[|l|-1] == '\n' {
      assert j < |l| || i == j;
      assert forall k :: i <= k < j ==> l[k] == l[..|l|-1][k];
    }
  }
}
