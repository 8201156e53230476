/** The string operations of the original language that the configuration code relies on. */
module Text {
  import opened Wrappers
  import opened Sequences

  /** `a < b` on strings: the first differing character decides, a proper prefix is smaller. */
  predicate Less(a: string, b: string) {
    b != "" && (a == "" || a[0] < b[0] || (a[0] == b[0] && Less(a[1..], b[1..])))
  }

  lemma {:induction false} LessAppend(x: string, y: string, u: string, v: string)
    requires |x| == |u|
    ensures Less(x + y, u + v) <==> Less(x, u) || (x == u && Less(y, v))
  {
    if x == "" {
      assert x + y == y && u + v == v;
    } else {
      assert (x + y)[1..] == x[1..] + y && (u + v)[1..] == u[1..] + v;
      LessAppend(x[1..], y, u[1..], v);
      assert x == [x[0]] + x[1..] && u == [u[0]] + u[1..];
    }
  }

  predicate IsDigit(c: char) { '0' <= c <= '9' }

  function DigitValue(c: char): (d: nat)
    requires IsDigit(c)
    ensures d < 10
  {
    c as int - '0' as int
  }

  function Digit(d: nat): (c: char)
    requires d < 10
    ensures IsDigit(c) && DigitValue(c) == d
  {
    (d + '0' as int) as char
  }

  /** `str(n)` */
  function Decimal(n: nat): (s: string)
    ensures s != "" && forall c :: c in s ==> IsDigit(c)
  {
    if n < 10 then [Digit(n)] else Decimal(n / 10) + [Digit(n % 10)]
  }

  /** `int(s)` on plain digit strings; anything else is the `ValueError` branch. */
  function ParseDecimal(s: string): Option<nat> {
    if s == "" || !IsDigit(s[|s| - 1]) then None
    else if |s| == 1 then Some(DigitValue(s[0]))
    else
      match ParseDecimal(s[..|s| - 1])
      case None => None
      case Some(high) => Some(10 * high + DigitValue(s[|s| - 1]))
  }

  lemma {:induction false} DecimalRoundTrip(n: nat)
    ensures ParseDecimal(Decimal(n)) == Some(n)
  {
    if n >= 10 {
      DecimalRoundTrip(n / 10);
      var s := Decimal(n);
      assert s[..|s| - 1] == Decimal(n / 10);
    }
  }

  /** Index of the first `__` in `s`. */
  function FindSeparator(s: string): (r: Option<nat>)
    ensures r.Some? ==> r.value + 2 <= |s| && s[r.value..r.value + 2] == "__"
  {
    if |s| < 2 then None
    else if s[0] == '_' && s[1] == '_' then Some(0)
    else
      match FindSeparator(s[1..])
      case None => None
      case Some(k) => assert s[1..][k..k + 2] == s[k + 1..k + 3]; Some(k + 1)
  }

  /** A name with no double underscore and no trailing one is exactly what precedes the first `__`. */
  lemma {:induction false} FindSeparatorAfter(name: string, rest: string)
    requires name != "" && name[|name| - 1] != '_'
    requires forall k :: 0 <= k < |name| - 1 ==> name[k] != '_' || name[k + 1] != '_'
    ensures FindSeparator(name + "__" + rest) == Some(|name|)
  {
    var s := name + "__" + rest;
    assert !(s[0] == '_' && s[1] == '_');
    if |name| == 1 {
      assert s[1..] == "__" + rest;
    } else {
      assert s[1..] == name[1..] + "__" + rest;
      FindSeparatorAfter(name[1..], rest);
    }
  }

  predicate EndsWith(s: string, suffix: string) {
    |suffix| <= |s| && s[|s| - |suffix|..] == suffix
  }

  lemma EndsWithExact(s: string, suffix: string)
    ensures EndsWith(s, suffix) <==> exists front :: s == front + suffix
  {
    if EndsWith(s, suffix) {
      assert s == s[..|s| - |suffix|] + suffix;
    }
    if front :| s == front + suffix {
      assert s[|s| - |suffix|..] == suffix;
    }
  }

  lemma EndsWithLast(s: string, suffix: string)
    requires suffix != ""
    ensures EndsWith(s, suffix) ==> s != "" && s[|s| - 1] == suffix[|suffix| - 1]
  {
    if EndsWith(s, suffix) {
      assert s[|s| - |suffix|..][|suffix| - 1] == s[|s| - 1];
    }
  }

  /** `s.replace(old, new)`: every non-overlapping occurrence, left to right. */
  function ReplaceAll(s: string, before: string, after: string): string
    requires before != ""
  {
    if |s| < |before| then s
    else if before <= s then after + ReplaceAll(s[|before|..], before, after)
    else [s[0]] + ReplaceAll(s[1..], before, after)
  }

  // ------------------------------------------------------- replacing within words

  predicate IsDelimiter(c: char) { c == '.' || c == '_' }

  /** No delimiter, and not empty. */
  predicate IsWord(s: string) {
    s != "" && forall c | c in s :: !IsDelimiter(c)
  }

  /** Empty, or beginning with a delimiter. */
  predicate AtBoundary(s: string) {
    s == "" || IsDelimiter(s[0])
  }

  predicate OccursAt(s: string, part: string, k: nat) {
    k + |part| <= |s| && s[k..k + |part|] == part
  }

  predicate Occurs(s: string, part: string) {
    exists k: nat | k <= |s| :: OccursAt(s, part, k)
  }

  lemma OccursInTail(s: string, part: string)
    requires s != ""
    ensures part <= s || Occurs(s[1..], part) ==> Occurs(s, part)
  {
    if part <= s {
      assert OccursAt(s, part, 0);
    } else if Occurs(s[1..], part) {
      var k: nat :| k < |s| && OccursAt(s[1..], part, k);
      assert OccursAt(s, part, k + 1);
    }
  }

  lemma {:induction false} ReplaceNothing(s: string, before: string, after: string)
    requires before != "" && !Occurs(s, before)
    ensures ReplaceAll(s, before, after) == s
  {
    if |s| >= |before| {
      OccursInTail(s, before);
      ReplaceNothing(s[1..], before, after);
    }
  }

  lemma ReplaceStep(s: string, before: string, after: string)
    requires before != "" && s != "" && !(before <= s)
    ensures ReplaceAll(s, before, after) == [s[0]] + ReplaceAll(s[1..], before, after)
  {
  }

  /** What a replacement of a word does on the two sides of a delimiter does not interact. */
  lemma {:induction false} ReplaceSplits(s: string, rest: string, before: string, after: string)
    requires IsWord(before) && AtBoundary(rest)
    ensures ReplaceAll(s + rest, before, after) == ReplaceAll(s, before, after) + ReplaceAll(rest, before, after)
  {
    if s == "" {
      assert s + rest == rest;
    } else if before <= s + rest {
      PrefixEndsBefore(s, rest, before);
      ReplaceSplits(s[|before|..], rest, before, after);
      SplitAtWord(s, rest, before, after);
    } else {
      ReplaceSplits(s[1..], rest, before, after);
      SplitAtOther(s, rest, before, after);
    }
  }

  lemma SplitAtWord(s: string, rest: string, before: string, after: string)
    requires before != "" && before <= s
    requires ReplaceAll(s[|before|..] + rest, before, after)
          == ReplaceAll(s[|before|..], before, after) + ReplaceAll(rest, before, after)
    ensures ReplaceAll(s + rest, before, after) == ReplaceAll(s, before, after) + ReplaceAll(rest, before, after)
  {
    assert before <= s + rest && (s + rest)[|before|..] == s[|before|..] + rest;
    ConcatAssoc(after, ReplaceAll(s[|before|..], before, after), ReplaceAll(rest, before, after));
  }

  lemma SplitAtOther(s: string, rest: string, before: string, after: string)
    requires before != "" && s != "" && !(before <= s + rest)
    requires ReplaceAll(s[1..] + rest, before, after)
          == ReplaceAll(s[1..], before, after) + ReplaceAll(rest, before, after)
    ensures ReplaceAll(s + rest, before, after) == ReplaceAll(s, before, after) + ReplaceAll(rest, before, after)
  {
    assert before <= s ==> before <= s + rest;
    assert (s + rest)[0] == s[0] && (s + rest)[1..] == s[1..] + rest;
    ReplaceStep(s, before, after);
    ReplaceStep(s + rest, before, after);
    ConcatAssoc([s[0]], ReplaceAll(s[1..], before, after), ReplaceAll(rest, before, after));
  }

  lemma NextCharacter(s: string, rest: string, longer: string)
    ensures longer <= s + rest && |s| < |longer| ==> rest != "" && rest[0] in longer
  {
    assert longer <= s + rest && |s| < |longer| ==> longer[|s|] == (s + rest)[|s|] == rest[0];
  }

  lemma PrefixEndsBefore(s: string, rest: string, word: string)
    requires IsWord(word) && AtBoundary(rest) && word <= s + rest
    ensures word <= s
  {
    NextCharacter(s, rest, word);
  }

  /** Every occurrence of the word stands between delimiters or ends of the string. */
  ghost predicate Alone(s: string, word: string) {
    forall k: nat | OccursAt(s, word, k) :: (k == 0 || IsDelimiter(s[k - 1])) && AtBoundary(s[k + |word|..])
  }

  /** The length of what precedes the first delimiter. */
  function FirstWord(s: string): (n: nat)
    ensures n <= |s| && AtBoundary(s[n..]) && forall c | c in s[..n] :: !IsDelimiter(c)
  {
    if AtBoundary(s) then 0
    else
      var n := FirstWord(s[1..]);
      assert s[1..][n..] == s[n + 1..] && s[..n + 1] == [s[0]] + s[1..][..n];
      n + 1
  }

  lemma ReplaceAtDelimiter(d: char, rest: string, before: string, after: string)
    requires IsWord(before) && IsDelimiter(d)
    ensures ReplaceAll([d] + rest, before, after) == [d] + ReplaceAll(rest, before, after)
  {
    var s := [d] + rest;
    assert s[1..] == rest;
    NextCharacter("", s, before);
    assert "" + s == s;
  }

  /** A string without delimiters is the word itself, or does not contain it. */
  lemma WordAlone(s: string, rest: string, word: string)
    requires IsWord(word) && Alone(s + rest, word) && AtBoundary(rest) && forall c | c in s :: !IsDelimiter(c)
    ensures s == word || !Occurs(s, word)
  {
    assert forall i | 0 <= i < |s| :: (s + rest)[i] == s[i] && s[i] in s;
    forall k: nat | OccursAt(s, word, k) ensures s == word {
      assert (s + rest)[k..k + |word|] == s[k..k + |word|];
      assert OccursAt(s + rest, word, k);
      assert (s + rest)[k + |word|..] == s[k + |word|..] + rest;
    }
  }

  lemma AloneAfter(s: string, k: nat, word: string)
    requires Alone(s, word) && 0 < k <= |s| && IsDelimiter(s[k - 1])
    ensures Alone(s[k..], word)
  {
    forall j: nat | OccursAt(s[k..], word, j)
      ensures (j == 0 || IsDelimiter(s[k..][j - 1])) && AtBoundary(s[k..][j + |word|..])
    {
      assert s[k..][j..j + |word|] == s[k + j..k + j + |word|];
      assert OccursAt(s, word, k + j);
      assert s[k..][j + |word|..] == s[k + j + |word|..];
    }
  }

  lemma ReplaceWordTwice(s: string, before: string, after: string)
    requires IsWord(before) && (s == before || !Occurs(s, before)) && ReplaceAll(after, before, after) == after
    ensures ReplaceAll(ReplaceAll(s, before, after), before, after) == ReplaceAll(s, before, after)
  {
    if s == before {
      assert s[|before|..] == "";
      assert ReplaceAll(s, before, after) == after + "" == after;
    } else {
      ReplaceNothing(s, before, after);
    }
  }

  /** Where the word always stands alone, a second replacement finds nothing more. */
  lemma {:induction false} ReplaceTwice(s: string, before: string, after: string)
    requires IsWord(before) && Alone(s, before) && ReplaceAll(after, before, after) == after
    ensures ReplaceAll(ReplaceAll(s, before, after), before, after) == ReplaceAll(s, before, after)
    decreases |s|
  {
    var n := FirstWord(s);
    var word, rest := s[..n], s[n..];
    assert s == word + rest;
    WordAlone(word, rest, before);
    ReplaceWordTwice(word, before, after);
    if rest == "" {
      assert s == word;
    } else {
      var tail := rest[1..];
      assert rest == [rest[0]] + tail && tail == s[n + 1..];
      AloneAfter(s, n + 1, before);
      ReplaceTwice(tail, before, after);
      var once := ReplaceAll(tail, before, after);
      ReplaceAtDelimiter(rest[0], tail, before, after);
      ReplaceAtDelimiter(rest[0], once, before, after);
      ReplaceSplits(word, rest, before, after);
      ReplaceSplits(ReplaceAll(word, before, after), [rest[0]] + once, before, after);
    }
  }
}
