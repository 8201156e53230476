/** Wall-clock times as the slot forms store them, and the instants they denote. */
module TimeOfDay {
  import opened Wrappers
  import opened Text

  const MICROS_PER_SECOND := 1_000_000

  function PairValue(s: string): (v: nat)
    requires |s| == 2 && IsDigit(s[0]) && IsDigit(s[1])
    ensures v < 100
  {
    10 * DigitValue(s[0]) + DigitValue(s[1])
  }

  predicate IsPair(s: string, bound: nat) {
    |s| == 2 && IsDigit(s[0]) && IsDigit(s[1]) && PairValue(s) < bound
  }

  /** `:MM` */
  predicate IsField(s: string) {
    |s| == 3 && s[0] == ':' && IsPair(s[1..], 60)
  }

  /** `time.fromisoformat` on `HH:MM` and `HH:MM:SS`, as microseconds since midnight. */
  function ParseTime(s: string): (t: Option<nat>)
    ensures t.Some? ==> t.value < 86400 * MICROS_PER_SECOND
  {
    if |s| == 5 && IsPair(s[..2], 24) && IsField(s[2..]) then
      Some((3600 * PairValue(s[..2]) + 60 * PairValue(s[3..])) * MICROS_PER_SECOND)
    else if |s| == 8 && IsPair(s[..2], 24) && IsField(s[2..5]) && IsField(s[5..]) then
      Some((3600 * PairValue(s[..2]) + 60 * PairValue(s[3..5]) + PairValue(s[6..])) * MICROS_PER_SECOND)
    else
      None
  }

  function TwoDigits(n: nat): (s: string)
    requires n < 100
  {
    [Digit(n / 10), Digit(n % 10)]
  }

  lemma TwoDigitsIsPair(n: nat, bound: nat)
    requires n < bound <= 100
    ensures IsPair(TwoDigits(n), bound) && PairValue(TwoDigits(n)) == n
  {
  }

  /** Every time of day is read back from how it is written, with seconds or without. */
  lemma WrittenTimeIsRead(h: nat, m: nat, s: nat)
    requires h < 24 && m < 60 && s < 60
    ensures ParseTime(TwoDigits(h) + ":" + TwoDigits(m)) == Some((3600 * h + 60 * m) * 1_000_000)
    ensures ParseTime(TwoDigits(h) + ":" + TwoDigits(m) + ":" + TwoDigits(s)) == Some((3600 * h + 60 * m + s) * 1_000_000)
  {
    var short := TwoDigits(h) + ":" + TwoDigits(m);
    var long := short + ":" + TwoDigits(s);
    TwoDigitsIsPair(h, 24);
    TwoDigitsIsPair(m, 60);
    TwoDigitsIsPair(s, 60);
    FieldOf(m);
    FieldOf(s);
    assert short[..2] == long[..2] == TwoDigits(h);
    assert short[2..] == long[2..5] == ":" + TwoDigits(m) && long[5..] == ":" + TwoDigits(s);
    assert short[3..] == long[3..5] == TwoDigits(m) && long[6..] == TwoDigits(s);
  }

  lemma FieldOf(n: nat)
    requires n < 60
    ensures IsField(":" + TwoDigits(n))
  {
    var field := ":" + TwoDigits(n);
    TwoDigitsIsPair(n, 60);
    assert field[1..] == TwoDigits(n);
  }

  lemma PairOrder(x: string, u: string)
    requires IsPair(x, 100) && IsPair(u, 100)
    ensures Less(x, u) <==> PairValue(x) < PairValue(u)
    ensures x == u <==> PairValue(x) == PairValue(u)
  {
    assert x == [x[0], x[1]] && u == [u[0], u[1]];
    LessAppend([x[0]], [x[1]], [u[0]], [u[1]]);
    assert x == [x[0]] + [x[1]] && u == [u[0]] + [u[1]];
  }

  lemma FieldOrder(x: string, u: string)
    requires IsField(x) && IsField(u)
    ensures Less(x, u) <==> PairValue(x[1..]) < PairValue(u[1..])
    ensures x == u <==> PairValue(x[1..]) == PairValue(u[1..])
  {
    PairOrder(x[1..], u[1..]);
    assert x == ":" + x[1..] && u == ":" + u[1..];
  }

  /** The minute count of the leading `HH:MM`. */
  function Minutes(s: string): nat
    requires ParseTime(s).Some?
  {
    60 * PairValue(s[..2]) + PairValue(s[3..5])
  }

  /** The seconds field, absent in `HH:MM`. */
  function Seconds(s: string): (v: nat)
    requires ParseTime(s).Some?
    ensures v < 60
  {
    if |s| == 5 then 0 else PairValue(s[6..])
  }

  lemma TimeFromFields(s: string)
    requires ParseTime(s).Some?
    ensures |s| >= 5 && IsPair(s[..2], 24) && IsField(s[2..5]) && s[2..5][1..] == s[3..5]
    ensures ParseTime(s).value == (60 * Minutes(s) + Seconds(s)) * MICROS_PER_SECOND
    ensures |s| == 8 ==> IsField(s[5..]) && s[5..][1..] == s[6..]
  {
    if |s| == 5 {
      assert s[2..5] == s[2..] && s[3..5] == s[3..];
    }
  }

  lemma PrefixOrder(a: string, b: string)
    requires ParseTime(a).Some? && ParseTime(b).Some?
    ensures |a| >= 5 && |b| >= 5
    ensures a[..5] == b[..5] <==> Minutes(a) == Minutes(b)
    ensures Less(a, b) <==> Minutes(a) < Minutes(b) || (Minutes(a) == Minutes(b) && Less(a[5..], b[5..]))
  {
    TimeFromFields(a);
    TimeFromFields(b);
    PairOrder(a[..2], b[..2]);
    FieldOrder(a[2..5], b[2..5]);
    assert a == a[..2] + (a[2..5] + a[5..]) && b == b[..2] + (b[2..5] + b[5..]);
    LessAppend(a[..2], a[2..5] + a[5..], b[..2], b[2..5] + b[5..]);
    LessAppend(a[2..5], a[5..], b[2..5], b[5..]);
    assert a[..5] == a[..2] + a[2..5] && b[..5] == b[..2] + b[2..5];
    assert a[..5][..2] == a[..2] && b[..5][..2] == b[..2] && a[..5][2..] == a[2..5] && b[..5][2..] == b[2..5];
  }

  lemma SuffixOrder(a: string, b: string)
    requires ParseTime(a).Some? && ParseTime(b).Some?
    requires Minutes(a) == Minutes(b)
    ensures Less(a[5..], b[5..]) <==> Seconds(a) < Seconds(b) || b == a + ":00"
  {
    PrefixOrder(a, b);
    TimeFromFields(a);
    TimeFromFields(b);
    if |b| == 8 {
      if |a| == 8 {
        FieldOrder(a[5..], b[5..]);
      } else {
        assert a[5..] == "" && a == a[..5];
        assert b == b[..5] + b[5..];
        FieldOrder(b[5..], ":00");
        assert ":00"[1..] == "00" && PairValue("00") == 0;
      }
    }
  }

  /**
   * The form compares the strings, the conflict check the times. On accepted
   * strings the two orders agree, except that `HH:MM` sorts before its own `HH:MM:00`.
   */
  lemma StringOrderIsTimeOrder(a: string, b: string)
    requires ParseTime(a).Some? && ParseTime(b).Some?
    ensures Less(a, b) <==> ParseTime(a).value < ParseTime(b).value || b == a + ":00"
    ensures b == a + ":00" ==> ParseTime(a) == ParseTime(b)
  {
    PrefixOrder(a, b);
    TimeFromFields(a);
    TimeFromFields(b);
    if b == a + ":00" {
      assert b[..5] == a[..5] && b[5..] == ":00" && b[6..] == "00";
      assert PairValue("00") == 0;
    }
    if Minutes(a) == Minutes(b) {
      SuffixOrder(a, b);
    }
  }
}
