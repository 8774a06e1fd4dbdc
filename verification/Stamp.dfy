/** The time stamp that starts every log record: seconds padded to 7 digits, a dot, nanoseconds padded to 9. */
module Stamp {
  import opened Decimal

  /** CLOCK_MONOTONIC's timespec: non-negative seconds and a nanosecond part below one second. */
  datatype Time = Time(sec: nat, nsec: nat) {
    ghost predicate Valid() { nsec < 1_000_000_000 }

    function Nanos(): (r: nat) { sec * 1_000_000_000 + nsec }
  }

  function Text(t: Time): (r: string) {
    PadDec(t.sec, 7) + "." + PadDec(t.nsec, 9)
  }

  /** The digits up to the first character that is not one. */
  function DigitRun(s: string): (k: nat)
    ensures k <= |s| && AllDigits(s[..k])
  {
    if s == "" || !('0' <= s[0] <= '9') then 0
    else
      var k := DigitRun(s[1..]);
      assert s[..k + 1] == [s[0]] + s[1..][..k];
      k + 1
  }

  lemma {:induction false} DigitRunStops(d: string, rest: string)
    requires AllDigits(d) && rest != "" && !('0' <= rest[0] <= '9')
    ensures DigitRun(d + rest) == |d|
  {
    if d == "" {
      assert d + rest == rest;
    } else {
      assert (d + rest)[1..] == d[1..] + rest;
      DigitRunStops(d[1..], rest);
    }
  }

  /** Reads "digits.digits" at the start of a line; the number after the dot ends at the first non-digit. */
  function Parse(line: string): (r: Time) {
    var k := DigitRun(line);
    if k == |line| then Time(Value(line), 0)
    else
      var frac := line[k + 1..];
      Time(Value(line[..k]), Value(frac[..DigitRun(frac)]))
  }

  lemma Pow10Constants()
    ensures Pow10(7) == 10_000_000 && Pow10(9) == 1_000_000_000
  {
    assert Pow10(4) == 10_000;
    assert Pow10(7) == 1000 * Pow10(4);
    assert Pow10(9) == 100 * Pow10(7);
  }

  /** The stamp has its fixed width of 17 exactly when the seconds have at most seven digits. */
  lemma FixedWidth(t: Time)
    requires t.Valid()
    ensures |Text(t)| == 17 <==> t.sec < 10_000_000
    ensures |Text(t)| >= 17
  {
    Pow10Constants();
    PadWidth(t.sec, 7);
    PadWidth(t.nsec, 9);
  }

  /** A record's time can be read back from the record, whatever follows the stamp's trailing blank. */
  lemma ReadBack(t: Time, rest: string)
    ensures Parse(Text(t) + " " + rest) == t
  {
    var a, b := PadDec(t.sec, 7), PadDec(t.nsec, 9);
    var line := Text(t) + " " + rest;
    var tail := "." + b + " " + rest;
    assert line == a + tail;
    DigitRunStops(a, tail);
    var k := |a|;
    assert line[..k] == a;
    assert line[k + 1..] == b + (" " + rest);
    DigitRunStops(b, " " + rest);
    assert (b + (" " + rest))[..|b|] == b;
    PadValue(t.sec, 7);
    PadValue(t.nsec, 9);
  }

  lemma SevenDigits(s: string)
    requires AllDigits(s) && |s| == 7
    ensures Value(s) == 1_000_000 * (s[0] as int - 48) + 100_000 * (s[1] as int - 48) + 10_000 * (s[2] as int - 48)
                        + 1_000 * (s[3] as int - 48) + 100 * (s[4] as int - 48) + 10 * (s[5] as int - 48)
                        + (s[6] as int - 48)
  {
    ValueStep(s, 0);
    ValueStep(s, 1);
    ValueStep(s, 2);
    ValueStep(s, 3);
    ValueStep(s, 4);
    ValueStep(s, 5);
    ValueStep(s, 6);
    assert s[..7] == s;
  }

  lemma NineDigits(s: string)
    requires AllDigits(s) && |s| == 9
    ensures Value(s) == 100_000_000 * (s[0] as int - 48) + 10_000_000 * (s[1] as int - 48)
                        + 1_000_000 * (s[2] as int - 48) + 100_000 * (s[3] as int - 48) + 10_000 * (s[4] as int - 48)
                        + 1_000 * (s[5] as int - 48) + 100 * (s[6] as int - 48) + 10 * (s[7] as int - 48)
                        + (s[8] as int - 48)
  {
    assert s[..7] + s[7..] == s;
    SevenDigits(s[..7]);
    ValueStep(s, 7);
    ValueStep(s, 8);
    assert s[..9] == s;
  }

  /** The stamp character by character: seven digits of seconds, a dot, nine digits of nanoseconds. */
  lemma Layout(t: Time)
    requires t.Valid() && t.sec < 10_000_000
    ensures var x := Text(t);
      && |x| == 17 && x[7] == '.' && (forall k :: 0 <= k < 17 && k != 7 ==> '0' <= x[k] <= '9')
      && t.sec == 1_000_000 * (x[0] as int - 48) + 100_000 * (x[1] as int - 48) + 10_000 * (x[2] as int - 48)
                  + 1_000 * (x[3] as int - 48) + 100 * (x[4] as int - 48) + 10 * (x[5] as int - 48)
                  + (x[6] as int - 48)
      && t.nsec == 100_000_000 * (x[8] as int - 48) + 10_000_000 * (x[9] as int - 48)
                   + 1_000_000 * (x[10] as int - 48) + 100_000 * (x[11] as int - 48) + 10_000 * (x[12] as int - 48)
                   + 1_000 * (x[13] as int - 48) + 100 * (x[14] as int - 48) + 10 * (x[15] as int - 48)
                   + (x[16] as int - 48)
  {
    FixedWidth(t);
    NsecWidth(t);
    var a, b := PadDec(t.sec, 7), PadDec(t.nsec, 9);
    PadValue(t.sec, 7);
    PadValue(t.nsec, 9);
    hide PadDec;
    assert |a| == 7 && |b| == 9;
    SevenDigits(a);
    NineDigits(b);
  }

  lemma NsecWidth(t: Time)
    requires t.Valid()
    ensures |PadDec(t.nsec, 9)| == 9
  {
    Pow10Constants();
    PadWidth(t.nsec, 9);
  }

  lemma LexFields(a: string, b: string, c: string, d: string)
    requires |a| == |b|
    ensures LexLess(a + "." + c, b + "." + d) <==> LexLess(a, b) || (a == b && LexLess(c, d))
    ensures a + "." + c == b + "." + d <==> a == b && c == d
  {
    assert a + "." + c == a + ("." + c) && b + "." + d == b + ("." + d);
    LexConcat(a, b, "." + c, "." + d);
    LexConcat(".", ".", c, d);
    LexIrreflexive(".");
    if a + "." + c == b + "." + d {
      assert a == (a + "." + c)[..|a|] && b == (b + "." + d)[..|a|];
      assert c == (a + "." + c)[|a| + 1..] && d == (b + "." + d)[|a| + 1..];
    }
  }

  /** Texts of one width are in lexicographic order exactly when the times are in numeric order. */
  lemma OrderPreserving(t: Time, u: Time)
    requires t.Valid() && u.Valid() && |Text(t)| == |Text(u)|
    ensures LexLess(Text(t), Text(u)) <==> t.Nanos() < u.Nanos()
    ensures Text(t) == Text(u) <==> t == u
  {
    NsecWidth(t);
    NsecWidth(u);
    PadOrder(t.sec, u.sec, 7);
    PadOrder(t.nsec, u.nsec, 9);
    LexFields(PadDec(t.sec, 7), PadDec(u.sec, 7), PadDec(t.nsec, 9), PadDec(u.nsec, 9));
  }

  /** Within the seven-digit range every pair of stamps sorts as text the way it does in time. */
  lemma OrderInRange(t: Time, u: Time)
    requires t.Valid() && u.Valid() && t.sec < 10_000_000 && u.sec < 10_000_000
    ensures LexLess(Text(t), Text(u)) <==> t.Nanos() < u.Nanos()
  {
    FixedWidth(t);
    FixedWidth(u);
    OrderPreserving(t, u);
  }

  /** One second past the range text order is wrong: 9999999 is before 10000000, its text is after. */
  lemma OrderBreaksPastRange()
    ensures var t, u := Time(9_999_999, 0), Time(10_000_000, 0);
      t.Nanos() < u.Nanos() && !LexLess(Text(t), Text(u)) && LexLess(Text(u), Text(t))
  {}

  /** Text order is time order for every pair of stamps with seconds below `limit`. */
  ghost predicate SortsAsText(limit: nat) {
    forall t: Time, u: Time :: t.Valid() && u.Valid() && t.sec < limit && u.sec < limit ==>
      (LexLess(Text(t), Text(u)) <==> t.Nanos() < u.Nanos())
  }

  /** Logs can be sorted as text exactly as long as the seconds stay below 10^7. */
  lemma SortableIff(limit: nat)
    ensures SortsAsText(limit) <==> limit <= 10_000_000
  {
    if limit <= 10_000_000 {
      forall t: Time, u: Time | t.Valid() && u.Valid() && t.sec < limit && u.sec < limit
        ensures LexLess(Text(t), Text(u)) <==> t.Nanos() < u.Nanos()
      {
        OrderInRange(t, u);
      }
    } else {
      OrderBreaksPastRange();
      hide Text;
      var t, u := Time(9_999_999, 0), Time(10_000_000, 0);
      assert t.Valid() && u.Valid();
    }
  }
}
