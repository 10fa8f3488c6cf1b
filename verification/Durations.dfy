/** `format_duration` of `src/rate_limit.rs`, with a decoder that reads the text back. */
module Durations {
  import opened Text
  import opened Units
  import opened Wrappers

  // ---- Decimal numerals ----

  function Digit(d: nat): char
    requires d < 10
  {
    ('0' as int + d) as char
  }

  predicate IsDigit(c: char) {
    '0' <= c <= '9'
  }

  function DigitValue(c: char): nat
    requires IsDigit(c)
  {
    c as int - '0' as int
  }

  /** The numeral Rust prints for an unsigned integer. */
  function Decimal(n: nat): string {
    if n < 10 then [Digit(n)] else Decimal(n / 10) + [Digit(n % 10)]
  }

  function NumeralValue(s: string): nat
    requires forall i :: 0 <= i < |s| ==> IsDigit(s[i])
  {
    if s == "" then 0 else 10 * NumeralValue(s[..|s| - 1]) + DigitValue(s[|s| - 1])
  }

  /** Length of the leading run of digits. */
  function DigitRun(s: string): (k: nat)
    ensures k <= |s|
    ensures forall i :: 0 <= i < k ==> IsDigit(s[i])
    ensures k < |s| ==> !IsDigit(s[k])
  {
    if s == "" || !IsDigit(s[0]) then 0 else 1 + DigitRun(s[1..])
  }

  lemma {:induction false} DecimalIsNumeral(n: nat)
    ensures Decimal(n) != ""
    ensures forall i :: 0 <= i < |Decimal(n)| ==> IsDigit(Decimal(n)[i])
    ensures NumeralValue(Decimal(n)) == n
  {
    if n >= 10 {
      DecimalIsNumeral(n / 10);
      assert Decimal(n)[..|Decimal(n)| - 1] == Decimal(n / 10);
    }
  }

  /** There is no other numeral for `n` without leading zeros. */
  lemma {:induction false} DecimalIsUnique(s: string)
    requires s != "" && (forall i :: 0 <= i < |s| ==> IsDigit(s[i])) && (s[0] == '0' ==> s == "0")
    ensures Decimal(NumeralValue(s)) == s
    decreases |s|
  {
    var n, init, last := NumeralValue(s), s[..|s| - 1], DigitValue(s[|s| - 1]);
    assert Digit(last) == s[|s| - 1];
    if init == "" {
      assert NumeralValue(init) == 0;
    } else {
      DecimalIsUnique(init);
      NumeralIsPositive(init);
      assert n / 10 == NumeralValue(init) && n % 10 == last;
    }
  }

  lemma {:induction false} NumeralIsPositive(s: string)
    requires s != "" && (forall i :: 0 <= i < |s| ==> IsDigit(s[i])) && s[0] != '0'
    ensures NumeralValue(s) > 0
    decreases |s|
  {
    if |s| > 1 {
      NumeralIsPositive(s[..|s| - 1]);
    }
  }

  lemma DigitRunIsUnique(s: string, k: nat)
    requires k <= |s| && (forall i :: 0 <= i < k ==> IsDigit(s[i])) && (k < |s| ==> !IsDigit(s[k]))
    ensures DigitRun(s) == k
  {}

  // ---- Printing ----

  function Plural(n: nat): string {
    if n == 1 then "" else "s"
  }

  function Amount(n: nat, unit: string): string {
    Decimal(n) + (" " + unit + Plural(n))
  }

  function FormatMinutes(m: nat, sec: nat): string {
    if sec == 0 then Amount(m, "minute") else Amount(m, "minute") + (" and " + Amount(sec, "second"))
  }

  function FormatDuration(duration: Duration): string {
    FormatSeconds(WholeSeconds(duration))
  }

  function FormatSeconds(total: nat): string {
    if total < 60 then
      Amount(total, "second")
    else if total < 3600 then
      FormatMinutes(total / 60, total % 60)
    else
      Amount(total / 3600, "hour")
  }

  // ---- Reading back ----

  /** Reads a numeral, a space, and the unit in the number (singular or plural) that fits. */
  function ReadAmount(s: string, unit: string): Option<(nat, string)> {
    var k := DigitRun(s);
    if k == 0 then None else
    var n := NumeralValue(s[..k]);
    match StripPrefix(s[k..], " " + unit + Plural(n))
    case None => None
    case Some(rest) => Some((n, rest))
  }

  /** What may follow an amount of minutes: nothing, or an amount of seconds. */
  function DecodeTail(m: nat, tail: string): Option<nat> {
    if tail == "" then Some(60 * m) else
    match StripPrefix(tail, " and ")
    case None => None
    case Some(amount) =>
      match ReadAmount(amount, "second")
      case Some((sec, end)) => if end == "" then Some(60 * m + sec) else None
      case None => None
  }

  /** The number of seconds named by a text, or `None` for a text no duration prints as. */
  function DecodeDuration(s: string): Option<nat> {
    match ReadAmount(s, "hour")
    case Some((h, rest)) => if rest == "" then Some(3600 * h) else None
    case None =>
      match ReadAmount(s, "second")
      case Some((sec, rest)) => if rest == "" then Some(sec) else None
      case None =>
        match ReadAmount(s, "minute")
        case Some((m, rest)) => DecodeTail(m, rest)
        case None => None
  }

  lemma ReadsAmount(n: nat, unit: string, rest: string)
    ensures ReadAmount(Amount(n, unit) + rest, unit) == Some((n, rest))
  {
    DecimalIsNumeral(n);
    var d, u := Decimal(n), " " + unit + Plural(n);
    var s := Amount(n, unit) + rest;
    assert s == d + (u + rest);
    assert s[|d|] == ' ';
    assert forall i :: 0 <= i < |d| ==> s[i] == d[i];
    DigitRunIsUnique(s, |d|);
    assert s[..|d|] == d && s[|d|..] == u + rest;
    assert u <= u + rest && (u + rest)[|u|..] == rest;
  }

  lemma RejectsOtherUnit(n: nat, unit: string, other: string, rest: string)
    requires unit != "" && other != "" && unit[0] != other[0]
    ensures ReadAmount(Amount(n, unit) + rest, other) == None
  {
    DecimalIsNumeral(n);
    var d, u := Decimal(n), " " + unit + Plural(n);
    var s := Amount(n, unit) + rest;
    assert s == d + (u + rest);
    assert s[|d|] == ' ';
    assert forall i :: 0 <= i < |d| ==> s[i] == d[i];
    DigitRunIsUnique(s, |d|);
    assert s[|d|..][1] == unit[0];
    var v := " " + other + Plural(NumeralValue(s[..|d|]));
    assert v[1] == other[0];
  }

  /** Below an hour the text is exact to the second; from an hour up it keeps whole hours only. */
  function Announced(duration: Duration): nat {
    var total := WholeSeconds(duration);
    if total < 3600 then total else 3600 * (total / 3600)
  }

  lemma ReadsSeconds(total: nat)
    ensures DecodeDuration(Amount(total, "second")) == Some(total)
  {
    assert Amount(total, "second") + "" == Amount(total, "second");
    RejectsOtherUnit(total, "second", "hour", "");
    ReadsAmount(total, "second", "");
  }

  lemma ReadsTail(m: nat, sec: nat)
    ensures DecodeTail(m, " and " + Amount(sec, "second")) == Some(60 * m + sec)
  {
    var amount := Amount(sec, "second");
    var tail := " and " + amount;
    assert tail[|" and "|..] == amount;
    assert amount + "" == amount;
    ReadsAmount(sec, "second", "");
  }

  lemma ReadsMinutesThen(m: nat, tail: string)
    ensures DecodeDuration(Amount(m, "minute") + tail) == DecodeTail(m, tail)
  {
    RejectsOtherUnit(m, "minute", "hour", tail);
    RejectsOtherUnit(m, "minute", "second", tail);
    ReadsAmount(m, "minute", tail);
  }

  lemma ReadsWholeMinutes(m: nat)
    ensures DecodeDuration(Amount(m, "minute")) == Some(60 * m)
  {
    assert Amount(m, "minute") + "" == Amount(m, "minute");
    ReadsMinutesThen(m, "");
  }

  lemma ReadsMinutesAndSeconds(m: nat, sec: nat)
    ensures DecodeDuration(Amount(m, "minute") + (" and " + Amount(sec, "second"))) == Some(60 * m + sec)
  {
    var tail := " and " + Amount(sec, "second");
    ReadsMinutesThen(m, tail);
    ReadsTail(m, sec);
  }

  lemma ReadsMinutes(m: nat, sec: nat, text: string)
    requires text == FormatMinutes(m, sec)
    ensures DecodeDuration(text) == Some(60 * m + sec)
  {
    if sec == 0 {
      ReadsWholeMinutes(m);
    } else {
      ReadsMinutesAndSeconds(m, sec);
    }
  }

  lemma ReadsHours(h: nat)
    ensures DecodeDuration(Amount(h, "hour")) == Some(3600 * h)
  {
    assert Amount(h, "hour") + "" == Amount(h, "hour");
    ReadsAmount(h, "hour", "");
  }

  lemma SecondsRoundTrip(total: nat)
    ensures DecodeDuration(FormatSeconds(total)) == Some(if total < 3600 then total else 3600 * (total / 3600))
  {
    if total < 60 {
      ReadsSeconds(total);
    } else if total < 3600 {
      ReadsMinutes(total / 60, total % 60, FormatSeconds(total));
    } else {
      ReadsHours(total / 3600);
    }
  }

  lemma FormatRoundTrip(duration: Duration)
    ensures DecodeDuration(FormatDuration(duration)) == Some(Announced(duration))
  {
    SecondsRoundTrip(WholeSeconds(duration));
  }

  lemma SecondsSpelledOut(n: nat)
    ensures Amount(n, "second") == if n == 1 then "1 second" else Decimal(n) + " seconds"
  {
    assert Decimal(1) == "1" && " second" + "" == " second" && " second" + "s" == " seconds";
    assert "1" + " second" == "1 second";
  }

  lemma MinutesSpelledOut(n: nat)
    ensures Amount(n, "minute") == if n == 1 then "1 minute" else Decimal(n) + " minutes"
  {
    assert Decimal(1) == "1" && " minute" + "" == " minute" && " minute" + "s" == " minutes";
    assert "1" + " minute" == "1 minute";
  }

  lemma HoursSpelledOut(n: nat)
    ensures Amount(n, "hour") == if n == 1 then "1 hour" else Decimal(n) + " hours"
  {
    assert Decimal(1) == "1" && " hour" + "" == " hour" && " hour" + "s" == " hours";
    assert "1" + " hour" == "1 hour";
  }

  /** The text, letter by letter: each unit in the number that fits, and seconds behind minutes only. */
  lemma FormatSpelledOut(duration: Duration)
    ensures var total := duration / 1_000_000_000;
            FormatDuration(duration) ==
              if total == 1 then "1 second"
              else if total < 60 then Decimal(total) + " seconds"
              else if total < 3600 then
                var minutes := if total / 60 == 1 then "1 minute" else Decimal(total / 60) + " minutes";
                if total % 60 == 0 then minutes
                else minutes + (" and " + if total % 60 == 1 then "1 second" else Decimal(total % 60) + " seconds")
              else if total / 3600 == 1 then "1 hour"
              else Decimal(total / 3600) + " hours"
  {
    var total := WholeSeconds(duration);
    if total < 60 {
      SecondsSpelledOut(total);
    } else if total < 3600 {
      MinutesSpelledOut(total / 60);
      SecondsSpelledOut(total % 60);
    } else {
      HoursSpelledOut(total / 3600);
    }
  }

  /** Two durations print alike exactly when they announce the same number of seconds. */
  lemma FormatCollisions(a: Duration, b: Duration)
    ensures FormatDuration(a) == FormatDuration(b) <==> Announced(a) == Announced(b)
  {
    FormatRoundTrip(a);
    FormatRoundTrip(b);
    assert WholeSeconds(a) >= 3600 ==> WholeSeconds(a) / 3600 == Announced(a) / 3600;
    assert WholeSeconds(b) >= 3600 ==> WholeSeconds(b) / 3600 == Announced(b) / 3600;
  }
}
