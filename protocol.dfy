/**
 * The case number ("protocolo") a new manifestation receives: the local
 * calendar date followed by the last five characters of the millisecond
 * clock.
 */
module Protocols {
  import opened Wrappers
  import opened Digits

  /**
   * The clock readings the protocol expression makes: `getFullYear()`,
   * `getMonth()` (0-based), `getDate()` of `new Date()`, and `Date.now()`.
   * They are four separate readings, taken here as four inputs.
   */
  datatype Clock = Clock(year: nat, month: nat, day: nat, epochMillis: nat)

  /** What a 13-digit protocol spells: year, 1-based month, day, clock suffix. */
  datatype Fields = Fields(year: nat, month: nat, day: nat, suffix: nat)

  /** The protocol string; always made of decimal digits. */
  function Protocol(c: Clock): (p: string)
    ensures AllDigits(p)
  {
    Decimal(c.year)
      + PadStart(Decimal(c.month + 1), 2, '0')
      + PadStart(Decimal(c.day), 2, '0')
      + Last(Decimal(c.epochMillis), 5)
  }

  /**
   * A clock reading in the range the format is designed for: a four-digit
   * year, a month index and a day of month as the Date API returns them,
   * and a millisecond clock of at least five digits.
   */
  predicate Designed(c: Clock)
  {
    1000 <= c.year < 10000 && c.month < 12 && 1 <= c.day <= 31 && c.epochMillis >= 10000
  }

  /** Reads a protocol back into its fields; `None` unless it is thirteen digits. */
  function Decode(p: string): (r: Option<Fields>)
    ensures r.Some? <==> |p| == 13 && AllDigits(p)
  {
    if |p| == 13 && AllDigits(p) then
      Some(Fields(Parse(p[..4]), Parse(p[4..6]), Parse(p[6..8]), Parse(p[8..])))
    else
      None
  }

  lemma SmallPowers()
    ensures Pow10(2) == 100 && Pow10(3) == 1000 && Pow10(4) == 10000 && Pow10(5) == 100000
  {
    assert Pow10(1) == 10;
  }

  lemma YearPart(year: nat)
    requires 1000 <= year < 10000
    ensures Decimal(year) == Fixed(year, 4)
  {
    SmallPowers();
    DecimalLength(year, 3);
    DecimalLength(year, 4);
    PadDecimal(year, 4);
  }

  lemma TwoDigitPart(n: nat)
    requires n < 100
    ensures PadStart(Decimal(n), 2, '0') == Fixed(n, 2)
  {
    SmallPowers();
    PadDecimal(n, 2);
  }

  lemma SuffixPart(t: nat)
    requires t >= 10000
    ensures Last(Decimal(t), 5) == Fixed(t, 5)
  {
    SmallPowers();
    LastOfDecimal(t, 5);
  }

  /** Within the designed range every part has its fixed width. */
  lemma ProtocolParts(c: Clock)
    requires Designed(c)
    ensures Protocol(c) == Fixed(c.year, 4) + Fixed(c.month + 1, 2) + Fixed(c.day, 2) + Fixed(c.epochMillis, 5)
  {
    var y, m, d, t := Decimal(c.year), PadStart(Decimal(c.month + 1), 2, '0'),
      PadStart(Decimal(c.day), 2, '0'), Last(Decimal(c.epochMillis), 5);
    assert Protocol(c) == y + m + d + t;
    YearPart(c.year);
    TwoDigitPart(c.month + 1);
    TwoDigitPart(c.day);
    SuffixPart(c.epochMillis);
  }

  /** Within the designed range the protocol is exactly 13 digits long. */
  lemma ProtocolLength(c: Clock)
    requires Designed(c)
    ensures |Protocol(c)| == 13
  {
    ProtocolParts(c);
  }

  lemma Slices(a: string, b: string, c: string, d: string)
    ensures var s := a + b + c + d;
      && s[..|a|] == a && s[|a|..|a| + |b|] == b
      && s[|a| + |b|..|a| + |b| + |c|] == c && s[|a| + |b| + |c|..] == d
  {
  }

  /** The protocol can be read back: date parts as given, and the clock modulo 100000. */
  lemma DecodeProtocol(c: Clock)
    requires Designed(c)
    ensures Decode(Protocol(c)) == Some(Fields(c.year, c.month + 1, c.day, c.epochMillis % 100000))
  {
    var p := Protocol(c);
    var y, m, d, t := Fixed(c.year, 4), Fixed(c.month + 1, 2), Fixed(c.day, 2), Fixed(c.epochMillis, 5);
    ProtocolParts(c);
    assert p == y + m + d + t;
    Slices(y, m, d, t);
    assert |y| == 4 && |m| == 2 && |d| == 2 && |t| == 5;
    assert p[..4] == y;
    assert p[4..6] == m;
    assert p[6..8] == d;
    assert p[8..] == t;
    SmallPowers();
    ParseFixedSmall(c.year, 4);
    ParseFixedSmall(c.month + 1, 2);
    ParseFixedSmall(c.day, 2);
    ParseFixed(c.epochMillis, 5);
    assert Decode(p) == Some(Fields(Parse(y), Parse(m), Parse(d), Parse(t)));
  }

  /**
   * Two designed clock readings give the same protocol exactly when they
   * fall on the same calendar day and their millisecond clocks agree
   * modulo 100000, that is, are a whole number of 100-second periods apart.
   */
  lemma ProtocolCollision(c: Clock, d: Clock)
    requires Designed(c) && Designed(d)
    ensures Protocol(c) == Protocol(d) <==>
      c.year == d.year && c.month == d.month && c.day == d.day
      && c.epochMillis % 100000 == d.epochMillis % 100000
  {
    if Protocol(c) == Protocol(d) {
      DecodeProtocol(c);
      DecodeProtocol(d);
    }
    if c.year == d.year && c.month == d.month && c.day == d.day
      && c.epochMillis % 100000 == d.epochMillis % 100000
    {
      ProtocolParts(c);
      ProtocolParts(d);
      SmallPowers();
      FixedEqual(c.epochMillis, d.epochMillis, 5);
    }
  }
}
