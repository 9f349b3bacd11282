/**
  parseDurationWithDays (config/config.go): day counts multiplied in 64-bit arithmetic, with no
  overflow guard. Durations are nanoseconds.
 */
module Duration {
  import opened Outcome
  import opened PortGrammar

  const TWO63 := 0x8000_0000_0000_0000
  const TWO64 := 0x1_0000_0000_0000_0000
  const DAY := 86_400_000_000_000

  /** The value of an int64 product. */
  function Wrap(n: int): (w: int)
    ensures -TWO63 <= w < TWO63
    ensures -TWO63 <= n < TWO63 ==> w == n
  {
    var m := n % TWO64;
    if m >= TWO63 then m - TWO64 else m
  }

  function DigitValue(c: char): Option<nat>
  {
    if '0' <= c <= '9' then Some(c as int - '0' as int) else None
  }

  /** A non-empty run of decimal digits. */
  function ParseDigits(s: string): Option<nat>
  {
    if s == [] then None
    else
      var low :- DigitValue(s[|s| - 1]);
      if |s| == 1 then Some(low)
      else
        var high :- ParseDigits(s[..|s| - 1]);
        Some(10 * high + low)
  }

  /** strconv.Atoi: an optional sign, decimal digits, an int64. */
  function Atoi(s: string): Option<int>
  {
    var negative := s != [] && s[0] == '-';
    var digits := if s != [] && (s[0] == '-' || s[0] == '+') then s[1..] else s;
    var n: int :- ParseDigits(digits);
    var v: int := if negative then -n else n;
    if -TWO63 <= v < TWO63 then Some(v) else None
  }

  /** parseDurationWithDays; `parse` is time.ParseDuration. */
  function ParseWithDays(parse: string -> Option<int>, s: string): Option<int>
  {
    if s != [] && s[|s| - 1] == 'd' then
      var n :- Atoi(s[..|s| - 1]);
      Some(Wrap(n * DAY))
    else parse(s)
  }

  lemma {:induction false} DigitsParse(n: nat)
    ensures Digits(n) != [] && '0' <= Digits(n)[0] <= '9'
    ensures ParseDigits(Digits(n)) == Some(n)
  {
    if n >= 10 {
      DigitsParse(n / 10);
      var front, last := Digits(n / 10), ('0' as int + n % 10) as char;
      assert Digits(n) == front + [last];
      assert (front + [last])[..|front|] == front;
      assert DigitValue(last) == Some(n % 10);
    }
  }

  /** Itoa then Atoi. */
  lemma AtoiDigits(n: nat)
    requires n < TWO63
    ensures Atoi(Digits(n)) == Some(n)
  {
    DigitsParse(n);
  }

  /** Whatever Atoi reads as n, signed or padded, followed by "d" is n days wrapped, exact when n days fit an int64. */
  lemma DaysRead(parse: string -> Option<int>, s: string)
    ensures match Atoi(s)
      case None => ParseWithDays(parse, s + "d") == None
      case Some(n) =>
        && ParseWithDays(parse, s + "d") == Some(Wrap(n * DAY))
        && (ParseWithDays(parse, s + "d") == Some(n * DAY) <==> -106_751 <= n <= 106_751)
  {
    assert (s + "d")[..|s + "d"| - 1] == s;
    if Atoi(s).Some? { WrapExact(Atoi(s).value); }
  }

  /** A day count written in plain digits is read so. */
  lemma DaysReadBack(parse: string -> Option<int>, n: nat)
    requires n < TWO63
    ensures ParseWithDays(parse, Digits(n) + "d") == Some(Wrap(n * DAY))
    ensures ParseWithDays(parse, Digits(n) + "d") == Some(n * DAY) <==> n <= 106_751
  {
    AtoiDigits(n);
    DaysRead(parse, Digits(n));
  }

  lemma WrapExact(n: int)
    ensures Wrap(n * DAY) == n * DAY <==> -106_751 <= n <= 106_751
  {
    if n > 106_751 {
      assert n * DAY >= 106_752 * DAY;
    } else if n < -106_751 {
      assert n * DAY <= -106_752 * DAY;
    } else {
      assert -106_751 * DAY <= n * DAY <= 106_751 * DAY;
    }
  }

  /** Beyond that the product wraps, to either sign. */
  lemma DaysWrap()
    ensures Wrap(106_752 * DAY) < 0
    ensures 0 < Wrap(213_504 * DAY) < DAY
  {
  }
}
