/**
 User IDs are text everywhere except in the grouped unread counts, where they are
 scanned into an int64 and printed back with "%d". This module is that round trip.
 */
module UserIds {
  import opened Types

  const INT64_MIN: int := -0x8000_0000_0000_0000
  const INT64_MAX: int := 0x7FFF_FFFF_FFFF_FFFF

  predicate IsDigits(s: string) {
    forall i | 0 <= i < |s| :: '0' <= s[i] <= '9'
  }

  /** The number written by a run of decimal digits. */
  function Value(s: string): nat
    requires IsDigits(s)
  {
    if s == "" then 0
    else Value(s[..|s| - 1]) * 10 + (s[|s| - 1] as int - '0' as int)
  }

  function Signed(negative: bool, magnitude: int): int {
    if negative then -magnitude else magnitude
  }

  predicate InInt64(n: int) {
    INT64_MIN <= n <= INT64_MAX
  }

  /** Base-10 int64 parsing: optional sign, at least one digit, leading zeros allowed, range checked. */
  function ParseInt64(s: string): Option<int> {
    var body := if s != "" && (s[0] == '-' || s[0] == '+') then s[1..] else s;
    if body == "" || !IsDigits(body) then None
    else
      var n := Signed(s[0] == '-', Value(body));
      if InInt64(n) then Some(n) else None
  }

  function Digits(n: nat): string {
    var low := (n % 10 + '0' as int) as char;
    if n < 10 then [low] else Digits(n / 10) + [low]
  }

  /** The "%d" rendering. */
  function FormatInt(n: int): string {
    if n < 0 then "-" + Digits(-n) else Digits(n)
  }

  /** Scanned into an int64 and printed back; None when the scan fails. */
  function Trip(s: string): Option<string> {
    match ParseInt64(s)
    case None => None
    case Some(n) => Some(FormatInt(n))
  }

  /** No plus sign, no leading zero, no minus zero, within int64. */
  predicate Canonical(s: string) {
    var negative := s != "" && s[0] == '-';
    var body := if negative then s[1..] else s;
    && body != ""
    && IsDigits(body)
    && (body[0] == '0' ==> s == "0")
    && InInt64(Signed(negative, Value(body)))
  }

  lemma {:induction false} ValueOfDigits(n: nat)
    ensures IsDigits(Digits(n)) && Value(Digits(n)) == n
    ensures Digits(n) != "" && (Digits(n)[0] == '0' ==> n == 0)
    decreases n
  {
    if n >= 10 {
      ValueOfDigits(n / 10);
      var s := Digits(n);
      assert s[..|s| - 1] == Digits(n / 10);
    }
  }

  lemma {:induction false} DigitsOfValue(s: string)
    requires s != "" && IsDigits(s) && (s[0] == '0' ==> |s| == 1)
    ensures Digits(Value(s)) == s
    ensures |s| > 1 || s[0] != '0' ==> Value(s) > 0
    decreases |s|
  {
    var init, last := s[..|s| - 1], s[|s| - 1];
    assert s == init + [last];
    if |s| == 1 {
      assert init == "" && Value(init) == 0;
    } else {
      DigitsOfValue(init);
      assert Value(s) / 10 == Value(init);
    }
  }

  /** Printing then parsing is the identity on int64, and every printed form is canonical. */
  lemma PrintThenParse(n: int)
    requires InInt64(n)
    ensures Canonical(FormatInt(n)) && ParseInt64(FormatInt(n)) == Some(n)
  {
    var magnitude := if n < 0 then -n else n;
    ValueOfDigits(magnitude);
    var s := FormatInt(n);
    if n < 0 {
      assert s[1..] == Digits(magnitude);
    } else if Digits(magnitude)[0] == '0' {
      assert s == "0";
    }
  }

  lemma CanonicalTrips(s: string)
    requires Canonical(s)
    ensures Trip(s) == Some(s)
  {
    var negative := s[0] == '-';
    var body := if negative then s[1..] else s;
    DigitsOfValue(body);
    if negative {
      assert s == "-" + body;
    } else {
      assert '0' <= s[0] <= '9';
    }
  }

  /** The int64 trip maps a user ID to itself exactly when it is a canonical int64 decimal. */
  lemma TripIsIdentityIffCanonical(s: string)
    ensures Trip(s) == Some(s) <==> Canonical(s)
  {
    if Canonical(s) {
      CanonicalTrips(s);
    } else if ParseInt64(s).Some? {
      PrintThenParse(ParseInt64(s).value);
    }
  }

  lemma TripIsCanonical(s: string)
    ensures Trip(s).Some? ==> Canonical(Trip(s).value)
  {
    if ParseInt64(s).Some? {
      PrintThenParse(ParseInt64(s).value);
    }
  }

  lemma {:induction false} LeadingZero(d: string)
    requires IsDigits(d)
    ensures IsDigits("0" + d) && Value("0" + d) == Value(d)
    decreases |d|
  {
    if d == "" {
      assert ("0" + d)[..0] == "";
    } else {
      LeadingZero(d[..|d| - 1]);
      assert ("0" + d)[..|d|] == "0" + d[..|d| - 1];
    }
  }

  /** Digits parse to their value, when it is in range. */
  lemma DigitsParse(d: string)
    requires d != "" && IsDigits(d)
    ensures ParseInt64(d) == if InInt64(Value(d)) then Some(Value(d)) else None
  {
    assert '0' <= d[0] <= '9';
  }

  /** So do signed digits, with the sign in front of the value. */
  lemma SignedParse(sign: char, d: string)
    requires sign == '-' || sign == '+'
    requires d != "" && IsDigits(d)
    ensures var n := if sign == '-' then 0 - Value(d) else Value(d);
            ParseInt64([sign] + d) == if InInt64(n) then Some(n) else None
  {
    var s := [sign] + d;
    assert s[0] == sign && s[1..] == d;
  }

  /** A plus sign and leading zeros change nothing. */
  lemma SignsAndZeros(d: string)
    requires d != "" && IsDigits(d)
    ensures ParseInt64("+" + d) == ParseInt64(d) == ParseInt64("0" + d)
  {
    LeadingZero(d);
    DigitsParse(d);
    DigitsParse("0" + d);
    SignedParse('+', d);
  }

  /** And nothing else parses. */
  lemma OnlyDigitsParse(s: string)
    requires ParseInt64(s).Some?
    ensures exists d :: d != "" && IsDigits(d) && (s == d || s == "+" + d || s == "-" + d)
  {
    if s[0] == '-' || s[0] == '+' {
      assert s == [s[0]] + s[1..];
    }
  }
}
