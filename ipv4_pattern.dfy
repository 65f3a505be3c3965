/** The two IPv4 patterns returned by BannedCoreCron::regexpIP, as hand-written
    recognisers.  Each pattern is four copies of one octet alternation joined by
    escaped dots, with no anchors, so PCRE reports a match as soon as SOME
    substring of the subject has the form octet "." octet "." octet "." octet.

    The language of each pattern is given twice: `Matches` states it directly
    (some substring is a + "." + b + "." + c + "." + d for four octets), and
    `Recognise` decides it by checking every substring, cutting it at its dots.
    `RecogniseIsMatches` proves the two agree. */
module IPv4Pattern {

  predicate IsDigit(c: char) { '0' <= c <= '9' }

  predicate AllDigits(s: string) { forall k :: 0 <= k < |s| ==> IsDigit(s[k]) }

  /** Strict octet: `25[0-5]|2[0-4][0-9]|1[0-9][0-9]|[1-9]?[0-9]`, one disjunct per
      alternative (the last alternative is written as its one- and two-character forms). */
  predicate StrictOctet(s: string) {
    (|s| == 3 && s[0] == '2' && s[1] == '5' && '0' <= s[2] <= '5')
    || (|s| == 3 && s[0] == '2' && '0' <= s[1] <= '4' && IsDigit(s[2]))
    || (|s| == 3 && s[0] == '1' && IsDigit(s[1]) && IsDigit(s[2]))
    || (|s| == 1 && IsDigit(s[0]))
    || (|s| == 2 && '1' <= s[0] <= '9' && IsDigit(s[1]))
  }

  /** Lax octet: `25[0-5]|2[0-9][0-9]|[01]?[0-9][0-9]?`; the last alternative has the
      four forms d, dd, [01]d and [01]dd. */
  predicate LaxOctet(s: string) {
    (|s| == 3 && s[0] == '2' && s[1] == '5' && '0' <= s[2] <= '5')
    || (|s| == 3 && s[0] == '2' && IsDigit(s[1]) && IsDigit(s[2]))
    || (|s| == 1 && IsDigit(s[0]))
    || (|s| == 2 && IsDigit(s[0]) && IsDigit(s[1]))
    || (|s| == 2 && (s[0] == '0' || s[0] == '1') && IsDigit(s[1]))
    || (|s| == 3 && (s[0] == '0' || s[0] == '1') && IsDigit(s[1]) && IsDigit(s[2]))
  }

  /** The octet language of regexpIP($bStrict). */
  predicate Octet(s: string, strict: bool) {
    if strict then StrictOctet(s) else LaxOctet(s)
  }

  lemma {:induction false} OctetShape(s: string, strict: bool)
    requires Octet(s, strict)
    ensures 1 <= |s| <= 3 && AllDigits(s)
  {
  }

  // ---------------------------------------------------------------------------
  // Decimal numerals, to say which numbers the octet languages denote

  function DigitValue(c: char): (d: nat)
    requires IsDigit(c)
    ensures d < 10
  {
    c as int - '0' as int
  }

  function DigitChar(d: nat): (c: char)
    requires d < 10
    ensures IsDigit(c) && DigitValue(c) == d
  {
    ('0' as int + d) as char
  }

  /** The number a digit string denotes, read most significant digit first. */
  function DecimalValue(s: string): (n: nat)
    requires AllDigits(s)
  {
    if s == [] then 0 else 10 * DecimalValue(s[..|s| - 1]) + DigitValue(s[|s| - 1])
  }

  /** The canonical numeral of n: no leading zero (except "0" itself). */
  function DecimalString(n: nat): (s: string)
    ensures 1 <= |s| && AllDigits(s)
    ensures |s| == 1 || s[0] != '0'
  {
    if n < 10 then [DigitChar(n)] else DecimalString(n / 10) + [DigitChar(n % 10)]
  }

  lemma {:induction false} DecimalRoundTrip(n: nat)
    ensures DecimalValue(DecimalString(n)) == n
  {
    if n >= 10 {
      DecimalRoundTrip(n / 10);
      var s := DecimalString(n);
      assert s[..|s| - 1] == DecimalString(n / 10);
    }
  }

  lemma {:induction false} DecimalStringShapes(n: nat)
    ensures n < 10 ==> DecimalString(n) == [DigitChar(n)]
    ensures 10 <= n < 100 ==> DecimalString(n) == [DigitChar(n / 10), DigitChar(n % 10)]
    ensures 100 <= n < 1000 ==>
      DecimalString(n) == [DigitChar(n / 100), DigitChar(n / 10 % 10), DigitChar(n % 10)]
  {
    if 100 <= n < 1000 {
      DecimalStringShapes(n / 10);
      assert n / 10 / 10 == n / 100;
    }
  }

  lemma {:induction false} DecimalValueShapes(s: string)
    requires AllDigits(s)
    ensures |s| == 1 ==> DecimalValue(s) == DigitValue(s[0])
    ensures |s| == 2 ==> DecimalValue(s) == 10 * DigitValue(s[0]) + DigitValue(s[1])
    ensures |s| == 3 ==> DecimalValue(s) == 100 * DigitValue(s[0]) + 10 * DigitValue(s[1]) + DigitValue(s[2])
  {
    if 2 <= |s| <= 3 {
      var init := s[..|s| - 1];
      DecimalValueShapes(init);
      assert init[..|init| - 1] == s[..|s| - 2];
    } else if |s| == 1 {
      assert s[..0] == [];
    }
  }

  lemma {:induction false} DigitCharOfValue(c: char)
    requires IsDigit(c)
    ensures DigitChar(DigitValue(c)) == c
  {
  }

  lemma {:induction false} ThreeDigitArithmetic(a: nat, b: nat, c: nat)
    requires a < 10 && b < 10 && c < 10
    ensures (100 * a + 10 * b + c) / 100 == a
    ensures (100 * a + 10 * b + c) / 10 % 10 == b
    ensures (100 * a + 10 * b + c) % 10 == c
  {
    var v := 100 * a + 10 * b + c;
    assert v == (10 * a + b) * 10 + c;
    assert v / 10 == 10 * a + b;
    assert v == a * 100 + (10 * b + c);
  }

  lemma {:induction false} TwoDigitArithmetic(a: nat, b: nat)
    requires a < 10 && b < 10
    ensures (10 * a + b) / 10 == a && (10 * a + b) % 10 == b
  {
  }

  lemma {:induction false} ThreeDigitNumeral(s: string)
    requires AllDigits(s) && |s| == 3 && s[0] != '0'
    ensures DecimalString(DecimalValue(s)) == [s[0], s[1], s[2]]
  {
    var a, b, c := DigitValue(s[0]), DigitValue(s[1]), DigitValue(s[2]);
    DecimalValueShapes(s);
    assert 1 <= a;
    ThreeDigitArithmetic(a, b, c);
    DecimalStringShapes(100 * a + 10 * b + c);
    DigitCharOfValue(s[0]);
    DigitCharOfValue(s[1]);
    DigitCharOfValue(s[2]);
  }

  lemma {:induction false} TwoDigitNumeral(s: string)
    requires AllDigits(s) && |s| == 2 && s[0] != '0'
    ensures DecimalString(DecimalValue(s)) == [s[0], s[1]]
  {
    var a, b := DigitValue(s[0]), DigitValue(s[1]);
    DecimalValueShapes(s);
    assert 1 <= a;
    TwoDigitArithmetic(a, b);
    DecimalStringShapes(10 * a + b);
    DigitCharOfValue(s[0]);
    DigitCharOfValue(s[1]);
  }

  /** A digit string of length 1 to 3 without a leading zero (other than "0") is the
      canonical numeral of its value. */
  lemma {:induction false} ShortNumeralIsCanonical(s: string)
    requires AllDigits(s) && 1 <= |s| <= 3 && (|s| == 1 || s[0] != '0')
    ensures DecimalString(DecimalValue(s)) == s
  {
    if |s| == 3 {
      ThreeDigitNumeral(s);
      assert s == [s[0], s[1], s[2]];
    } else if |s| == 2 {
      TwoDigitNumeral(s);
      assert s == [s[0], s[1]];
    } else {
      DecimalValueShapes(s);
      DecimalStringShapes(DecimalValue(s));
      DigitCharOfValue(s[0]);
      assert s == [s[0]];
    }
  }

  /** Every strict octet is the canonical numeral of a number from 0 to 255. */
  lemma {:induction false} StrictOctetIsByteNumeral(s: string)
    requires StrictOctet(s)
    ensures AllDigits(s) && DecimalValue(s) <= 255
    ensures DecimalString(DecimalValue(s)) == s
  {
    DecimalValueShapes(s);
    ShortNumeralIsCanonical(s);
  }

  /** The strict octets are exactly the canonical numerals of 0 to 255. */
  lemma {:induction false} StrictOctetsAreByteNumerals(n: nat)
    ensures StrictOctet(DecimalString(n)) <==> n <= 255
  {
    DecimalStringShapes(n);
    if StrictOctet(DecimalString(n)) {
      StrictOctetIsByteNumeral(DecimalString(n));
      DecimalRoundTrip(n);
    }
  }

  /** The lax octets are the digit strings of length 1 or 2 and those of length 3
      that start with 0, 1 or 2. */
  lemma {:induction false} LaxOctetShape(s: string)
    ensures LaxOctet(s) <==>
      AllDigits(s) && 1 <= |s| <= 3 && (|s| == 3 ==> '0' <= s[0] <= '2')
  {
  }

  /** The lax pattern admits every strict octet. */
  lemma {:induction false} StrictOctetIsLax(s: string)
    requires StrictOctet(s)
    ensures LaxOctet(s)
  {
  }

  /** The lax octets denote at most 299: the canonical numerals of 256 to 299 are
      accepted, and so are forms with leading zeros such as "010". */
  lemma {:induction false} LaxOctetValue(s: string)
    requires LaxOctet(s)
    ensures AllDigits(s) && DecimalValue(s) <= 299
  {
    DecimalValueShapes(s);
  }

  lemma {:induction false} LaxCanonicalNumerals(n: nat)
    ensures LaxOctet(DecimalString(n)) <==> n <= 299
  {
    DecimalStringShapes(n);
    if LaxOctet(DecimalString(n)) {
      LaxOctetValue(DecimalString(n));
      DecimalRoundTrip(n);
    }
  }

  // ---------------------------------------------------------------------------
  // The dotted-quad language, stated directly

  /** t is a.b.c.d with four octets of the given mode. */
  ghost predicate QuadOf(t: string, a: string, b: string, c: string, d: string, strict: bool) {
    Octet(a, strict) && Octet(b, strict) && Octet(c, strict) && Octet(d, strict)
    && t == a + "." + b + "." + c + "." + d
  }

  ghost predicate IsQuad(t: string, strict: bool) {
    exists a, b, c, d :: QuadOf(t, a, b, c, d, strict)
  }

  /** preg_match with regexpIP(strict) succeeds on s: the pattern has no anchors,
      so some substring of s must be a dotted quad. */
  ghost predicate Matches(s: string, strict: bool) {
    exists i, j :: 0 <= i <= j <= |s| && IsQuad(s[i..j], strict)
  }

  // ---------------------------------------------------------------------------
  // The recogniser

  /** The index of the first dot of t, or |t| when there is none. */
  function FirstDot(t: string): (k: nat)
    ensures k <= |t| && (k < |t| ==> t[k] == '.')
    ensures forall m :: 0 <= m < k ==> t[m] != '.'
  {
    if t == [] || t[0] == '.' then 0 else 1 + FirstDot(t[1..])
  }

  lemma {:induction false} FirstDotAfterDigits(t: string, k: nat)
    requires k < |t| && t[k] == '.' && AllDigits(t[..k])
    ensures FirstDot(t) == k
  {
  }

  /** t is n octets joined by dots (anchored at both ends).  An octet holds no dot,
      so the first octet ends at the first dot. */
  predicate Joined(t: string, n: nat, strict: bool)
    decreases n
  {
    if n <= 1 then n == 1 && Octet(t, strict)
    else
      var k := FirstDot(t);
      k < |t| && Octet(t[..k], strict) && Joined(t[k + 1..], n - 1, strict)
  }

  lemma {:induction false} JoinedCons(a: string, rest: string, n: nat, strict: bool)
    requires n >= 2 && Octet(a, strict) && Joined(rest, n - 1, strict)
    ensures Joined(a + "." + rest, n, strict)
  {
    OctetShape(a, strict);
    var t := a + "." + rest;
    assert t[..|a|] == a;
    assert t[|a| + 1..] == rest;
    FirstDotAfterDigits(t, |a|);
  }

  /** The first octet of a joined run and the rest after its dot. */
  lemma {:induction false} JoinedUncons(t: string, n: nat, strict: bool) returns (a: string, rest: string)
    requires n >= 2 && Joined(t, n, strict)
    ensures Octet(a, strict) && Joined(rest, n - 1, strict) && t == a + "." + rest
  {
    var k := FirstDot(t);
    a, rest := t[..k], t[k + 1..];
    assert t == t[..k] + [t[k]] + t[k + 1..];
  }

  /** Regrouping four dotted parts to the right.  Stated apart: proved next to
      the octet facts of a caller, this equality costs the solver far more. */
  lemma {:induction false} DottedRegroup(a: string, b: string, c: string, d: string)
    ensures a + "." + b + "." + c + "." + d == a + "." + (b + "." + (c + "." + d))
  {
  }

  lemma {:induction false} QuadToJoined(t: string, a: string, b: string, c: string, d: string, strict: bool)
    requires QuadOf(t, a, b, c, d, strict)
    ensures Joined(t, 4, strict)
  {
    var cd := c + "." + d;
    var bcd := b + "." + cd;
    DottedRegroup(a, b, c, d);
    assert Joined(d, 1, strict);
    JoinedCons(c, d, 2, strict);
    JoinedCons(b, cd, 3, strict);
    JoinedCons(a, bcd, 4, strict);
  }

  lemma {:induction false} JoinedToQuad(t: string, strict: bool)
    requires Joined(t, 4, strict)
    ensures IsQuad(t, strict)
  {
    var a, t1 := JoinedUncons(t, 4, strict);
    var b, t2 := JoinedUncons(t1, 3, strict);
    var c, d := JoinedUncons(t2, 2, strict);
    DottedRegroup(a, b, c, d);
    assert QuadOf(t, a, b, c, d, strict);
  }

  lemma {:induction false} QuadIsJoined(t: string, strict: bool)
    ensures IsQuad(t, strict) <==> Joined(t, 4, strict)
  {
    if IsQuad(t, strict) {
      var a, b, c, d :| QuadOf(t, a, b, c, d, strict);
      QuadToJoined(t, a, b, c, d, strict);
    }
    if Joined(t, 4, strict) {
      JoinedToQuad(t, strict);
    }
  }

  /** Unanchored search: some substring of s is four octets joined by dots. */
  predicate Recognise(s: string, strict: bool) {
    exists i, j | 0 <= i <= j <= |s| :: Joined(s[i..j], 4, strict)
  }

  /** The recogniser decides exactly the language of the unanchored pattern. */
  lemma {:induction false} RecogniseIsMatches(s: string, strict: bool)
    ensures Recognise(s, strict) <==> Matches(s, strict)
  {
    if Recognise(s, strict) {
      var i, j :| 0 <= i <= j <= |s| && Joined(s[i..j], 4, strict);
      QuadIsJoined(s[i..j], strict);
    }
    if Matches(s, strict) {
      var i, j :| 0 <= i <= j <= |s| && IsQuad(s[i..j], strict);
      QuadIsJoined(s[i..j], strict);
    }
  }

  /** Whatever the strict pattern matches, the lax pattern matches too. */
  lemma {:induction false} StrictMatchIsLaxMatch(s: string)
    requires Matches(s, true)
    ensures Matches(s, false)
  {
    var i, j :| 0 <= i <= j <= |s| && IsQuad(s[i..j], true);
    var a, b, c, d :| QuadOf(s[i..j], a, b, c, d, true);
    assert QuadOf(s[i..j], a, b, c, d, false);
  }

  // ---------------------------------------------------------------------------
  // The behaviour at the edges

  lemma {:induction false} CanonicalAddressMatchesBoth()
    ensures Matches("192.168.1.1", true) && Matches("192.168.1.1", false)
  {
    var s := "192.168.1.1";
    assert s[0..|s|] == s;
    assert QuadOf(s, "192", "168", "1", "1", true);
    assert QuadOf(s, "192", "168", "1", "1", false);
  }

  /** Where the first two dots of a dotted quad inside s are, with the first octet
      starting at i and the second between the two dots. */
  lemma {:induction false} QuadInside(s: string, i: nat, j: nat, a: string, b: string, c: string, d: string, strict: bool)
    requires i <= j <= |s| && QuadOf(s[i..j], a, b, c, d, strict)
    ensures 1 <= |a| <= 3 && 1 <= |b| <= 3 && i + |a| + 1 + |b| < j
    ensures s[i] == a[0] && s[i + |a|] == '.' && s[i + |a| + 1 + |b|] == '.'
    ensures s[i + |a| + 1..i + |a| + 1 + |b|] == b
  {
    OctetShape(a, strict);
    OctetShape(b, strict);
    var t, cd := s[i..j], c + "." + d;
    var rest := b + "." + cd;
    DottedRegroup(a, b, c, d);
    assert t == a + "." + rest && rest[|b|] == '.';
    var p, q := |a|, |a| + 1 + |b|;
    assert t[0] == a[0] && t[p] == '.';
    assert t[q] == rest[|b|];
    forall k | 0 <= k < |b| ensures s[i + p + 1 + k] == b[k] {
      assert t[p + 1 + k] == rest[k];
    }
  }

  /** When every dot of s is followed by '0' and a digit, the strict pattern finds
      nothing: the second octet of any quad would have a leading zero. */
  lemma {:induction false} LeadingZeroAfterEveryDotFailsStrict(s: string)
    requires forall k :: 0 <= k < |s| - 2 && s[k] == '.' ==> s[k + 1] == '0' && IsDigit(s[k + 2])
    ensures !Matches(s, true)
  {
    if Matches(s, true) {
      var i, j :| 0 <= i <= j <= |s| && IsQuad(s[i..j], true);
      var a, b, c, d :| QuadOf(s[i..j], a, b, c, d, true);
      QuadInside(s, i, j, a, b, c, d, true);
      assert false;
    }
  }

  lemma {:induction false} LeadingZerosMatchLax()
    ensures Matches("010.001.001.001", false)
  {
    var s := "010.001.001.001";
    assert s[0..|s|] == s;
    assert QuadOf(s, "010", "001", "001", "001", false);
  }

  lemma {:induction false} LeadingZerosDoNotMatchStrict()
    ensures !Matches("010.001.001.001", true)
  {
    var s := "010.001.001.001";
    assert forall k :: 0 <= k < |s| - 2 && s[k] == '.' ==> s[k + 1] == '0' && IsDigit(s[k + 2]);
    LeadingZeroAfterEveryDotFailsStrict(s);
  }

  /** Octets with leading zeros, such as "010.001.001.001", are found by the lax
      pattern and not by the strict one. */
  lemma {:induction false} LeadingZerosMatchOnlyLax()
    ensures Matches("010.001.001.001", false)
    ensures !Matches("010.001.001.001", true)
  {
    LeadingZerosMatchLax();
    LeadingZerosDoNotMatchStrict();
  }

  /** Without anchors, a longer run of digits still matches on its inner part:
      "999.1.1.1" holds "99.1.1.1". */
  lemma {:induction false} LongFirstOctetMatchesInside()
    ensures Matches("999.1.1.1", true)
  {
    var s := "999.1.1.1";
    assert s[1..9] == "99.1.1.1";
    assert QuadOf(s[1..9], "99", "1", "1", "1", true);
  }

  /** "1.2.3.456" holds "1.2.3.45". */
  lemma {:induction false} LongLastOctetMatchesInside()
    ensures Matches("1.2.3.456", true)
  {
    var s := "1.2.3.456";
    assert s[0..8] == "1.2.3.45";
    assert QuadOf(s[0..8], "1", "2", "3", "45", true);
  }

  /** An address inside other text is found. */
  lemma {:induction false} AddressInsideTextMatches()
    ensures Matches("banned: 10.0.0.7 (ssh)", true)
  {
    var s := "banned: 10.0.0.7 (ssh)";
    assert s[8..16] == "10.0.0.7";
    assert QuadOf(s[8..16], "10", "0", "0", "7", true);
  }

  /** A line with no digit in it never matches: there is no octet to start from. */
  lemma {:induction false} TextWithoutDigitsDoesNotMatch(s: string, strict: bool)
    requires forall k :: 0 <= k < |s| ==> !IsDigit(s[k])
    ensures !Matches(s, strict)
  {
    if Matches(s, strict) {
      var i, j :| 0 <= i <= j <= |s| && IsQuad(s[i..j], strict);
      var a, b, c, d :| QuadOf(s[i..j], a, b, c, d, strict);
      QuadInside(s, i, j, a, b, c, d, strict);
      assert false;
    }
  }
}
