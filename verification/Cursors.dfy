/** Decimal cursors: strconv.FormatInt / ParseInt in base 10, and the two cursor parsers. */
module Cursors {
  import opened Prelude

  const MaxInt64: int := 0x7fff_ffff_ffff_ffff

  // ---- Decimal text -------------------------------------------------------------------

  function Digit(d: nat): char
    requires d < 10
  {
    "0123456789"[d]
  }

  function DigitValue(c: char): Option<nat> {
    if '0' <= c <= '9' then Some(c as int - '0' as int) else None
  }

  function FormatNat(n: nat): string {
    if n < 10 then [Digit(n)] else FormatNat(n / 10) + [Digit(n % 10)]
  }

  function FormatInt(n: int): string {
    if n < 0 then "-" + FormatNat(-n) else FormatNat(n)
  }

  /** One or more digits and nothing else. */
  function ParseNat(s: string): Option<nat> {
    if s == "" then None
    else
      match DigitValue(s[|s| - 1])
      case None => None
      case Some(d) =>
        if |s| == 1 then Some(d)
        else
          match ParseNat(s[..|s| - 1])
          case None => None
          case Some(n) => Some(10 * n + d)
  }

  /** An optional sign, digits, and a value that fits 64 bits; anything else is an error. */
  function ParseInt(s: string): Option<int> {
    var negative := s != "" && s[0] == '-';
    var body := if s != "" && (s[0] == '-' || s[0] == '+') then s[1..] else s;
    match ParseNat(body)
    case None => None
    case Some(n) =>
      var v := if negative then 0 - (n as int) else n as int;
      if -MaxInt64 - 1 <= v <= MaxInt64 then Some(v) else None
  }

  // ---- The parsers --------------------------------------------------------------------

  /** parseFollowCursor: Some(0) asks for the first page, None is ErrFollowCursorInvalid. */
  function ParseFollowCursor(cursor: string): Option<int> {
    if cursor == "" then Some(0)
    else
      match ParseInt(cursor)
      case None => None
      case Some(id) => if id <= 0 then None else Some(id)
  }

  /** parseCursor: Some(None) asks for the first page, None is ErrCursorInvalid. */
  function ParseFeedCursor(cursor: string): Option<Option<int>> {
    if cursor == "" then Some(None)
    else
      match ParseInt(cursor)
      case None => None
      case Some(ms) => if ms <= 0 then None else Some(Some(ms))
  }

  // ---- Round trips --------------------------------------------------------------------

  lemma {:induction false} ParseFormatNat(n: nat)
    ensures FormatNat(n) != "" && FormatNat(n)[0] != '-' && FormatNat(n)[0] != '+'
    ensures ParseNat(FormatNat(n)) == Some(n)
  {
    DigitRoundTrip(n % 10);
    if n >= 10 {
      ParseFormatNat(n / 10);
      ParseLast(FormatNat(n / 10), n / 10, n % 10);
      assert n == 10 * (n / 10) + n % 10;
    }
  }

  lemma ParseLast(s: string, n: nat, d: nat)
    requires s != "" && ParseNat(s) == Some(n) && d < 10
    ensures ParseNat(s + [Digit(d)]) == Some(10 * n + d)
  {
    DigitRoundTrip(d);
    assert (s + [Digit(d)])[..|s|] == s;
  }

  lemma DigitRoundTrip(d: nat)
    requires d < 10
    ensures DigitValue(Digit(d)) == Some(d)
  {
    assert d == 0 || d == 1 || d == 2 || d == 3 || d == 4 || d == 5 || d == 6 || d == 7 || d == 8 || d == 9;
  }

  lemma ParseFormat(n: int)
    requires -MaxInt64 - 1 <= n <= MaxInt64
    ensures ParseInt(FormatInt(n)) == Some(n)
  {
    ParseFormatNat(if n < 0 then -n else n);
    if n < 0 {
      assert FormatInt(n)[1..] == FormatNat(-n);
    }
  }

  /** A cursor the server issued is read back as the position it stands for. */
  lemma CursorRoundTrip(n: int)
    requires 0 < n <= MaxInt64
    ensures FormatInt(n) != ""
    ensures ParseFollowCursor(FormatInt(n)) == Some(n)
    ensures ParseFeedCursor(FormatInt(n)) == Some(Some(n))
  {
    ParseFormat(n);
    ParseFormatNat(n);
  }

  // ---- What is read -------------------------------------------------------------------

  predicate AllDigits(s: string) {
    s != "" && forall i :: 0 <= i < |s| ==> '0' <= s[i] <= '9'
  }

  function Pow10(n: nat): nat {
    if n == 0 then 1 else 10 * Pow10(n - 1)
  }

  /** Positional value, most significant digit first. */
  function Decimal(s: string): int {
    if s == "" then 0 else (s[0] as int - '0' as int) * Pow10(|s| - 1) + Decimal(s[1..])
  }

  lemma {:induction false} DecimalLast(s: string, c: char)
    ensures Decimal(s + [c]) == 10 * Decimal(s) + (c as int - '0' as int)
  {
    if s == "" {
      assert s + [c] == [c] && [c][1..] == "";
      assert Pow10(0) == 1;
    } else {
      assert (s + [c])[1..] == s[1..] + [c];
      DecimalLast(s[1..], c);
      Shifted(s[0] as int - '0' as int, Pow10(|s| - 1));
    }
  }

  lemma Shifted(d: int, p: nat)
    ensures d * (10 * p) == 10 * (d * p)
  {
  }

  /** Digits are read as the number they denote, and nothing else is read. */
  lemma {:induction false} ParseNatIff(s: string)
    ensures ParseNat(s).Some? <==> AllDigits(s)
    ensures AllDigits(s) ==> ParseNat(s).value == Decimal(s)
  {
    if s != "" {
      var init, c := s[..|s| - 1], s[|s| - 1];
      assert s == init + [c];
      ParseNatIff(init);
      DecimalLast(init, c);
      if init == "" {
        assert Decimal(init) == 0;
      } else {
        assert AllDigits(s) <==> AllDigits(init) && '0' <= c <= '9';
      }
    }
  }

  /**
   Which cursors are accepted, and as what: an empty one asks for the first page; any other must
   be a plain number, with at most a plus sign, from 1 to the largest 64-bit integer.
   */
  lemma CursorAcceptedIff(cursor: string, n: int)
    ensures ParseFeedCursor(cursor) == Some(None) <==> cursor == ""
    ensures ParseFollowCursor(cursor) == Some(0) <==> cursor == ""
    ensures var digits := if cursor != "" && cursor[0] == '+' then cursor[1..] else cursor;
      (ParseFeedCursor(cursor) == Some(Some(n)) <==> AllDigits(digits) && Decimal(digits) == n && 0 < n <= 0x7fff_ffff_ffff_ffff)
    ensures n > 0 ==> (ParseFollowCursor(cursor) == Some(n) <==> ParseFeedCursor(cursor) == Some(Some(n)))
    ensures ParseFollowCursor(cursor).None? <==> ParseFeedCursor(cursor).None?
  {
    ParseNatIff(cursor);
    if cursor != "" {
      ParseNatIff(cursor[1..]);
      assert cursor[0] == '-' || cursor[0] == '+' ==> !AllDigits(cursor);
    }
  }
}
