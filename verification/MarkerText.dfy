/** The text of a replay marker and the parser that reads its expiry back (crates/helper/src/main.rs). */
module MarkerTexts {
  import opened Bytes

  const NEWLINE: byte := 10
  const CARRIAGE_RETURN: byte := 13
  const ZERO: byte := '0' as int
  const PLUS: byte := '+' as int
  const PREFIX := Ascii("expires_at_ms=")
  const READ_LIMIT: nat := 128

  function Decimal(n: nat): (r: bytes)
    ensures r != []
  {
    if n < 10 then [ZERO + n] else Decimal(n / 10) + [ZERO + n % 10]
  }

  predicate IsDigit(b: byte) { ZERO <= b <= ZERO + 9 }

  function DigitsValue(s: bytes): Option<nat> {
    if s == [] then Some(0)
    else if !IsDigit(s[|s| - 1]) || DigitsValue(s[..|s| - 1]).None? then None
    else Some(DigitsValue(s[..|s| - 1]).value * 10 + (s[|s| - 1] - ZERO))
  }

  /** `str::parse::<u64>`: an optional plus sign, at least one digit, nothing else, no overflow. */
  function ParseU64(s: bytes): Option<u64> {
    var digits := if s != [] && s[0] == PLUS then s[1..] else s;
    if digits == [] then None
    else
      match DigitsValue(digits)
      case None => None
      case Some(v) => if v < U64_LIMIT then Some(v) else None
  }

  predicate IsSpace(b: byte) { b == 32 || 9 <= b <= 13 }

  function TrimStart(s: bytes): bytes { if s != [] && IsSpace(s[0]) then TrimStart(s[1..]) else s }

  function TrimEnd(s: bytes): bytes { if s != [] && IsSpace(s[|s| - 1]) then TrimEnd(s[..|s| - 1]) else s }

  function UpToNewline(s: bytes): bytes {
    if s == [] || s[0] == NEWLINE then [] else [s[0]] + UpToNewline(s[1..])
  }

  /** The first line, without its line ending; there is none in an empty text. */
  function FirstLine(s: bytes): Option<bytes> {
    if s == [] then None
    else
      var line := UpToNewline(s);
      Some(if line != [] && line[|line| - 1] == CARRIAGE_RETURN && |line| < |s| then line[..|line| - 1] else line)
  }

  function ParseExpiry(contents: bytes): Option<u64> {
    match FirstLine(contents)
    case None => None
    case Some(line) =>
      var text := TrimEnd(TrimStart(line));
      if PREFIX <= text then ParseU64(text[|PREFIX|..]) else None
  }

  /** The marker after `k` of the three writes that `writeln!` makes: the literal, the digits, the line end. */
  function Written(expiry: u64, k: nat): bytes
    requires k <= 3
  {
    if k == 0 then []
    else if k == 1 then PREFIX
    else if k == 2 then PREFIX + Decimal(expiry)
    else PREFIX + Decimal(expiry) + [NEWLINE]
  }

  function Take(contents: bytes): bytes { contents[..Min(READ_LIMIT, |contents|)] }

  // ---- Digits ----

  lemma {:induction false} DecimalRoundTrip(n: nat)
    ensures DigitsValue(Decimal(n)) == Some(n)
    ensures forall i :: 0 <= i < |Decimal(n)| ==> IsDigit(Decimal(n)[i])
  {
    var d := Decimal(n);
    if n < 10 {
      assert d[..0] == [];
    } else {
      DecimalRoundTrip(n / 10);
      assert d[..|d| - 1] == Decimal(n / 10);
    }
  }

  function Pow10(k: nat): nat { if k == 0 then 1 else 10 * Pow10(k - 1) }

  lemma {:induction false} DecimalLength(n: nat, k: nat)
    requires n < Pow10(k) && k > 0
    ensures |Decimal(n)| <= k
  {
    if n >= 10 { DecimalLength(n / 10, k - 1); }
  }

  lemma U64HasTwentyDigits(n: u64)
    ensures |Decimal(n)| <= 20
  {
    assert Pow10(5) == 100_000;
    assert Pow10(10) == 100_000 * Pow10(5) by { assert Pow10(10) == 10 * Pow10(9) == 100 * Pow10(8) == 1000 * Pow10(7)
                                               == 10_000 * Pow10(6); }
    assert Pow10(15) == 100_000 * Pow10(10) by { assert Pow10(15) == 10 * Pow10(14) == 100 * Pow10(13)
                                                == 1000 * Pow10(12) == 10_000 * Pow10(11); }
    assert Pow10(20) == 100_000 * Pow10(15) by { assert Pow10(20) == 10 * Pow10(19) == 100 * Pow10(18)
                                                == 1000 * Pow10(17) == 10_000 * Pow10(16); }
    DecimalLength(n, 20);
  }

  // ---- Lines ----

  predicate Printable(s: bytes) {
    forall i :: 0 <= i < |s| ==> s[i] > 32
  }

  lemma {:induction false} LineOfPrintable(s: bytes, rest: bytes)
    requires Printable(s) && (rest == [] || rest[0] == NEWLINE)
    ensures UpToNewline(s + rest) == s
  {
    if s == [] {
      assert s + rest == rest;
    } else {
      assert (s + rest)[1..] == s[1..] + rest;
      assert Printable(s[1..]);
      LineOfPrintable(s[1..], rest);
    }
  }

  lemma PrefixIsPrintable()
    ensures Printable(PREFIX) && |PREFIX| == 14
  {
  }

  lemma ParseOfLine(prefix: bytes, digits: bytes, rest: bytes)
    requires prefix == PREFIX
    requires Printable(prefix) && prefix != [] && Printable(digits) && (rest == [] || rest == [NEWLINE])
    ensures ParseExpiry(prefix + digits + rest) == ParseU64(digits)
  {
    var line := prefix + digits;
    LineOfPrintable(line, rest);
    assert line[0] > 32 && line[|line| - 1] > 32;
    assert TrimEnd(TrimStart(line)) == line;
    assert line[|prefix|..] == digits;
  }

  lemma DigitsParse(n: u64)
    ensures ParseU64(Decimal(n)) == Some(n) && Printable(Decimal(n))
  {
    DecimalRoundTrip(n);
    assert IsDigit(Decimal(n)[0]);
  }

  /**
   A marker is read back exactly once its digits are there, with or without the line end; before that it reads as
   nothing.
   */
  lemma MarkerRoundTrip(expiry: u64, k: nat)
    requires k <= 3
    ensures ParseExpiry(Take(Written(expiry, k))) == if k >= 2 then Some(expiry) else None
  {
    PrefixIsPrintable();
    U64HasTwentyDigits(expiry);
    var contents := Written(expiry, k);
    assert Take(contents) == contents;
    DigitsParse(expiry);
    var prefix, digits := PREFIX, Decimal(expiry);
    if k == 1 {
      ParseOfLine(prefix, [], []);
      assert prefix + [] + [] == contents;
    } else if k == 2 {
      ParseOfLine(prefix, digits, []);
      assert prefix + digits + [] == contents;
    } else if k == 3 {
      ParseOfLine(prefix, digits, [NEWLINE]);
    }
  }
}
