/**
 * Decimal numbers in text: their value, how they are printed, and what `std::stoi` reads.
 */
module Numbers {
  import opened Results
  import opened Protocol

  const INT_MIN: int := -0x8000_0000
  const INT_MAX: int := 0x7FFF_FFFF

  predicate IsDigit(c: char) {
    '0' <= c <= '9'
  }

  predicate AllDigits(s: string) {
    forall c <- s :: IsDigit(c)
  }

  function Digit(c: char): (d: int)
    requires IsDigit(c)
    ensures 0 <= d <= 9
  {
    c as int - '0' as int
  }

  /** The number that a string of decimal digits denotes. */
  function Value(s: string): (v: nat)
    requires AllDigits(s)
  {
    if s == [] then 0 else Value(s[..|s| - 1]) * 10 + Digit(s[|s| - 1])
  }

  /** The digits at the head of a string. */
  function DigitRun(s: string): (run: string)
    ensures run <= s && AllDigits(run)
    ensures |run| < |s| ==> !IsDigit(s[|run|])
  {
    if s == [] || !IsDigit(s[0]) then [] else [s[0]] + DigitRun(s[1..])
  }

  /** A number as an `int` of 32 bits, if it is one. */
  function AsInt(value: int): Result<int, NetError> {
    if value < INT_MIN || value > INT_MAX then Err(OutOfRange) else Ok(value)
  }

  /** An optional sign and at least one digit; what follows the digits is ignored. */
  function SignedNumber(text: string): Result<int, NetError> {
    if text != [] && text[0] == '-' then Number(text[1..], -1)
    else if text != [] && text[0] == '+' then Number(text[1..], 1)
    else Number(text, 1)
  }

  function Number(text: string, sign: int): Result<int, NetError> {
    if DigitRun(text) == [] then Err(InvalidNumber) else AsInt(sign * Value(DigitRun(text)))
  }

  /** `std::stoi` skips white space first. */
  function Stoi(s: string): Result<int, NetError> {
    SignedNumber(TrimLeft(s))
  }

  /** Decimal printing, without leading zeros. */
  function Print(n: nat): (s: string)
    ensures s != [] && AllDigits(s)
  {
    var last := [('0' as int + n % 10) as char];
    if n < 10 then last else Print(n / 10) + last
  }

  lemma {:induction false} PrintValue(n: nat)
    ensures Value(Print(n)) == n
  {
    var last := [('0' as int + n % 10) as char];
    if n >= 10 {
      PrintValue(n / 10);
      assert Print(n)[..|Print(n)| - 1] == Print(n / 10);
    } else {
      assert Print(n) == last && last[..0] == [];
    }
  }

  lemma {:induction false} DigitRunOf(digits: string, rest: string)
    requires AllDigits(digits) && (rest != [] ==> !IsDigit(rest[0]))
    ensures DigitRun(digits + rest) == digits
    decreases |digits|
  {
    if digits == [] {
      assert digits + rest == rest;
    } else {
      assert digits[0] in digits;
      assert (digits + rest)[1..] == digits[1..] + rest;
      DigitRunOf(digits[1..], rest);
    }
  }

  lemma NumberReads(digits: string, rest: string, sign: int)
    requires digits != [] && AllDigits(digits) && (rest != [] ==> !IsDigit(rest[0]))
    ensures Number(digits + rest, sign) == AsInt(sign * Value(digits))
  {
    DigitRunOf(digits, rest);
  }

  /** The general form: padding, at most one sign, digits, and anything that does not go on with a digit. */
  lemma StoiReads(pad: string, sign: string, digits: string, rest: string)
    requires Blank(pad) && sign in {"", "+", "-"}
    requires digits != [] && AllDigits(digits) && (rest != [] ==> !IsDigit(rest[0]))
    ensures Stoi(pad + (sign + (digits + rest))) == AsInt(if sign == "-" then -1 * Value(digits) else Value(digits))
  {
    var number := digits + rest;
    var text := sign + number;
    assert IsDigit(number[0]) by { assert digits[0] in digits; }
    assert TrimLeft(pad + text) == text by {
      TrimLeftOf(pad, text);
      assert text[0] == if sign == "" then number[0] else sign[0];
    }
    if sign == "" {
      assert text == number;
      NumberReads(digits, rest, 1);
    } else {
      assert text[1..] == number;
      NumberReads(digits, rest, if sign == "-" then -1 else 1);
    }
  }

  /** On a string of digits there is nothing to skip and nothing to ignore. */
  lemma StoiDigits(s: string)
    requires s != [] && AllDigits(s)
    ensures Stoi(s) == AsInt(Value(s))
  {
    StoiReads("", "", s, "");
    assert "" + ("" + (s + "")) == s;
  }

  /** The ways to read a text as padding, at most one sign, some digits and a rest that does not go on with a digit. */
  ghost predicate Reads(s: string, pad: string, sign: string, digits: string, rest: string) {
    && Blank(pad) && sign in {"", "+", "-"}
    && digits != [] && AllDigits(digits) && (rest != [] ==> !IsDigit(rest[0]))
    && s == pad + (sign + (digits + rest))
  }

  /** What is trimmed off the left of a string is padding. */
  lemma {:induction false} PadBefore(s: string)
    ensures |TrimLeft(s)| <= |s|
    ensures var n := |s| - |TrimLeft(s)|; Blank(s[..n]) && s[n..] == TrimLeft(s)
    decreases |s|
  {
    if s != [] && IsSpace(s[0]) {
      PadBefore(s[1..]);
      var n := |s| - |TrimLeft(s)|;
      assert s[..n] == [s[0]] + s[1..][..n - 1];
      assert s[n..] == s[1..][n - 1..];
    }
  }

  lemma SignBefore(text: string) returns (sign: string, number: string)
    ensures sign in {"", "+", "-"} && text == sign + number
    ensures SignedNumber(text) == Number(number, if sign == "-" then -1 else 1)
  {
    if text != [] && text[0] == '-' {
      sign, number := "-", text[1..];
    } else if text != [] && text[0] == '+' {
      sign, number := "+", text[1..];
    } else {
      sign, number := "", text;
    }
  }

  lemma ReadingOf(s: string) returns (pad: string, sign: string, digits: string, rest: string)
    requires Stoi(s) != Err(InvalidNumber)
    ensures Reads(s, pad, sign, digits, rest)
  {
    var text := TrimLeft(s);
    PadBefore(s);
    pad := s[..|s| - |text|];
    var number;
    sign, number := SignBefore(text);
    digits := DigitRun(number);
    rest := number[|digits|..];
    assert number == digits + rest;
    assert s == pad + text;
  }

  /** There is a number to read exactly when the text can be read in such a way. */
  lemma StoiReadsIff(s: string)
    ensures Stoi(s) != Err(InvalidNumber) <==> exists pad, sign, digits, rest :: Reads(s, pad, sign, digits, rest)
  {
    if Stoi(s) != Err(InvalidNumber) {
      var pad, sign, digits, rest := ReadingOf(s);
    }
    if pad, sign, digits, rest :| Reads(s, pad, sign, digits, rest) {
      StoiReads(pad, sign, digits, rest);
    }
  }

  /** Digits are the characters 48 to 57, and a number is read from the left, ten times what comes before. */
  lemma ValueLiterally(s: string, c: char)
    ensures IsDigit(c) <==> 48 <= c as int <= 57
    ensures Value("") == 0
    ensures AllDigits(s) && IsDigit(c) ==>
              AllDigits(s + [c]) && Value(s + [c]) == 10 * Value(s) + (c as int - 48)
  {
    if AllDigits(s) && IsDigit(c) {
      assert (s + [c])[..|s|] == s;
    }
  }

  /** A printed number has no leading zero. */
  lemma {:induction false} PrintIsShortest(n: nat)
    ensures n < 10 ==> Print(n) == [(48 + n) as char]
    ensures n > 0 ==> Print(n)[0] as int != 48
  {
    if n >= 10 {
      PrintIsShortest(n / 10);
    }
  }

  /** `std::stoi` in full: the value if it lies in the 32-bit range, by its numbers; out of range if it does not; and
      invalid if there is nothing to read. */
  lemma StoiLiterally(s: string)
    ensures forall pad, sign, digits, rest :: Reads(s, pad, sign, digits, rest) ==>
              var value := if sign == "-" then -1 * Value(digits) else Value(digits);
              Stoi(s) == if -2147483648 <= value <= 2147483647 then Ok(value) else Err(OutOfRange)
    ensures (!exists pad, sign, digits, rest :: Reads(s, pad, sign, digits, rest)) <==> Stoi(s) == Err(InvalidNumber)
  {
    StoiReadsIff(s);
    forall pad, sign, digits, rest | Reads(s, pad, sign, digits, rest)
      ensures var value := if sign == "-" then -1 * Value(digits) else Value(digits);
              Stoi(s) == if -2147483648 <= value <= 2147483647 then Ok(value) else Err(OutOfRange)
    {
      StoiReads(pad, sign, digits, rest);
    }
  }
}
