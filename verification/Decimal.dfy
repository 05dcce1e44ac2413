/** Decimal text of a 32-bit `int`: `std::to_string` and `std::stoi`. */
module Decimal {
  import opened Results

  predicate IsInt32(n: int) {
    -0x8000_0000 <= n < 0x8000_0000
  }

  predicate IsDigit(c: char) {
    '0' <= c <= '9'
  }

  predicate IsSpace(c: char) {
    c == ' ' || '\t' <= c <= '\r'
  }

  function DigitChar(d: nat): (c: char)
    requires d < 10
    ensures IsDigit(c)
  {
    '0' + d as char
  }

  function DigitValue(c: char): nat
    requires IsDigit(c)
  {
    (c - '0') as nat
  }

  function Digits(n: nat): (s: string)
    ensures s != "" && (|s| == 1 <==> n < 10)
    ensures n > 0 ==> s[0] != '0'
    ensures forall i :: 0 <= i < |s| ==> IsDigit(s[i])
  {
    if n < 10 then [DigitChar(n)] else Digits(n / 10) + [DigitChar(n % 10)]
  }

  /** `std::to_string(int)`. */
  function ToString(n: int): (s: string)
    ensures s != ""
    ensures forall i :: 0 <= i < |s| ==> IsDigit(s[i]) || s[i] == '-'
  {
    if n < 0 then "-" + Digits(-n) else Digits(n)
  }

  function SkipSpace(s: string): string {
    if s != "" && IsSpace(s[0]) then SkipSpace(s[1..]) else s
  }

  function DigitRun(s: string): (r: string)
    ensures forall i :: 0 <= i < |r| ==> IsDigit(r[i])
  {
    if s != "" && IsDigit(s[0]) then [s[0]] + DigitRun(s[1..]) else ""
  }

  function ValueOf(s: string): nat
    requires forall i :: 0 <= i < |s| ==> IsDigit(s[i])
  {
    if s == "" then 0 else 10 * ValueOf(s[..|s| - 1]) + DigitValue(s[|s| - 1])
  }

  /** `std::stoi` in base ten: leading blanks, one optional sign, then as many digits as there are. */
  function Stoi(s: string): Result<int> {
    var b := SkipSpace(s);
    var signed := b != "" && (b[0] == '-' || b[0] == '+');
    var ds := DigitRun(if signed then b[1..] else b);
    if ds == "" then Err(InvalidArgument)
    else
      var magnitude: int := ValueOf(ds);
      var n := if signed && b[0] == '-' then -magnitude else magnitude;
      if IsInt32(n) then Ok(n) else Err(OutOfRange)
  }

  lemma {:induction false} DigitRunOfDigits(s: string)
    requires forall i :: 0 <= i < |s| ==> IsDigit(s[i])
    ensures DigitRun(s) == s
  {
    if s == "" {
    } else {
      DigitRunOfDigits(s[1..]);
    }
  }

  lemma {:induction false} ValueOfDigits(n: nat)
    ensures ValueOf(Digits(n)) == n
  {
    if n < 10 {
      assert [DigitChar(n)][..0] == "";
    } else {
      ValueOfDigits(n / 10);
      assert Digits(n)[..|Digits(n)| - 1] == Digits(n / 10);
    }
  }

  /** Reading digits, with or without a minus sign in front. */
  lemma {:induction false} StoiOfRun(ds: string)
    requires ds != "" && forall i :: 0 <= i < |ds| ==> IsDigit(ds[i])
    ensures IsInt32(ValueOf(ds)) ==> Stoi(ds) == Ok(ValueOf(ds))
    ensures IsInt32(0 - ValueOf(ds)) ==> Stoi("-" + ds) == Ok(0 - ValueOf(ds))
  {
    DigitRunOfDigits(ds);
    hide ValueOf, DigitRun;
    assert SkipSpace(ds) == ds;
    assert SkipSpace("-" + ds) == "-" + ds && ("-" + ds)[1..] == ds;
  }

  lemma {:induction false} StoiOfDigits(n: nat)
    ensures IsInt32(n) ==> Stoi(Digits(n)) == Ok(n)
    ensures IsInt32(0 - n) ==> Stoi("-" + Digits(n)) == Ok(0 - n)
  {
    hide Digits, ValueOf, Stoi;
    StoiOfRun(Digits(n));
    ValueOfDigits(n);
  }

  lemma {:induction false} StoiOfToString(n: int)
    requires IsInt32(n)
    ensures Stoi(ToString(n)) == Ok(n)
  {
    StoiOfDigits(if n < 0 then -n else n);
  }

  /** A printed int that has lost its last character is never read back as itself. */
  lemma {:induction false} StoiOfChopped(n: int)
    requires IsInt32(n)
    ensures Stoi(ToString(n)[..|ToString(n)| - 1]) != Ok(n)
  {
    var m := if n < 0 then -n else n;
    var chopped := ToString(n)[..|ToString(n)| - 1];
    if m < 10 {
      assert chopped == if n < 0 then "-" else "";
    } else {
      StoiOfDigits(m / 10);
      assert chopped == (if n < 0 then "-" + Digits(m / 10) else Digits(m / 10));
    }
  }

  /** Text that begins with a number: blanks, at most one sign, and then all digits that are there. */
  predicate Numeral(s: string, blanks: string, sign: string, digits: string, rest: string) {
    && s == blanks + sign + digits + rest
    && (forall c :: c in blanks ==> c as int == 32 || 9 <= c as int <= 13)
    && (sign == "" || sign == "+" || sign == "-")
    && digits != "" && (forall i :: 0 <= i < |digits| ==> '0' <= digits[i] <= '9')
    && (rest == "" || rest[0] < '0' || '9' < rest[0])
  }

  lemma {:induction false} SkipSpaceOfBlanks(blanks: string, x: string)
    requires forall c :: c in blanks ==> IsSpace(c)
    requires x != "" && !IsSpace(x[0])
    ensures SkipSpace(blanks + x) == x
  {
    if blanks == "" {
      assert blanks + x == x;
    } else {
      assert blanks[0] in blanks && (blanks + x)[1..] == blanks[1..] + x;
      SkipSpaceOfBlanks(blanks[1..], x);
    }
  }

  lemma {:induction false} DigitRunOf(digits: string, rest: string)
    requires forall i :: 0 <= i < |digits| ==> IsDigit(digits[i])
    requires rest == "" || !IsDigit(rest[0])
    ensures DigitRun(digits + rest) == digits
  {
    if digits == "" {
      assert digits + rest == rest;
    } else {
      assert (digits + rest)[1..] == digits[1..] + rest;
      DigitRunOf(digits[1..], rest);
    }
  }

  /** What is read of such text, whatever follows the digits. */
  lemma {:induction false} StoiOfNumeral(s: string, blanks: string, sign: string, digits: string, rest: string)
    requires Numeral(s, blanks, sign, digits, rest)
    ensures var n: int := if sign == "-" then 0 - ValueOf(digits) else ValueOf(digits);
            Stoi(s) == if -2147483648 <= n <= 2147483647 then Ok(n) else Err(OutOfRange)
  {
    var b := sign + (digits + rest);
    assert s == blanks + b;
    SkipSpaceOfBlanks(blanks, b);
    DigitRunOf(digits, rest);
    hide SkipSpace, DigitRun, ValueOf;
    assert sign != "" ==> b[1..] == digits + rest;
    assert sign == "" ==> b == digits + rest;
  }

  lemma {:induction false} SkipSpaceSplits(s: string) returns (blanks: string)
    ensures s == blanks + SkipSpace(s) && forall c :: c in blanks ==> IsSpace(c)
  {
    if s != "" && IsSpace(s[0]) {
      var more := SkipSpaceSplits(s[1..]);
      blanks := [s[0]] + more;
      assert s == [s[0]] + s[1..];
    } else {
      blanks := "";
    }
  }

  lemma {:induction false} DigitRunSplits(s: string) returns (rest: string)
    ensures s == DigitRun(s) + rest && (rest == "" || !IsDigit(rest[0]))
  {
    if s != "" && IsDigit(s[0]) {
      rest := DigitRunSplits(s[1..]);
      assert s == [s[0]] + s[1..];
    } else {
      rest := s;
    }
  }

  lemma {:induction false} MakeNumeral(blanks: string, sign: string, digits: string, rest: string)
    requires forall c :: c in blanks ==> IsSpace(c)
    requires sign == "" || sign == "+" || sign == "-"
    requires digits != "" && forall i :: 0 <= i < |digits| ==> IsDigit(digits[i])
    requires rest == "" || !IsDigit(rest[0])
    ensures Numeral(blanks + (sign + (digits + rest)), blanks, sign, digits, rest)
  {
    assert blanks + (sign + (digits + rest)) == blanks + sign + digits + rest;
  }

  /** The sign that `std::stoi` sees, and what is behind it. */
  lemma {:induction false} SignSplits(b: string) returns (sign: string, tail: string)
    ensures b == sign + tail && (sign == "" || sign == "+" || sign == "-")
    ensures tail == if b != "" && (b[0] == '-' || b[0] == '+') then b[1..] else b
  {
    if b != "" && (b[0] == '-' || b[0] == '+') {
      sign, tail := [b[0]], b[1..];
    } else {
      sign, tail := "", b;
    }
  }

  /** A text that is read begins with a number. */
  lemma {:induction false} FindNumeral(s: string)
    returns (blanks: string, sign: string, digits: string, rest: string)
    requires Stoi(s) != Err(InvalidArgument)
    ensures Numeral(s, blanks, sign, digits, rest)
  {
    hide SkipSpace, DigitRun, ValueOf, Numeral;
    blanks := SkipSpaceSplits(s);
    var tail;
    sign, tail := SignSplits(SkipSpace(s));
    digits := DigitRun(tail);
    rest := DigitRunSplits(tail);
    MakeNumeral(blanks, sign, digits, rest);
  }

  /** `std::stoi` finds no number exactly when the text begins with none. */
  lemma {:induction false} StoiRejectsExactly(s: string)
    ensures Stoi(s) == Err(InvalidArgument) <==>
            !exists blanks, sign, digits, rest :: Numeral(s, blanks, sign, digits, rest)
  {
    hide Stoi, Numeral;
    if Stoi(s) != Err(InvalidArgument) {
      var blanks, sign, digits, rest := FindNumeral(s);
    }
    if exists blanks, sign, digits, rest :: Numeral(s, blanks, sign, digits, rest) {
      var blanks, sign, digits, rest :| Numeral(s, blanks, sign, digits, rest);
      ReadsNumeral(s, blanks, sign, digits, rest);
    }
  }

  lemma {:induction false} ReadsNumeral(s: string, blanks: string, sign: string, digits: string, rest: string)
    requires Numeral(s, blanks, sign, digits, rest)
    ensures Stoi(s) != Err(InvalidArgument)
  {
    StoiOfNumeral(s, blanks, sign, digits, rest);
  }
}
