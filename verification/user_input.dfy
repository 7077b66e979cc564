/** Validation of the token the player types at the prompt, with
    JavaScript's global parseInt (one argument, no radix) modelled as the
    language standard defines it. */
module UserInput {

  /** The result of parseInt: a number, or NaN when no digits were found. */
  datatype Number = NaN | Int(value: int)

  /** The white space and line terminators that parseInt skips. */
  predicate IsWhiteSpace(c: char)
  {
    c == '\t' || c == '\n' || c == '\U{B}' || c == '\U{C}' || c == '\r' || c == ' ' ||
    c == '\U{A0}' || c == '\U{1680}' || ('\U{2000}' <= c <= '\U{200A}') ||
    c == '\U{2028}' || c == '\U{2029}' || c == '\U{202F}' || c == '\U{205F}' ||
    c == '\U{3000}' || c == '\U{FEFF}'
  }

  predicate IsDecimalDigit(c: char)
  {
    '0' <= c <= '9'
  }

  /** Whether c is a digit in the given radix (10, or 16 after a 0x prefix). */
  predicate IsRadixDigit(c: char, radix: nat)
  {
    IsDecimalDigit(c) || (radix == 16 && ('a' <= c <= 'f' || 'A' <= c <= 'F'))
  }

  function DigitValue(c: char): (v: nat)
    ensures IsDecimalDigit(c) ==> v < 10
    ensures IsRadixDigit(c, 16) ==> v < 16
  {
    if IsDecimalDigit(c) then c as int - '0' as int
    else if 'a' <= c <= 'f' then c as int - 'a' as int + 10
    else if 'A' <= c <= 'F' then c as int - 'A' as int + 10
    else 0
  }

  /** s without its leading white space. */
  function TrimStart(s: string): string
  {
    if s != [] && IsWhiteSpace(s[0]) then TrimStart(s[1..]) else s
  }

  /** TrimStart drops exactly the white space at the front: the result is
      a suffix that does not start with white space, and all that was
      dropped is white space. */
  lemma {:induction false} TrimStartDropsWhiteSpace(s: string)
    ensures var t := TrimStart(s);
      |t| <= |s| && t == s[|s| - |t|..] &&
      (forall k :: 0 <= k < |s| - |t| ==> IsWhiteSpace(s[k])) &&
      (t == [] || !IsWhiteSpace(t[0]))
  {
    if s != [] && IsWhiteSpace(s[0]) {
      TrimStartDropsWhiteSpace(s[1..]);
      var t := TrimStart(s);
      forall k | 1 <= k < |s| - |t| ensures IsWhiteSpace(s[k]) {
        assert s[k] == s[1..][k - 1];
      }
    }
  }

  /** The longest prefix of s made of digits of the radix. */
  function DigitRun(s: string, radix: nat): string
  {
    if s != [] && IsRadixDigit(s[0], radix) then [s[0]] + DigitRun(s[1..], radix) else []
  }

  /** DigitRun is the longest prefix of digits: a prefix of s, all
      digits, and followed by the end of s or a non-digit. */
  lemma {:induction false} DigitRunIsLongestPrefix(s: string, radix: nat)
    ensures var d := DigitRun(s, radix);
      |d| <= |s| && d == s[..|d|] &&
      (forall k :: 0 <= k < |d| ==> IsRadixDigit(d[k], radix)) &&
      (|d| == |s| || !IsRadixDigit(s[|d|], radix))
  {
    if s != [] && IsRadixDigit(s[0], radix) {
      DigitRunIsLongestPrefix(s[1..], radix);
      var d := DigitRun(s, radix);
      assert d == [s[0]] + DigitRun(s[1..], radix);
      forall k | 1 <= k < |d| ensures IsRadixDigit(d[k], radix) {
        assert d[k] == DigitRun(s[1..], radix)[k - 1];
      }
    }
  }

  /** The value of a digit string read most significant digit first. */
  function DigitsValue(d: string, radix: nat): nat
  {
    if d == [] then 0 else DigitsValue(d[..|d| - 1], radix) * radix + DigitValue(d[|d| - 1])
  }

  /** t without a leading '+' or '-'. */
  function StripSign(t: string): (u: string)
    ensures u == t || (t != [] && (t[0] == '-' || t[0] == '+') && u == t[1..])
  {
    if t != [] && (t[0] == '-' || t[0] == '+') then t[1..] else t
  }

  /** Whether u starts with "0x" or "0X", which switches parseInt to radix 16. */
  predicate HasHexPrefix(u: string)
  {
    |u| >= 2 && u[0] == '0' && (u[1] == 'x' || u[1] == 'X')
  }

  /** The unsigned number at the start of u: after a hex prefix the longest
      run of hexadecimal digits, otherwise the longest run of decimal
      digits; NaN when that run is empty. */
  function ReadUnsigned(u: string): Number
  {
    var radix := if HasHexPrefix(u) then 16 else 10;
    var digits := DigitRun(if HasHexPrefix(u) then u[2..] else u, radix);
    if digits == [] then NaN else Int(DigitsValue(digits, radix))
  }

  /** parseInt(s): skip leading white space, take an optional sign, then
      read the unsigned number that follows. A negative zero is represented
      by Int(0). */
  function ParseInt(s: string): Number
  {
    var t := TrimStart(s);
    var n := ReadUnsigned(StripSign(t));
    if n.Int? && t != [] && t[0] == '-' then Int(-n.value) else n
  }

  /** A token is accepted when it is "?" (help), "0" (exit), or parses to a
      move number between 1 and moveCount. */
  function ValidateUserInput(input: string, moveCount: nat): bool
  {
    if input == "?" || input == "0" then true
    else
      var n := ParseInt(input);
      n.Int? && 1 <= n.value <= moveCount
  }

  /** The decimal numeral of k, as the move menu prints it. */
  function NatToString(k: nat): (s: string)
    ensures |s| > 0
    ensures forall i :: 0 <= i < |s| ==> IsDecimalDigit(s[i])
    ensures k > 0 ==> s[0] != '0'
  {
    if k < 10 then ['0' + k as char] else NatToString(k / 10) + ['0' + (k % 10) as char]
  }

  /** Reading back the numeral of k gives k. */
  lemma {:induction false} NumeralValue(k: nat)
    ensures DigitsValue(NatToString(k), 10) == k
  {
    var s := NatToString(k);
    if k >= 10 {
      assert s[..|s| - 1] == NatToString(k / 10);
      NumeralValue(k / 10);
    }
  }

  /** The digit run of a numeral followed by a non-digit is the numeral. */
  lemma {:induction false} DigitRunOfNumeral(d: string, rest: string)
    requires forall k :: 0 <= k < |d| ==> IsDecimalDigit(d[k])
    requires rest == [] || !IsDecimalDigit(rest[0])
    ensures DigitRun(d + rest, 10) == d
  {
    if d != [] {
      assert (d + rest)[1..] == d[1..] + rest;
      DigitRunOfNumeral(d[1..], rest);
    } else {
      assert d + rest == rest;
    }
  }

  /** parseInt reads a positive numeral and ignores whatever follows it,
      as long as that does not start with another digit: parseInt("2x")
      is 2, and so is parseInt("2"). */
  lemma ParseNumeral(k: nat, rest: string)
    requires k > 0
    requires rest == [] || !IsDecimalDigit(rest[0])
    ensures ParseInt(NatToString(k) + rest) == Int(k)
  {
    var d := NatToString(k);
    var s := d + rest;
    assert s[0] == d[0] && IsDecimalDigit(s[0]) && s[0] != '0';
    assert TrimStart(s) == s && StripSign(s) == s && !HasHexPrefix(s);
    DigitRunOfNumeral(d, rest);
    NumeralValue(k);
    assert ReadUnsigned(s) == Int(k);
  }

  /** The menu numbers are exactly the accepted numerals: the numeral of
      k (including "0", the exit command) is accepted iff k <= moveCount,
      also when followed by a non-digit tail. */
  lemma AcceptsMenuNumbers(k: nat, rest: string, moveCount: nat)
    requires rest == [] || !IsDecimalDigit(rest[0])
    requires k > 0 || rest == []
    ensures ValidateUserInput(NatToString(k) + rest, moveCount) <==> k <= moveCount
  {
    var s := NatToString(k) + rest;
    if k > 0 {
      ParseNumeral(k, rest);
      assert s[0] != '0' && s[0] != '?';
      assert s != "?" && s != "0";
    } else {
      assert s == "0";
    }
  }

  predicate HasNoDigit(s: string)
  {
    forall k :: 0 <= k < |s| ==> !IsDecimalDigit(s[k])
  }

  lemma SuffixHasNoDigit(s: string, from: nat)
    requires HasNoDigit(s) && from <= |s|
    ensures HasNoDigit(s[from..])
  {
    forall k | 0 <= k < |s| - from ensures !IsDecimalDigit(s[from..][k]) {
      assert s[from..][k] == s[from + k];
    }
  }

  /** parseInt finds no number in a string without decimal digits: a hex
      prefix needs its leading zero. */
  lemma {:induction false} ParseWithoutDigits(s: string)
    requires HasNoDigit(s)
    ensures ParseInt(s) == NaN
  {
    var t := TrimStart(s);
    TrimStartDropsWhiteSpace(s);
    SuffixHasNoDigit(s, |s| - |t|);
    var u := StripSign(t);
    if u != t {
      SuffixHasNoDigit(t, 1);
    }
    assert u == [] || !IsDecimalDigit(u[0]);
    assert !HasHexPrefix(u);
    assert DigitRun(u, 10) == [];
    assert ReadUnsigned(u) == NaN;
  }

  /** A token without a decimal digit (the empty line among them) is
      rejected unless it is the help command "?". */
  lemma RejectsWithoutDigits(input: string, moveCount: nat)
    requires HasNoDigit(input)
    requires input != "?"
    ensures !ValidateUserInput(input, moveCount)
  {
    ParseWithoutDigits(input);
    assert |input| != 1 || input[0] != '0';
  }

  /** The accepting branch of ValidateUserInput, unfolded for callers
      that read the move number of an accepted token. */
  lemma AcceptedMoveIndex(input: string, moveCount: nat)
    requires ValidateUserInput(input, moveCount) && input != "?" && input != "0"
    ensures ParseInt(input).Int? && 1 <= ParseInt(input).value <= moveCount
  {
  }

  /** A move number written in hexadecimal after a "0x" prefix is
      accepted too: "0x2" names the second move. */
  lemma HexPrefixAccepted()
    ensures ParseInt("0x2") == Int(2)
    ensures ValidateUserInput("0x2", 3)
  {
    var s := "0x2";
    assert TrimStart(s) == s && StripSign(s) == s && HasHexPrefix(s);
    assert DigitRun(s[2..], 16) == "2";
    assert DigitsValue("2", 16) == DigitsValue("", 16) * 16 + DigitValue('2') == 2;
  }

  /** Numerals with leading zeros parse to the same value, but the exit
      command is only the one-character token "0": "00" is rejected. */
  lemma LeadingZeros()
    ensures ParseInt("02") == Int(2) && ValidateUserInput("02", 3)
    ensures ParseInt("00") == Int(0) && !ValidateUserInput("00", 3)
  {
    ReadsLeadingZero(2);
    ReadsLeadingZero(0);
  }

  lemma ReadsLeadingZero(k: nat)
    requires k < 10
    ensures ParseInt(['0', '0' + k as char]) == Int(k)
  {
    var s := ['0', '0' + k as char];
    assert TrimStart(s) == s && StripSign(s) == s && !HasHexPrefix(s);
    DigitRunOfNumeral(s, "");
    assert s + "" == s;
    assert s[..1] == "0" && "0"[..0] == "";
    assert DigitsValue(s, 10) == k;
  }
}
