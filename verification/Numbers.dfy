/** What the number parser makes of a text: sign, digits in some base, and an SI suffix. */
module Numbers {
  import opened Bits

  datatype Option<T> = None | Some(value: T)

  predicate IsSpace(c: char) {
    c == ' ' || c == '\t' || c == '\n' || c == '\r' || c == 11 as char || c == 12 as char
  }

  // The blank, and the characters from tab to carriage return.
  predicate Blank(c: char) {
    c as int == 32 || 9 <= c as int <= 13
  }

  predicate Spaces(s: string) {
    forall c :: c in s ==> Blank(c)
  }

  function SkipLeft(s: string): string {
    if s != "" && IsSpace(s[0]) then SkipLeft(s[1..]) else s
  }

  function TrimRight(s: string): string {
    if s != "" && IsSpace(s[|s| - 1]) then TrimRight(s[..|s| - 1]) else s
  }

  /** Skipping spaces takes off the longest stretch of them in front... */
  lemma {:induction false} SkipLeftExactly(s: string) returns (n: nat)
    ensures n <= |s| && SkipLeft(s) == s[n..] && Spaces(s[..n]) && (n < |s| ==> !Blank(s[n]))
  {
    if s == "" || !IsSpace(s[0]) {
      n := 0;
    } else {
      n := SkipLeftExactly(s[1..]);
      n := n + 1;
      assert s[1..][n - 1..] == s[n..] && s[..n] == [s[0]] + s[1..][..n - 1];
    }
  }

  /** ...and trimming them the longest one at the end. */
  lemma {:induction false} TrimRightExactly(s: string) returns (n: nat)
    ensures n <= |s| && TrimRight(s) == s[..n] && Spaces(s[n..]) && (n > 0 ==> !Blank(s[n - 1]))
  {
    if s == "" || !IsSpace(s[|s| - 1]) {
      n := |s|;
    } else {
      var rest := s[..|s| - 1];
      n := TrimRightExactly(rest);
      assert rest[..n] == s[..n] && s[n..] == rest[n..] + [s[|s| - 1]];
    }
  }

  // ---------------------------------------------------------------- the SI suffix

  function Pow(b: nat, n: nat): nat {
    if n == 0 then 1 else Pow(b, n - 1) * b
  }

  // The power of a thousand a letter stands for, 0 for any other character.
  function LetterPower(c: char): nat {
    match c
    case 'K' => 1 case 'k' => 1
    case 'M' => 2 case 'm' => 2
    case 'G' => 3 case 'g' => 3
    case 'T' => 4 case 't' => 4
    case 'P' => 5 case 'p' => 5
    case 'X' => 6 case 'x' => 6
    case 'Z' => 7 case 'z' => 7
    case 'Y' => 8 case 'y' => 8
    case _ => 0
  }

  predicate IsI(c: char) {
    c == 'i' || c == 'I'
  }

  function Multiplier(power: nat, binary: bool): nat {
    Pow(if binary then 1024 else 1000, power)
  }

  // Takes a letter off a text that does not end in a space.
  function SplitLetter(u: string, binary: bool): Option<(string, nat)> {
    if u == "" then None
    else
      var power := LetterPower(u[|u| - 1]);
      var v := if power > 0 then TrimRight(u[..|u| - 1]) else u;
      if v == "" then None else Some((v, Multiplier(power, binary)))
  }

  function SplitI(t: string): Option<(string, nat)> {
    if t == "" then None
    else if IsI(t[|t| - 1]) then SplitLetter(TrimRight(t[..|t| - 1]), true)
    else SplitLetter(t, false)
  }

  // Takes an SI suffix off a text: what is left, unless that is nothing, and the multiplier.
  function SplitSuffix(s: string): Option<(string, nat)> {
    SplitI(TrimRight(s))
  }

  // A letter alone, and nothing at all.
  lemma LetterAlone(sp1: string, letter: string, sp2: string, binary: bool)
    requires Spaces(sp1) && Spaces(sp2) && IsSuffix(letter, "")
    ensures SplitLetter(TrimRight(sp1 + letter + sp2), binary) == None
  {
    if letter == "" {
      assert sp1 + letter + sp2 == sp1 + sp2;
      BlankText(sp1 + sp2);
    } else {
      TrimRightOver(sp1 + letter, sp2);
      BlankText(sp1);
      assert (sp1 + letter)[..|sp1|] == sp1;
    }
  }

  /** A suffix without anything before it is refused, and so is a text of spaces only. */
  lemma SuffixAloneFails(sp1: string, letter: string, sp2: string, i: string, sp3: string, k: nat)
    requires Spaces(sp1) && Spaces(sp2) && Spaces(sp3) && IsSuffixFor(letter, i, k)
    ensures SplitSuffix(sp1 + letter + sp2 + i + sp3) == None
  {
    SuffixFor(letter, i, k);
    if i != "" {
      var t := sp1 + letter + sp2 + i;
      TrimRightOver(t, sp3);
      assert t[..|t| - 1] == sp1 + letter + sp2;
      LetterAlone(sp1, letter, sp2, true);
    } else {
      assert sp1 + letter + sp2 + i + sp3 == sp1 + letter + (sp2 + sp3);
      LetterAlone(sp1, letter, sp2 + sp3, false);
      LetterLast(sp1, letter, sp2 + sp3);
    }
  }

  // What is left of them does not end in an i.
  lemma LetterLast(sp1: string, letter: string, sp2: string)
    requires Spaces(sp1) && Spaces(sp2) && IsSuffix(letter, "")
    ensures var t := TrimRight(sp1 + letter + sp2); t != "" ==> !IsI(t[|t| - 1])
  {
    if letter == "" {
      assert sp1 + letter + sp2 == sp1 + sp2;
      BlankText(sp1 + sp2);
    } else {
      TrimRightOver(sp1 + letter, sp2);
    }
  }

  lemma {:induction false} BlankText(s: string)
    requires Spaces(s)
    ensures TrimRight(s) == ""
  {
    if s == "" {
    } else {
      assert s[|s| - 1] in s;
      BlankText(s[..|s| - 1]);
    }
  }

  // ---------------------------------------------------------------- a number in a given base

  // The bignum library's conversion of a text in a base; any answer may come for a text that is no plain
  // digit string.
  type Conversion = (string, nat) -> Option<int>

  function TakeSign(s: string): (bool, string) {
    if s != "" && s[0] == '-' then (true, s[1..])
    else if s != "" && s[0] == '+' then (false, s[1..])
    else (false, s)
  }

  function Negated(x: Option<int>, neg: bool): Option<int> {
    if neg && x.Some? then Some(-x.value) else x
  }

  // The text without the spaces and the sign before a number.
  function Body(s: string): (bool, string) {
    var (neg, t) := TakeSign(SkipLeft(s));
    (neg, SkipLeft(t))
  }

  // The number that was split into digits and a multiplier.
  function Evaluate(split: Option<(string, nat)>, base: nat, conv: Conversion): Option<int> {
    match split
    case None => None
    case Some((digits, mul)) =>
      match conv(digits, base)
      case None => None
      case Some(x) => Some(x * mul)
  }

  function Unsigned(s: string, base: nat, conv: Conversion): Option<int> {
    Evaluate(SplitSuffix(TrimRight(s)), base, conv)
  }

  function ParseByBase(s: string, base: nat, conv: Conversion): Option<int> {
    var (neg, t) := Body(s);
    if t == "" then None else Negated(Unsigned(t, base, conv), neg)
  }

  predicate StartsWith(s: string, a: char, bs: string) {
    |s| >= 2 && s[0] == a && s[1] in bs
  }

  // The base a prefix announces, and the text after it.
  function TakeBase(s: string): (nat, string) {
    if StartsWith(s, '0', "xX") || StartsWith(s, '\\', "xX") then (16, s[2..])
    else if StartsWith(s, '\\', "0") then (8, s[2..])
    else if StartsWith(s, '\\', "bB") then (2, s[2..])
    else if s != "" && s[0] in "Hh" then (16, s[1..])
    else if s != "" && s[0] in "Bb" then (2, s[1..])
    else (10, s)
  }

  function Parse(s: string, conv: Conversion): Option<int> {
    var (neg, t) := Body(s);
    var (base, u) := TakeBase(t);
    var v := SkipLeft(u);
    if v == "" then None else Negated(ParseByBase(v, base, conv), neg)
  }

  datatype Result = Ok(value: int) | OutOfRange | InvalidArgs

  function Ranged(x: Option<int>, lower: int, upper: int): Result {
    match x
    case None => InvalidArgs
    case Some(v) => if v >= lower && v <= upper then Ok(v) else OutOfRange
  }

  // ---------------------------------------------------------------- plain digit strings

  function DigitOf(c: char): nat {
    if '0' <= c <= '9' then c as nat - '0' as nat
    else if 'a' <= c <= 'z' then c as nat - 'a' as nat + 10
    else if 'A' <= c <= 'Z' then c as nat - 'A' as nat + 10
    else 36
  }

  const NUMERALS: string := "0123456789"
  const SMALL: string := "abcdefghijklmnopqrstuvwxyz"
  const CAPITALS: string := "ABCDEFGHIJKLMNOPQRSTUVWXYZ"

  lemma DecimalDigits(k: nat)
    requires k < 10
    ensures DigitOf(NUMERALS[k]) == k
  {
    assert NUMERALS[k] as nat == '0' as nat + k;
  }

  lemma SmallDigits(k: nat)
    requires k < 26
    ensures DigitOf(SMALL[k]) == k + 10
  {
    assert SMALL[k] as nat == 'a' as nat + k;
  }

  lemma CapitalDigits(k: nat)
    requires k < 26
    ensures DigitOf(CAPITALS[k]) == k + 10
  {
    assert CAPITALS[k] as nat == 'A' as nat + k;
  }

  /** Digits are worth their position, letters of either case going on from 10... */
  lemma DigitsByPosition(k: nat)
    requires k < 36
    ensures if k < 10 then DigitOf(NUMERALS[k]) == k
            else DigitOf(SMALL[k - 10]) == DigitOf(CAPITALS[k - 10]) == k
  {
    if k < 10 {
      DecimalDigits(k);
    } else {
      SmallDigits(k - 10);
      CapitalDigits(k - 10);
    }
  }

  /** ...and no other character is a digit. */
  lemma DigitsOnly(c: char)
    ensures DigitOf(c) < 36 <==> c in NUMERALS || c in SMALL || c in CAPITALS
  {
    if DigitOf(c) < 10 {
      assert c == NUMERALS[DigitOf(c)];
    } else if DigitOf(c) < 36 {
      var k := DigitOf(c) - 10;
      assert c == SMALL[k] || c == CAPITALS[k];
    }
  }

  predicate IsNumber(s: string, base: nat) {
    s != "" && 2 <= base <= 36 && forall i :: 0 <= i < |s| ==> DigitOf(s[i]) < base
  }

  function Value(s: string, base: nat): nat {
    if s == "" then 0 else Value(s[..|s| - 1], base) * base + DigitOf(s[|s| - 1])
  }

  // The library reads plain digit strings as the numbers they stand for.
  ghost predicate Faithful(conv: Conversion) {
    forall s, base :: IsNumber(s, base) ==> conv(s, base) == Some(Value(s, base) as int)
  }

  lemma {:induction false} SkipLeftOver(sp: string, s: string)
    requires Spaces(sp) && s != "" && !IsSpace(s[0])
    ensures SkipLeft(sp + s) == s
  {
    if sp == "" {
      assert sp + s == s;
    } else {
      assert (sp + s)[1..] == sp[1..] + s && sp[0] in sp;
      SkipLeftOver(sp[1..], s);
    }
  }

  lemma {:induction false} TrimRightOver(s: string, sp: string)
    requires Spaces(sp) && s != "" && !IsSpace(s[|s| - 1])
    ensures TrimRight(s + sp) == s && TrimRight(s) == s
  {
    if sp == "" {
      assert s + sp == s;
    } else {
      assert (s + sp)[..|s + sp| - 1] == s + sp[..|sp| - 1] && sp[|sp| - 1] in sp;
      TrimRightOver(s, sp[..|sp| - 1]);
    }
  }

  lemma NoSpaces(s: string, base: nat)
    requires IsNumber(s, base)
    ensures !IsSpace(s[0]) && !IsSpace(s[|s| - 1]) && s[0] != '-' && s[0] != '+'
  {
    assert DigitOf(s[0]) < base && DigitOf(s[|s| - 1]) < base;
  }

  // An optional letter, and an optional i after it.
  predicate IsSuffix(letter: string, i: string) {
    && |letter| <= 1 && (letter != "" ==> LetterPower(letter[0]) > 0)
    && |i| <= 1 && (i != "" ==> IsI(i[0]))
  }

  function SuffixMultiplier(letter: string, i: string): nat
    requires IsSuffix(letter, i)
  {
    Multiplier(if letter == "" then 0 else LetterPower(letter[0]), i != "")
  }

  // The letters for the powers 1 to 8.
  predicate StandsFor(c: char, k: nat) {
    match k
    case 1 => c == 'K' || c == 'k'
    case 2 => c == 'M' || c == 'm'
    case 3 => c == 'G' || c == 'g'
    case 4 => c == 'T' || c == 't'
    case 5 => c == 'P' || c == 'p'
    case 6 => c == 'X' || c == 'x'
    case 7 => c == 'Z' || c == 'z'
    case 8 => c == 'Y' || c == 'y'
    case _ => false
  }

  const LETTERS: string := "KMGTPXZYkmgtpxzy"

  /** Each letter stands for its position, in either case, and nothing else stands for a power. */
  lemma LetterExactly(c: char, k: nat)
    ensures StandsFor(c, k) <==> 1 <= k <= 8 && (c == LETTERS[k - 1] || c == LETTERS[k + 7])
    ensures k > 0 ==> (LetterPower(c) == k <==> StandsFor(c, k))
    ensures LetterPower(c) == 0 <==> c !in LETTERS
  {
    assert LetterPower(c) > 0 ==> c == LETTERS[LetterPower(c) - 1] || c == LETTERS[LetterPower(c) + 7];
    assert forall j :: 0 <= j < 16 ==> LetterPower(LETTERS[j]) > 0;
  }

  // A suffix for the k-th power of its unit: its letter, unless k is 0, and an optional i.
  predicate IsSuffixFor(letter: string, i: string, k: nat) {
    && (if k == 0 then letter == "" else |letter| == 1 && StandsFor(letter[0], k))
    && (i == "" || i == "i" || i == "I")
  }

  function Unit(i: string): nat {
    if i == "" then 1000 else 1024
  }

  lemma SuffixFor(letter: string, i: string, k: nat)
    requires IsSuffixFor(letter, i, k)
    ensures IsSuffix(letter, i) && SuffixMultiplier(letter, i) == Pow(Unit(i), k)
  {
    if k > 0 {
      assert StandsFor(letter[0], k);
    }
  }

  // The last digit is not taken for a suffix.
  predicate Unambiguous(digits: string, letter: string, i: string)
    requires digits != ""
  {
    var last := digits[|digits| - 1];
    letter == "" ==> LetterPower(last) == 0 && (i == "" ==> !IsI(last))
  }

  function Core(digits: string, sp1: string, letter: string): string {
    if letter == "" then digits else digits + sp1 + letter
  }

  lemma TrimToCore(digits: string, sp1: string, letter: string, sp2: string, base: nat)
    requires IsNumber(digits, base) && Spaces(sp1) && Spaces(sp2) && IsSuffix(letter, "")
    ensures TrimRight(digits + sp1 + letter + sp2) == Core(digits, sp1, letter) == TrimRight(Core(digits, sp1, letter))
    ensures Core(digits, sp1, letter) != ""
  {
    NoSpaces(digits, base);
    if letter == "" {
      assert digits + sp1 + letter + sp2 == digits + (sp1 + sp2);
      TrimRightOver(digits, sp1 + sp2);
    } else {
      TrimRightOver(digits + sp1 + letter, sp2);
    }
  }

  lemma Joined(s: string, sp1: string, i: string, sp2: string)
    requires i == "" && Spaces(sp1) && Spaces(sp2)
    ensures s + sp1 + i + sp2 == s + (sp1 + sp2) && Spaces(sp1 + sp2)
  {}

  lemma LastOf(s: string, i: string)
    requires |i| == 1
    ensures (s + i)[|s + i| - 1] == i[0]
  {}

  // The text up to the i, if there is one, or else up to the letter.
  lemma TrimSuffix(digits: string, sp1: string, letter: string, sp2: string, i: string, sp3: string, base: nat)
    requires IsNumber(digits, base) && Spaces(sp1) && Spaces(sp2) && Spaces(sp3) && IsSuffix(letter, i)
    ensures TrimRight(digits + sp1 + letter + sp2 + i + sp3) ==
      if i == "" then Core(digits, sp1, letter) else digits + sp1 + letter + sp2 + i
  {
    if i == "" {
      Joined(digits + sp1 + letter, sp2, i, sp3);
      TrimToCore(digits, sp1, letter, sp2 + sp3, base);
    } else {
      LastOf(digits + sp1 + letter + sp2, i);
      TrimRightOver(digits + sp1 + letter + sp2 + i, sp3);
    }
  }

  // Taking off the letter, if there is one.
  lemma SplitLetterExact(u: string, digits: string, sp1: string, letter: string, base: nat, binary: bool)
    requires IsNumber(digits, base) && Spaces(sp1) && IsSuffix(letter, "") && u == Core(digits, sp1, letter)
    requires letter == "" ==> LetterPower(digits[|digits| - 1]) == 0
    ensures SplitLetter(u, binary)
      == Some((digits, Multiplier(if letter == "" then 0 else LetterPower(letter[0]), binary)))
  {
    NoSpaces(digits, base);
    if letter != "" {
      assert u[..|u| - 1] == digits + sp1 && u[|u| - 1] == letter[0];
      TrimRightOver(digits, sp1);
    }
  }

  lemma SplitIExact(t: string, u: string, sp2: string, i: string)
    requires Spaces(sp2) && IsSuffix("", i) && u != ""
    requires if i == "" then t == u && !IsI(u[|u| - 1]) else exists c :: t == c + sp2 + i && TrimRight(c + sp2) == u
    ensures SplitI(t) == SplitLetter(u, i != "")
  {
    if i != "" {
      var c :| t == c + sp2 + i && TrimRight(c + sp2) == u;
      assert t[..|t| - 1] == c + sp2 && t[|t| - 1] == i[0];
    }
  }

  lemma SplitSuffixExact(digits: string, sp1: string, letter: string, sp2: string, i: string, sp3: string, k: nat,
                         base: nat)
    requires IsNumber(digits, base) && Spaces(sp1) && Spaces(sp2) && Spaces(sp3) && IsSuffixFor(letter, i, k)
    requires Unambiguous(digits, letter, i)
    ensures SplitSuffix(digits + sp1 + letter + sp2 + i + sp3) == Some((digits, Pow(Unit(i), k)))
  {
    SuffixFor(letter, i, k);
    TrimSuffix(digits, sp1, letter, sp2, i, sp3, base);
    TrimToCore(digits, sp1, letter, sp2, base);
    var t, u := TrimRight(digits + sp1 + letter + sp2 + i + sp3), Core(digits, sp1, letter);
    SplitIExact(t, u, sp2, i);
    SplitLetterExact(u, digits, sp1, letter, base, i != "");
  }

  lemma {:induction false} TrimTwice(s: string)
    ensures TrimRight(TrimRight(s)) == TrimRight(s)
  {
    if s == "" || !IsSpace(s[|s| - 1]) {
    } else {
      TrimTwice(s[..|s| - 1]);
    }
  }

  // The spaces and the sign before a number.
  lemma BodyExact(sp1: string, sign: string, sp2: string, rest: string)
    requires Spaces(sp1) && Spaces(sp2) && sign in ["", "-", "+"]
    requires rest != "" && !IsSpace(rest[0]) && (sign == "" ==> rest[0] != '-' && rest[0] != '+')
    ensures Body(sp1 + sign + sp2 + rest) == (sign == "-", rest)
  {
    SkipLeftOver(sp2, rest);
    SkipLeftOver("", rest);
    if sign == "" {
      assert sp1 + sign + sp2 + rest == (sp1 + sp2) + rest;
      SkipLeftOver(sp1 + sp2, rest);
    } else {
      var signed := sign + sp2 + rest;
      assert sp1 + sign + sp2 + rest == sp1 + signed;
      SkipLeftOver(sp1, signed);
      assert signed[1..] == sp2 + rest;
    }
  }

  lemma UnsignedExact(t: string, digits: string, mul: nat, base: nat, conv: Conversion)
    requires SplitSuffix(t) == Some((digits, mul)) && IsNumber(digits, base) && Faithful(conv)
    ensures Unsigned(t, base, conv) == Some(Value(digits, base) * mul)
  {
    TrimTwice(t);
  }

  // Digits and a suffix, with spaces before, between and after its parts.
  function Written(digits: string, sp1: string, letter: string, sp2: string, i: string, sp3: string): string {
    digits + sp1 + letter + sp2 + i + sp3
  }

  lemma UnsignedSuffixed(t: string, digits: string, sp1: string, letter: string, sp2: string, i: string, k: nat,
                         sp3: string, base: nat, conv: Conversion)
    requires Spaces(sp1) && Spaces(sp2) && Spaces(sp3) && t == Written(digits, sp1, letter, sp2, i, sp3)
    requires IsNumber(digits, base) && IsSuffixFor(letter, i, k) && Unambiguous(digits, letter, i) && Faithful(conv)
    ensures Unsigned(t, base, conv) == Some(Value(digits, base) * Pow(Unit(i), k))
    ensures t != "" && !IsSpace(t[0]) && t[0] != '-' && t[0] != '+'
  {
    WrittenStarts(digits, sp1, letter, sp2, i, sp3, base);
    SplitSuffixExact(digits, sp1, letter, sp2, i, sp3, k, base);
    UnsignedExact(t, digits, Pow(Unit(i), k), base, conv);
  }

  // The number that a sign makes of another.
  function Signed(x: int, sign: string): int {
    if sign == "-" then -x else x
  }

  // The spaces and the sign before a number, when the rest is read as x.
  lemma ByBaseSigned(sp1: string, sign: string, sp2: string, t: string, x: int, base: nat, conv: Conversion)
    requires Spaces(sp1) && Spaces(sp2) && sign in ["", "-", "+"] && Unsigned(t, base, conv) == Some(x)
    requires t != "" && !IsSpace(t[0]) && t[0] != '-' && t[0] != '+'
    ensures ParseByBase(sp1 + sign + sp2 + t, base, conv) == Some(Signed(x, sign))
  {
    BodyExact(sp1, sign, sp2, t);
  }

  /**
   * A text made of spaces, a sign, digits of the base, and an SI suffix, in this order and each optional
   * but the digits, is read as that number: the digits times a power of 1000 or, with an i, of 1024.
   */
  lemma ByBaseExact(sp1: string, sign: string, sp2: string, digits: string, sp3: string, letter: string, sp4: string,
                    i: string, k: nat, sp5: string, base: nat, conv: Conversion)
    requires Spaces(sp1) && Spaces(sp2) && Spaces(sp3) && Spaces(sp4) && Spaces(sp5) && sign in ["", "-", "+"]
    requires IsNumber(digits, base) && IsSuffixFor(letter, i, k) && Unambiguous(digits, letter, i) && Faithful(conv)
    ensures ParseByBase(sp1 + sign + sp2 + Written(digits, sp3, letter, sp4, i, sp5), base, conv)
      == Some(Signed(Value(digits, base) * Pow(Unit(i), k), sign))
  {
    var t := Written(digits, sp3, letter, sp4, i, sp5);
    UnsignedSuffixed(t, digits, sp3, letter, sp4, i, k, sp5, base, conv);
    ByBaseSigned(sp1, sign, sp2, t, Value(digits, base) * Pow(Unit(i), k), base, conv);
  }

  lemma WrittenStarts(digits: string, sp1: string, letter: string, sp2: string, i: string, sp3: string, base: nat)
    requires IsNumber(digits, base)
    ensures var t := Written(digits, sp1, letter, sp2, i, sp3);
      t != "" && !IsSpace(t[0]) && t[0] != '-' && t[0] != '+' && t[0] == digits[0]
  {
    NoSpaces(digits, base);
  }

  // ---------------------------------------------------------------- digits that look like a suffix

  lemma {:induction false} PowAtLeast(b: nat, n: nat)
    requires b >= 1 && n >= 1
    ensures Pow(b, n) >= b
  {
    if n == 1 {
    } else {
      PowAtLeast(b, n - 1);
      assert Pow(b, n - 1) * b >= Pow(b, n - 1) * 1;
    }
  }

  // A letter that is a digit of the base is taken for a suffix, and the result is not the number.
  lemma LetterMisread(a: nat, base: nat, d: nat, mul: nat)
    requires 2 <= base <= 36 && 0 < d < 36 && mul >= 1000
    ensures a * mul != a * base + d
  {
    assert a * mul - a * base == a * (mul - base);
    if a >= 1 {
      assert a * (mul - base) >= 1 * (mul - base);
    }
  }

  // So are a final i and the letter before it.
  lemma KiMisread(a: nat, base: nat)
    requires 21 <= base <= 36
    ensures a * 1024 != (a * base + 20) * base + 18
  {
    match base {
      case 21 => case 22 => case 23 => case 24 => case 25 => case 26 =>
      case 27 => case 28 => case 29 => case 30 => case 31 =>
      case _ =>
        assert (a * base + 20) * base == a * (base * base) + 20 * base;
        assert a * (base * base) >= a * 1024;
    }
  }

  lemma MulBound(x: nat, y: nat, m: nat, n: nat)
    requires x <= m && y <= n
    ensures x * y <= m * n
  {
    assert x * y <= m * y;
    assert m * y <= m * n;
  }

  lemma FarApart(a: nat, sq: nat, rest: nat, mul: nat)
    requires sq <= 1296 && 0 < rest <= 1278 && mul >= 1024 * 1024
    ensures a * mul != a * sq + rest
  {
    assert a * mul - a * sq == a * (mul - sq);
    if a >= 1 {
      assert a * (mul - sq) >= 1 * (mul - sq);
    }
  }

  lemma IMisread(a: nat, base: nat, d: nat, mul: nat)
    requires base <= 36 && d < base && mul >= 1024 * 1024
    ensures a * mul != (a * base + d) * base + 18
  {
    MulBound(base, base, 36, 36);
    MulBound(d, base, 35, 36);
    FarApart(a, base * base, d * base + 18, mul);
    assert (a * base + d) * base == a * (base * base) + d * base;
  }

  // Without its last digit.
  lemma ValueStep(digits: string, base: nat)
    requires IsNumber(digits, base)
    ensures var rest, d := digits[..|digits| - 1], DigitOf(digits[|digits| - 1]);
      Value(digits, base) == Value(rest, base) * base + d && (rest != "" ==> IsNumber(rest, base))
  {}

  lemma {:induction false} NoTrim(s: string, base: nat)
    requires s == "" || IsNumber(s, base)
    ensures TrimRight(s) == s && SkipLeft(s) == s
  {
    if s == "" {
    } else {
      NoSpaces(s, base);
    }
  }

  // A digit string as it goes through the parser.
  lemma PlainDigits(digits: string, base: nat, conv: Conversion)
    requires IsNumber(digits, base)
    ensures ParseByBase(digits, base, conv) == Evaluate(SplitI(digits), base, conv)
  {
    NoTrim(digits, base);
    NoSpaces(digits, base);
  }

  // Splitting these digits takes some of them away, and what is left does not make up for it.
  predicate Misread(split: Option<(string, nat)>, digits: string, base: nat) {
    split.Some? ==> IsNumber(split.value.0, base) && Value(split.value.0, base) * split.value.1 != Value(digits, base)
  }

  lemma MisreadFails(digits: string, split: Option<(string, nat)>, base: nat, conv: Conversion)
    requires Misread(split, digits, base) && Faithful(conv)
    ensures Evaluate(split, base, conv) != Some(Value(digits, base) as int)
  {}

  lemma LetterTaken(digits: string, base: nat)
    requires IsNumber(digits, base) && !IsI(digits[|digits| - 1]) && LetterPower(digits[|digits| - 1]) > 0
    ensures Misread(SplitI(digits), digits, base)
  {
    var rest, last := digits[..|digits| - 1], digits[|digits| - 1];
    NoTrim(rest, base);
    ValueStep(digits, base);
    LetterDigits(last);
    var mul := Multiplier(LetterPower(last), false);
    PowAtLeast(1000, LetterPower(last));
    assert DigitOf(last) < base;
    LetterMisread(Value(rest, base), base, DigitOf(last), mul);
    assert SplitI(digits) == if rest == "" then None else Some((rest, mul));
  }

  lemma NothingTaken(digits: string, base: nat, conv: Conversion)
    requires IsNumber(digits, base) && Faithful(conv) && Unambiguous(digits, "", "")
    ensures ParseByBase(digits, base, conv) == Some(Value(digits, base) as int)
  {
    PlainDigits(digits, base, conv);
    assert SplitI(digits) == Some((digits, 1));
  }

  lemma PowSquare(n: nat)
    requires n >= 2
    ensures Pow(1024, n) >= 1024 * 1024 && Pow(1024, 1) == 1024
  {
    PowAtLeast(1024, n - 1);
    assert Pow(1024, n) == Pow(1024, n - 1) * 1024;
    assert Pow(1024, 1) == Pow(1024, 0) * 1024;
  }

  // What the letters are worth as digits.
  lemma LetterDigits(c: char)
    ensures LetterPower(c) > 0 ==> 16 <= DigitOf(c) < 36 && LetterPower(c) <= 8
    ensures LetterPower(c) == 1 ==> DigitOf(c) == 20
    ensures IsI(c) ==> DigitOf(c) == 18
    ensures DigitOf(c) < 16 || DigitOf(c) == 17 ==> LetterPower(c) == 0 && !IsI(c)
  {}

  // The value of digits that end in a letter and an i, against what is read.
  lemma LetterAndI(digits: string, base: nat, power: nat)
    requires |digits| >= 2 && IsNumber(digits, base) && IsI(digits[|digits| - 1])
    requires power == LetterPower(digits[|digits| - 2]) > 0
    ensures Value(digits[..|digits| - 2], base) * Pow(1024, power) != Value(digits, base)
  {
    var rest, less, c := digits[..|digits| - 1], digits[..|digits| - 2], digits[|digits| - 2];
    assert rest[..|rest| - 1] == less && rest[|rest| - 1] == c;
    LetterDigits(c);
    LetterDigits(digits[|digits| - 1]);
    ValueStep(digits, base);
    ValueStep(rest, base);
    assert DigitOf(c) < base;
    LetterAndIValue(Value(less, base), base, DigitOf(c), power);
  }

  lemma LetterAndIValue(a: nat, base: nat, d: nat, power: nat)
    requires 16 < base <= 36 && d < base && power >= 1 && (power == 1 ==> d == 20)
    ensures a * Pow(1024, power) != (a * base + d) * base + 18
  {
    PowSquare(if power > 1 then power else 2);
    if power == 1 {
      KiMisread(a, base);
    } else {
      IMisread(a, base, d, Pow(1024, power));
    }
  }

  // Digits that end in an i.
  lemma ITaken(digits: string, base: nat)
    requires IsNumber(digits, base) && IsI(digits[|digits| - 1])
    ensures Misread(SplitI(digits), digits, base)
  {
    var rest := digits[..|digits| - 1];
    NoTrim(rest, base);
    ValueStep(digits, base);
    LetterDigits(digits[|digits| - 1]);
    if rest != "" {
      var power := LetterPower(rest[|rest| - 1]);
      if power == 0 {
        OnlyITaken(digits, rest, base);
      } else {
        LetterAndITaken(digits, rest, base, power);
      }
    }
  }

  lemma OnlyITaken(digits: string, rest: string, base: nat)
    requires IsNumber(digits, base) && IsI(digits[|digits| - 1]) && rest == digits[..|digits| - 1] != ""
    requires LetterPower(rest[|rest| - 1]) == 0
    ensures Misread(SplitLetter(rest, true), digits, base)
  {
    assert SplitLetter(rest, true) == Some((rest, 1));
    ValueStep(digits, base);
    LetterDigits(digits[|digits| - 1]);
    assert Value(rest, base) * base >= Value(rest, base);
  }

  lemma LetterAndITaken(digits: string, rest: string, base: nat, power: nat)
    requires IsNumber(digits, base) && IsI(digits[|digits| - 1]) && rest == digits[..|digits| - 1] != ""
    requires power == LetterPower(rest[|rest| - 1]) > 0
    ensures Misread(SplitLetter(rest, true), digits, base)
  {
    var less := rest[..|rest| - 1];
    NoTrim(less, base);
    assert SplitLetter(rest, true) == if less == "" then None else Some((less, Pow(1024, power)));
    if less != "" {
      assert less == digits[..|digits| - 2] && IsNumber(less, base);
      LetterAndI(digits, base, power);
    }
  }

  /**
   * A digit string without a suffix is read as the number it stands for if and only if its last digit is
   * not one of the letters g, i, k, m, p, t, x, y and z; those are digits in bases from 17 on.
   */
  lemma DigitsExactly(digits: string, base: nat, conv: Conversion)
    requires IsNumber(digits, base) && Faithful(conv)
    ensures ParseByBase(digits, base, conv) == Some(Value(digits, base) as int) <==> Unambiguous(digits, "", "")
    ensures base <= 16 ==> Unambiguous(digits, "", "")
  {
    var last := digits[|digits| - 1];
    assert DigitOf(last) < base;
    LetterDigits(last);
    if Unambiguous(digits, "", "") {
      NothingTaken(digits, base, conv);
    } else if !IsI(last) {
      PlainDigits(digits, base, conv);
      LetterTaken(digits, base);
      MisreadFails(digits, SplitI(digits), base, conv);
    } else {
      PlainDigits(digits, base, conv);
      ITaken(digits, base);
      MisreadFails(digits, SplitI(digits), base, conv);
    }
  }

  // ---------------------------------------------------------------- numbers that announce their base

  predicate IsPrefix(prefix: string, base: nat) {
    || (prefix in ["0x", "0X", "\\x", "\\X", "h", "H"] && base == 16)
    || (prefix == "\\0" && base == 8)
    || (prefix in ["\\b", "\\B", "b", "B"] && base == 2)
  }

  lemma TakePrefix(prefix: string, rest: string, base: nat)
    requires IsPrefix(prefix, base)
    ensures TakeBase(prefix + rest) == (base, rest)
    ensures !IsSpace(prefix[0]) && prefix[0] != '-' && prefix[0] != '+'
  {
    assert (prefix + rest)[0] == prefix[0] && (prefix + rest)[|prefix|..] == rest;
    assert |prefix| == 2 ==> (prefix + rest)[1] == prefix[1];
  }

  /** Every prefix announces its base and is taken off, and a text without one is taken as decimal. */
  lemma TakeBaseExactly(s: string, prefix: string, base: nat)
    ensures IsPrefix(prefix, base) && prefix <= s ==> TakeBase(s) == (base, s[|prefix|..])
    ensures (forall p, b :: IsPrefix(p, b) ==> !(p <= s)) ==> TakeBase(s) == (10, s)
  {
    if IsPrefix(prefix, base) && prefix <= s {
      TakePrefix(prefix, s[|prefix|..], base);
      assert s == prefix + s[|prefix|..];
    }
    if s != "" {
      var one := [s[0]];
      assert one <= s && (IsPrefix(one, 16) || IsPrefix(one, 2) || s[0] !in "HhBb");
      if |s| > 1 {
        var two := [s[0], s[1]];
        assert two <= s && (IsPrefix(two, 16) || IsPrefix(two, 8) || IsPrefix(two, 2) || TakeBase(s).1 != s[2..]);
      }
    }
  }

  lemma {:induction false} SkipTwice(s: string)
    ensures SkipLeft(SkipLeft(s)) == SkipLeft(s)
  {
    if s == "" || !IsSpace(s[0]) {
    } else {
      SkipTwice(s[1..]);
    }
  }

  // After spaces, a sign and a prefix, the rest is read in the base announced.
  lemma ParsePrefixed(sp1: string, sign: string, sp2: string, prefix: string, rest: string, base: nat, conv: Conversion)
    requires Spaces(sp1) && Spaces(sp2) && sign in ["", "-", "+"] && IsPrefix(prefix, base)
    ensures Parse(sp1 + sign + sp2 + (prefix + rest), conv) == Negated(ParseByBase(rest, base, conv), sign == "-")
  {
    TakePrefix(prefix, rest, base);
    BodyExact(sp1, sign, sp2, prefix + rest);
    SkipTwice(rest);
  }

  lemma ParsePlain(sp1: string, sign: string, sp2: string, rest: string, conv: Conversion)
    requires Spaces(sp1) && Spaces(sp2) && sign in ["", "-", "+"]
    requires rest != "" && '0' <= rest[0] <= '9' && !StartsWith(rest, '0', "xX")
    ensures Parse(sp1 + sign + sp2 + rest, conv) == Negated(ParseByBase(rest, 10, conv), sign == "-")
  {
    BodyExact(sp1, sign, sp2, rest);
    assert TakeBase(rest) == (10, rest);
    SkipTwice(rest);
  }

  // A number without a sign, after spaces.
  lemma UnsignedWritten(sp1: string, t: string, digits: string, sp2: string, letter: string, sp3: string, i: string,
                        k: nat, sp4: string, base: nat, conv: Conversion)
    requires Spaces(sp1) && Spaces(sp2) && Spaces(sp3) && Spaces(sp4)
    requires IsNumber(digits, base) && base <= 16 && IsSuffixFor(letter, i, k) && Faithful(conv)
    requires t == Written(digits, sp2, letter, sp3, i, sp4)
    ensures ParseByBase(sp1 + t, base, conv) == Some(Value(digits, base) * Pow(Unit(i), k))
  {
    assert DigitOf(digits[|digits| - 1]) < base;
    LetterDigits(digits[|digits| - 1]);
    NoSign(sp1, t);
    ByBaseExact(sp1, "", "", digits, sp2, letter, sp3, i, k, sp4, base, conv);
  }

  lemma NoSign(sp: string, t: string)
    ensures sp + "" + "" + t == sp + t
  {}

  lemma PrefixedValue(sp1: string, sign: string, sp2: string, prefix: string, rest: string, x: int, base: nat,
                      conv: Conversion)
    requires Spaces(sp1) && Spaces(sp2) && sign in ["", "-", "+"] && IsPrefix(prefix, base)
    requires ParseByBase(rest, base, conv) == Some(x)
    ensures Parse(sp1 + sign + sp2 + (prefix + rest), conv) == Some(Signed(x, sign))
  {
    ParsePrefixed(sp1, sign, sp2, prefix, rest, base, conv);
  }

  /** With a prefix the digits are read in the base it announces. */
  lemma PrefixedExact(sp1: string, sign: string, sp2: string, prefix: string, sp3: string, digits: string, sp4: string,
                      letter: string, sp5: string, i: string, k: nat, sp6: string, base: nat, conv: Conversion)
    requires Spaces(sp1) && Spaces(sp2) && Spaces(sp3) && Spaces(sp4) && Spaces(sp5) && Spaces(sp6)
    requires sign in ["", "-", "+"] && IsPrefix(prefix, base) && IsNumber(digits, base) && IsSuffixFor(letter, i, k)
    requires Faithful(conv)
    ensures Parse(sp1 + sign + sp2 + (prefix + (sp3 + Written(digits, sp4, letter, sp5, i, sp6))), conv)
      == Some(Signed(Value(digits, base) * Pow(Unit(i), k), sign))
  {
    var t := Written(digits, sp4, letter, sp5, i, sp6);
    UnsignedWritten(sp3, t, digits, sp4, letter, sp5, i, k, sp6, base, conv);
    PrefixedValue(sp1, sign, sp2, prefix, sp3 + t, Value(digits, base) * Pow(Unit(i), k), base, conv);
  }

  // Zero exa without a space looks like a hexadecimal prefix.
  predicate ZeroExa(digits: string, sp: string, letter: string) {
    digits == "0" && sp == "" && letter in ["x", "X"]
  }

  lemma DecimalValue(sp1: string, sign: string, sp2: string, t: string, x: int, conv: Conversion)
    requires Spaces(sp1) && Spaces(sp2) && sign in ["", "-", "+"]
    requires t != "" && '0' <= t[0] <= '9' && !StartsWith(t, '0', "xX") && ParseByBase(t, 10, conv) == Some(x)
    ensures Parse(sp1 + sign + sp2 + t, conv) == Some(Signed(x, sign))
  {
    ParsePlain(sp1, sign, sp2, t, conv);
  }

  lemma DecimalStart(digits: string, sp1: string, letter: string, sp2: string, i: string, sp3: string)
    requires IsNumber(digits, 10) && Spaces(sp1) && Spaces(sp2) && Spaces(sp3) && IsSuffix(letter, i)
    requires !ZeroExa(digits, sp1, letter)
    ensures var t := Written(digits, sp1, letter, sp2, i, sp3);
      t != "" && '0' <= t[0] <= '9' && !StartsWith(t, '0', "xX") && "" + t == t
  {
    NoHexPrefix(digits, sp1, letter, sp2, i, sp3);
    assert DigitOf(digits[0]) < 10;
  }

  /** Without a prefix a decimal number is read correctly if and only if it does not begin with "0x". */
  lemma DecimalExactly(sp1: string, sign: string, sp2: string, digits: string, sp3: string, letter: string, sp4: string,
                       i: string, k: nat, sp5: string, conv: Conversion)
    requires Spaces(sp1) && Spaces(sp2) && Spaces(sp3) && Spaces(sp4) && Spaces(sp5)
    requires sign in ["", "-", "+"] && IsNumber(digits, 10) && IsSuffixFor(letter, i, k) && Faithful(conv)
    ensures !ZeroExa(digits, sp3, letter) <==>
      Parse(sp1 + sign + sp2 + Written(digits, sp3, letter, sp4, i, sp5), conv)
        == Some(Signed(Value(digits, 10) * Pow(Unit(i), k), sign))
  {
    SuffixFor(letter, i, k);
    var t := Written(digits, sp3, letter, sp4, i, sp5);
    if ZeroExa(digits, sp3, letter) {
      ZeroExaFails(sp1, sign, sp2, letter, sp4, i, sp5, conv);
    } else {
      DecimalStart(digits, sp3, letter, sp4, i, sp5);
      UnsignedWritten("", t, digits, sp3, letter, sp4, i, k, sp5, 10, conv);
      DecimalValue(sp1, sign, sp2, t, Value(digits, 10) * Pow(Unit(i), k), conv);
    }
  }

  lemma NoHexPrefix(digits: string, sp1: string, letter: string, sp2: string, i: string, sp3: string)
    requires IsNumber(digits, 10) && Spaces(sp1) && Spaces(sp2) && Spaces(sp3) && IsSuffix(letter, i)
    requires !ZeroExa(digits, sp1, letter)
    ensures !StartsWith(Written(digits, sp1, letter, sp2, i, sp3), '0', "xX")
  {
    var t := Written(digits, sp1, letter, sp2, i, sp3);
    if |digits| > 1 {
      assert t[1] == digits[1] && DigitOf(digits[1]) < 10;
    } else if sp1 != "" {
      assert t[1] == sp1[0] && sp1[0] in sp1;
    } else if letter != "" {
      assert t[1] == letter[0] && letter == [letter[0]] && digits == [digits[0]];
    } else if sp2 != "" {
      assert t[1] == sp2[0] && sp2[0] in sp2;
    } else if i != "" {
      assert t[1] == i[0];
    } else if sp3 != "" {
      assert t[1] == sp3[0] && sp3[0] in sp3;
    }
  }

  lemma HexPrefix(letter: string, sp1: string, i: string, sp2: string) returns (prefix: string)
    requires letter in ["x", "X"]
    ensures Written("0", "", letter, sp1, i, sp2) == prefix + (sp1 + i + sp2) && IsPrefix(prefix, 16)
  {
    prefix := "0" + letter;
    Regrouped(prefix, sp1, i, sp2);
    assert "0" + "" == "0";
    assert prefix == "0x" || prefix == "0X";
  }

  lemma Regrouped(a: string, b: string, c: string, d: string)
    ensures a + b + c + d == a + (b + c + d)
  {}

  lemma ZeroExaFails(sp1: string, sign: string, sp2: string, letter: string, sp4: string, i: string, sp5: string,
                     conv: Conversion)
    requires Spaces(sp1) && Spaces(sp2) && Spaces(sp4) && Spaces(sp5) && sign in ["", "-", "+"]
    requires letter in ["x", "X"] && IsSuffix("", i)
    ensures Parse(sp1 + sign + sp2 + Written("0", "", letter, sp4, i, sp5), conv) == None
  {
    var prefix := HexPrefix(letter, sp4, i, sp5);
    ParsePrefixed(sp1, sign, sp2, prefix, sp4 + i + sp5, 16, conv);
    NothingLeft(sp4, i, sp5, 16, conv);
  }

  lemma NothingLeft(sp1: string, i: string, sp2: string, base: nat, conv: Conversion)
    requires Spaces(sp1) && Spaces(sp2) && IsSuffix("", i)
    ensures ParseByBase(sp1 + i + sp2, base, conv) == None
  {
    if i == "" {
      assert sp1 + i + sp2 == sp1 + sp2;
      OnlySpaces(sp1 + sp2);
    } else {
      assert sp1 + i + sp2 == sp1 + "" + "" + (i + sp2);
      BodyExact(sp1, "", "", i + sp2);
      TrimRightOver(i, sp2);
      TrimTwice(i + sp2);
      assert i[..0] == "";
    }
  }

  lemma {:induction false} OnlySpaces(s: string)
    requires Spaces(s)
    ensures SkipLeft(s) == ""
  {
    if s == "" {
    } else {
      assert s[0] in s;
      OnlySpaces(s[1..]);
    }
  }

  // A text that begins with a sign goes on to the parser for decimal numbers, which takes a sign of its own.
  lemma SignedRest(sp1: string, sign: string, sp2: string, rest: string, x: int, conv: Conversion)
    requires Spaces(sp1) && Spaces(sp2) && sign in ["-", "+"] && rest != "" && rest[0] in "-+"
    requires ParseByBase(rest, 10, conv) == Some(x)
    ensures Parse(sp1 + sign + sp2 + rest, conv) == Some(Signed(x, sign))
  {
    BodyExact(sp1, sign, sp2, rest);
    assert TakeBase(rest) == (10, rest);
    assert SkipLeft(rest) == rest;
  }

  // A decimal number with a sign, as the parser for a given base reads it.
  lemma SignedDecimal(rest: string, sign: string, sp1: string, digits: string, sp2: string, letter: string, sp3: string,
                      i: string, k: nat, sp4: string, conv: Conversion)
    requires Spaces(sp1) && Spaces(sp2) && Spaces(sp3) && Spaces(sp4) && sign in ["-", "+"]
    requires IsNumber(digits, 10) && IsSuffixFor(letter, i, k) && Faithful(conv)
    requires rest == sign + sp1 + Written(digits, sp2, letter, sp3, i, sp4)
    ensures ParseByBase(rest, 10, conv) == Some(Signed(Value(digits, 10) * Pow(Unit(i), k), sign))
    ensures rest != "" && rest[0] in "-+"
  {
    assert "" + sign + sp1 + Written(digits, sp2, letter, sp3, i, sp4) == rest;
    DecimalUnambiguous(digits, letter, i);
    ByBaseExact("", sign, sp1, digits, sp2, letter, sp3, i, k, sp4, 10, conv);
  }

  /** A second sign is not refused: a decimal number with two of them is negative if exactly one is a minus. */
  lemma TwoSigns(sp1: string, sign1: string, sp2: string, sign2: string, sp3: string, digits: string, sp4: string,
                 letter: string, sp5: string, i: string, k: nat, sp6: string, rest: string, conv: Conversion)
    requires Spaces(sp1) && Spaces(sp2) && Spaces(sp3) && Spaces(sp4) && Spaces(sp5) && Spaces(sp6)
    requires sign1 in ["-", "+"] && sign2 in ["-", "+"] && IsNumber(digits, 10) && IsSuffixFor(letter, i, k)
    requires Faithful(conv) && rest == sign2 + sp3 + Written(digits, sp4, letter, sp5, i, sp6)
    ensures Parse(sp1 + sign1 + sp2 + rest, conv)
      == Some(Signed(Signed(Value(digits, 10) * Pow(Unit(i), k), sign2), sign1))
  {
    SignedDecimal(rest, sign2, sp3, digits, sp4, letter, sp5, i, k, sp6, conv);
    SignedRest(sp1, sign1, sp2, rest, Signed(Value(digits, 10) * Pow(Unit(i), k), sign2), conv);
  }

  lemma DecimalUnambiguous(digits: string, letter: string, i: string)
    requires IsNumber(digits, 10)
    ensures Unambiguous(digits, letter, i)
  {
    assert DigitOf(digits[|digits| - 1]) < 10;
    LetterDigits(digits[|digits| - 1]);
  }

  // ---------------------------------------------------------------- into 64 bits

  // The conversion on machines with 32-bit longs: two halves, and two's complement for negative numbers.
  function ToUint64(v: int): (r: nat)
    ensures r < TWO64
  {
    var neg := v < 0;
    var pos: nat := if neg then -v else v;
    var hi := U32(pos / 0x1_0000_0000);
    var lo := U32(pos);
    var r := hi * 0x1_0000_0000 + lo;
    if neg then 0xFFFF_FFFF_FFFF_FFFF - U64(r - 1) else r
  }

  // Reading an unsigned 64-bit number as a signed one.
  function Signed64(u: nat): int {
    if u < TWO63 then u else u - TWO64
  }

  /** The result is congruent to the number modulo 2 to the 64, whatever the number. */
  lemma ToUint64Exact(v: int)
    ensures ToUint64(v) == U64(v)
    ensures -0x8000_0000_0000_0000 <= v < TWO63 ==> Signed64(ToUint64(v)) == v
  {
    var neg := v < 0;
    var pos: nat := if neg then -v else v;
    var q, lo := pos / 0x1_0000_0000, pos % 0x1_0000_0000;
    var p, hi := q / 0x1_0000_0000, q % 0x1_0000_0000;
    var r := hi * 0x1_0000_0000 + lo;
    assert pos == p * 0x1_0000_0000_0000_0000 + r;
    DivModUnique(pos, 0x1_0000_0000_0000_0000, p, r);
    if neg && r > 0 {
      assert v == (-p - 1) * 0x1_0000_0000_0000_0000 + (0x1_0000_0000_0000_0000 - r);
      DivModUnique(v, 0x1_0000_0000_0000_0000, -p - 1, 0x1_0000_0000_0000_0000 - r);
    } else if neg {
      DivModUnique(v, 0x1_0000_0000_0000_0000, -p, 0);
    }
  }

  datatype Int64Result = Ok64(value: int) | Failed64(result: Result)

  // Parsing a signed 64-bit number, with 64-bit longs or without.
  function ParseInt64(s: string, conv: Conversion, wide: bool): Int64Result {
    var r := Ranged(Parse(s, conv), -0x8000_0000_0000_0000, 0x7FFF_FFFF_FFFF_FFFF);
    match r
    case Ok(v) => Ok64(if wide then v else Signed64(ToUint64(v)))
    case _ => Failed64(r)
  }

  function ParseUint64(s: string, conv: Conversion, wide: bool): Int64Result {
    var r := Ranged(Parse(s, conv), 0, 0xFFFF_FFFF_FFFF_FFFF);
    match r
    case Ok(v) => Ok64(if wide then v else ToUint64(v))
    case _ => Failed64(r)
  }

  /** Either the very number that was read comes out, or an error; never a wrapped value. */
  lemma NeverWraps(s: string, conv: Conversion, wide: bool)
    ensures ParseInt64(s, conv, wide).Ok64? ==> Parse(s, conv) == Some(ParseInt64(s, conv, wide).value)
    ensures ParseUint64(s, conv, wide).Ok64? ==> Parse(s, conv) == Some(ParseUint64(s, conv, wide).value)
    ensures ParseInt64(s, conv, wide) == Failed64(OutOfRange) <==>
      Parse(s, conv).Some? && !(-0x8000_0000_0000_0000 <= Parse(s, conv).value < TWO63)
    ensures ParseUint64(s, conv, wide) == Failed64(OutOfRange) <==>
      Parse(s, conv).Some? && !(0 <= Parse(s, conv).value < TWO64)
  {
    if Parse(s, conv).Some? {
      ToUint64Exact(Parse(s, conv).value);
    }
  }
}
