/** The number parser as it works on buffers, by advancing pointers and overwriting characters. */
module NumberParser {
  import opened CStrings
  import opened Numbers

  /** The table of SI multipliers: powers of 1000 and of 1024. */
  method BuildMultipliers() returns (mult: array<nat>, multI: array<nat>)
    ensures fresh(mult) && fresh(multI) && IsTable(mult[..], false) && IsTable(multI[..], true)
  {
    mult, multI := new nat[8], new nat[8];
    var i := 0;
    while i < 8
      invariant 0 <= i <= 8
      invariant forall k :: 0 <= k < i ==> mult[k] == Multiplier(k + 1, false) && multI[k] == Multiplier(k + 1, true)
    {
      mult[i], multI[i] := 1000, 1024;
      PowOne(1000);
      PowOne(1024);
      var j := 0;
      while j < i
        invariant 0 <= j <= i && mult[i] == Pow(1000, j + 1) && multI[i] == Pow(1024, j + 1)
        invariant forall k :: 0 <= k < i ==> mult[k] == Multiplier(k + 1, false) && multI[k] == Multiplier(k + 1, true)
      {
        assert mult[0] == Multiplier(1, false) && multI[0] == Multiplier(1, true);
        mult[i] := mult[i] * mult[0];
        multI[i] := multI[i] * multI[0];
        j := j + 1;
      }
      i := i + 1;
    }
  }

  lemma PowOne(b: nat)
    ensures Pow(b, 1) == b
  {
    assert Pow(b, 1) == Pow(b, 0) * b;
  }

  predicate IsTable(table: seq<nat>, binary: bool) {
    |table| == 8 && forall k :: 0 <= k < 8 ==> table[k] == Pow(if binary then 1024 else 1000, k + 1)
  }

  method SkipSpaces(str: array<char>, from: nat, ghost t: string) returns (p: nat)
    requires Holds(str[..], from, t)
    ensures Holds(str[..], p, SkipLeft(t))
  {
    p := from;
    ghost var u := t;
    while str[p] != NUL && IsSpace(str[p])
      invariant Holds(str[..], p, u) && SkipLeft(u) == SkipLeft(t)
      decreases |u|
    {
      HoldsTail(str[..], p, u);
      u := u[1..];
      p := p + 1;
    }
    HoldsHead(str[..], p, u);
  }

  lemma HoldsHead(s: seq<char>, p: nat, t: string)
    requires Holds(s, p, t)
    ensures s[p] == NUL <==> t == ""
    ensures t != "" ==> s[p] == t[0]
    ensures |t| > 1 ==> s[p + 1] == t[1]
    ensures |t| == 1 ==> s[p + 1] == NUL
  {
    assert t != "" ==> s[p + 0] == t[0];
  }

  lemma HoldsTail(s: seq<char>, p: nat, t: string)
    requires Holds(s, p, t) && s[p] != NUL
    ensures t != "" && t[0] == s[p] && Holds(s, p + 1, t[1..])
  {
    HoldsHead(s, p, t);
    forall i | 0 <= i < |t[1..]|
      ensures s[p + 1 + i] == t[1..][i] && t[1..][i] != NUL
    {
      assert s[p + (i + 1)] == t[i + 1];
    }
  }

  lemma HoldsAt(s: seq<char>, p: nat, t: string, n: nat)
    requires Holds(s, p, t) && n <= |t|
    ensures s[p + n] == NUL <==> n == |t|
  {
    if n < |t| {
      assert s[p + n] == t[n];
    }
  }

  method StrLength(buf: array<char>, ghost t: string) returns (n: nat)
    requires Holds(buf[..], 0, t)
    ensures n == |t|
  {
    n := 0;
    while buf[n] != NUL
      invariant 0 <= n <= |t|
      decreases |t| - n
    {
      HoldsAt(buf[..], 0, t, n);
      n := n + 1;
    }
    HoldsAt(buf[..], 0, t, n);
  }

  // Overwrites spaces, and the NUL after the text, from position end backwards.
  method TrimSpaces(buf: array<char>, end: int, ghost t: string)
    requires Holds(buf[..], 0, t) && end == |t|
    modifies buf
    ensures Holds(buf[..], 0, TrimRight(t))
  {
    var e := end;
    ghost var n := |t|;
    forall i | 0 <= i < |t|
      ensures buf[i] == t[i] != NUL
    {
      assert buf[..][0 + i] == t[i];
    }
    assert t[..|t|] == t;
    while e >= 0 && (buf[e] == NUL || IsSpace(buf[e]))
      invariant -1 <= e <= |t| && n == (if e < |t| then e + 1 else |t|)
      invariant forall i :: 0 <= i < n ==> buf[i] == t[i] != NUL
      invariant forall i :: n <= i <= |t| ==> buf[i] == NUL
      invariant TrimRight(t[..n]) == TrimRight(t)
    {
      if e < |t| {
        assert t[..e + 1][..e] == t[..e];
      } else {
        assert t[..|t|] == t;
      }
      buf[e] := NUL;
      e := e - 1;
      n := e + 1;
      assert e + 1 == |t| ==> t[..|t|] == t;
    }
    assert TrimRight(t[..n]) == t[..n];
  }

  // Shortens a text by its last character.
  method CutLast(buf: array<char>, at: nat, ghost t: string)
    requires Holds(buf[..], 0, t) && t != "" && at == |t| - 1
    modifies buf
    ensures Holds(buf[..], 0, t[..at])
  {
    ghost var before := buf[..];
    forall i | 0 <= i < |t|
      ensures buf[i] == t[i] != NUL
    {
      assert before[0 + i] == t[i];
    }
    buf[at] := NUL;
  }

  // Takes a final i off, and the spaces before it.
  method CutI(buf: array<char>, n: nat, ghost t: string) returns (gotI: bool, ghost u: string)
    requires Holds(buf[..], 0, t) && n == |t| > 0 && TrimRight(t) == t
    modifies buf
    ensures gotI == IsI(t[n - 1]) && u == (if gotI then TrimRight(t[..n - 1]) else t)
    ensures Holds(buf[..], 0, u) && TrimRight(u) == u
  {
    LastChar(buf[..], t);
    gotI, u := false, t;
    if IsI(buf[n - 1]) {
      gotI := true;
      CutLast(buf, n - 1, t);
      TrimSpaces(buf, n - 1, t[..n - 1]);
      TrimTwice(t[..n - 1]);
      u := TrimRight(t[..n - 1]);
    }
  }

  lemma LastChar(s: seq<char>, t: string)
    requires Holds(s, 0, t) && t != ""
    ensures s[|t| - 1] == t[|t| - 1]
  {
    assert s[0 + (|t| - 1)] == t[|t| - 1];
  }

  /** Takes an SI suffix off the text in a buffer; `rest` is the text that stays there. */
  method GetPrefixMultiplier(buf: array<char>, mult: array<nat>, multI: array<nat>, ghost t: string)
    returns (mul: Option<nat>, ghost rest: string)
    requires Holds(buf[..], 0, t) && IsTable(mult[..], false) && IsTable(multI[..], true)
    modifies buf
    ensures match SplitSuffix(t)
            case None => mul == None
            case Some((v, m)) => mul == Some(m) && rest == v && Holds(buf[..], 0, rest)
  {
    rest := t;
    var n := StrLength(buf, t);
    if n == 0 {
      return None, rest;
    }
    TrimSpaces(buf, n, t);
    ghost var t1 := TrimRight(t);
    TrimTwice(t);
    n := StrLength(buf, t1);
    if n < 1 {
      return None, rest;
    }
    var gotI;
    ghost var u;
    gotI, u := CutI(buf, n, t1);
    n := StrLength(buf, u);
    if n < 1 {
      return None, rest;
    }
    mul, rest := CutLetter(buf, n, gotI, mult, multI, u);
  }

  method CutLetter(buf: array<char>, n: nat, gotI: bool, mult: array<nat>, multI: array<nat>, ghost u: string)
    returns (mul: Option<nat>, ghost rest: string)
    requires Holds(buf[..], 0, u) && n == |u| > 0 && IsTable(mult[..], false) && IsTable(multI[..], true)
    modifies buf
    ensures match SplitLetter(u, gotI)
            case None => mul == None
            case Some((v, m)) => mul == Some(m) && rest == v && Holds(buf[..], 0, rest)
  {
    LastChar(buf[..], u);
    rest := u;
    var power := LetterPower(buf[n - 1]);
    LetterDigits(u[n - 1]);
    if power > 0 {
      CutLast(buf, n - 1, u);
      TrimSpaces(buf, n - 1, u[..n - 1]);
      rest := TrimRight(u[..n - 1]);
    }
    var m := StrLength(buf, rest);
    if m < 1 {
      return None, rest;
    }
    mul := Some(if power == 0 then 1 else if gotI then multI[power - 1] else mult[power - 1]);
    assert IsTable(old(mult[..]), false) && IsTable(old(multI[..]), true);
  }

  method StrDup(str: array<char>, from: nat, ghost t: string) returns (buf: array<char>)
    requires Holds(str[..], from, t)
    ensures fresh(buf) && Holds(buf[..], 0, t)
  {
    var n := 0;
    while str[from + n] != NUL
      invariant 0 <= n <= |t|
      decreases |t| - n
    {
      HoldsAt(str[..], from, t, n);
      n := n + 1;
    }
    HoldsAt(str[..], from, t, n);
    buf := new char[n + 1](i requires 0 <= i <= n reads str => if from + i < str.Length then str[from + i] else NUL);
    forall i | 0 <= i < |t|
      ensures buf[0 + i] == t[i]
    {
      assert str[..][from + i] == t[i];
    }
  }

  // Reads a sign.
  method SkipSign(str: array<char>, from: nat, ghost t: string) returns (neg: bool, p: nat)
    requires Holds(str[..], from, t)
    ensures neg == TakeSign(t).0 && Holds(str[..], p, TakeSign(t).1)
  {
    neg, p := false, from;
    HoldsHead(str[..], p, t);
    if str[p] != NUL {
      HoldsTail(str[..], p, t);
      if str[p] == '-' {
        neg := true;
        p := p + 1;
      } else if str[p] == '+' {
        p := p + 1;
      }
    }
  }

  method ParseBigintByBase(str: array<char>, from: nat, base: nat, conv: Conversion, mult: array<nat>,
                           multI: array<nat>, ghost t: string)
    returns (val: Option<int>)
    requires Holds(str[..], from, t) && IsTable(mult[..], false) && IsTable(multI[..], true)
    ensures val == ParseByBase(t, base, conv)
  {
    var p := SkipSpaces(str, from, t);
    var neg;
    neg, p := SkipSign(str, p, SkipLeft(t));
    p := SkipSpaces(str, p, TakeSign(SkipLeft(t)).1);
    ghost var u := Body(t).1;
    HoldsHead(str[..], p, u);
    if str[p] == NUL {
      return None;
    }
    var buf := StrDup(str, p, u);
    var len := StrLength(buf, u);
    TrimSpaces(buf, len, u);
    var mul;
    ghost var rest;
    mul, rest := GetPrefixMultiplier(buf, mult, multI, TrimRight(u));
    if mul == None {
      return None;
    }
    TextIs(buf[..], 0, rest);
    var tmp := conv(Text(buf[..], 0), base);
    if tmp == None {
      return None;
    }
    var x := tmp.value * mul.value;
    val := Some(if neg then -x else x);
  }

  // Reads the prefix that announces a base.
  method SkipPrefix(str: array<char>, from: nat, ghost t: string) returns (base: nat, p: nat)
    requires Holds(str[..], from, t)
    ensures base == TakeBase(t).0 && Holds(str[..], p, TakeBase(t).1)
  {
    base, p := 10, from;
    HoldsHead(str[..], p, t);
    if str[p] != NUL {
      HoldsTail(str[..], p, t);
      if str[p + 1] != NUL {
        HoldsTail(str[..], p + 1, t[1..]);
      }
    }
    var two := str[p] != NUL && str[p + 1] != NUL;
    if two && (str[p] == '0' || str[p] == '\\') && str[p + 1] in "xX" {
      base, p := 16, p + 2;
    } else if two && str[p] == '\\' && str[p + 1] in "0" {
      base, p := 8, p + 2;
    } else if two && str[p] == '\\' && str[p + 1] in "bB" {
      base, p := 2, p + 2;
    } else if str[p] == 'H' || str[p] == 'h' {
      base, p := 16, p + 1;
    } else if str[p] == 'B' || str[p] == 'b' {
      base, p := 2, p + 1;
    }
  }

  method ParseBigint(str: array<char>, conv: Conversion, mult: array<nat>, multI: array<nat>, ghost t: string)
    returns (val: Option<int>)
    requires Holds(str[..], 0, t) && IsTable(mult[..], false) && IsTable(multI[..], true)
    ensures val == Parse(t, conv)
  {
    var p := SkipSpaces(str, 0, t);
    var neg, base;
    neg, p := SkipSign(str, p, SkipLeft(t));
    p := SkipSpaces(str, p, TakeSign(SkipLeft(t)).1);
    ghost var u := Body(t).1;
    base, p := SkipPrefix(str, p, u);
    ghost var v := TakeBase(u).1;
    p := SkipSpaces(str, p, v);
    HoldsHead(str[..], p, SkipLeft(v));
    if str[p] == NUL {
      return None;
    }
    var buf := StrDup(str, p, SkipLeft(v));
    val := ParseBigintByBase(buf, 0, base, conv, mult, multI, SkipLeft(v));
    if neg && val != None {
      val := Some(-val.value);
    }
  }

  /** Parses a signed 64-bit number, with 64-bit longs or without. */
  method StrParseInt64(str: array<char>, conv: Conversion, mult: array<nat>, multI: array<nat>, wide: bool,
                       ghost t: string)
    returns (ret: Int64Result)
    requires Holds(str[..], 0, t) && IsTable(mult[..], false) && IsTable(multI[..], true)
    ensures ret == ParseInt64(t, conv, wide)
    ensures ret.Ok64? ==> Parse(t, conv) == Some(ret.value)
  {
    var v := ParseBigint(str, conv, mult, multI, t);
    NeverWraps(t, conv, wide);
    if v == None {
      return Failed64(InvalidArgs);
    }
    if v.value >= -0x8000_0000_0000_0000 && v.value <= 0x7FFF_FFFF_FFFF_FFFF {
      ret := Ok64(if wide then v.value else Signed64(ToUint64(v.value)));
    } else {
      ret := Failed64(OutOfRange);
    }
  }

  /** Parses an unsigned 64-bit number. */
  method StrParseUint64(str: array<char>, conv: Conversion, mult: array<nat>, multI: array<nat>, wide: bool,
                        ghost t: string)
    returns (ret: Int64Result)
    requires Holds(str[..], 0, t) && IsTable(mult[..], false) && IsTable(multI[..], true)
    ensures ret == ParseUint64(t, conv, wide)
    ensures ret.Ok64? ==> Parse(t, conv) == Some(ret.value)
  {
    var v := ParseBigint(str, conv, mult, multI, t);
    NeverWraps(t, conv, wide);
    if v == None {
      return Failed64(InvalidArgs);
    }
    if v.value >= 0 && v.value <= 0xFFFF_FFFF_FFFF_FFFF {
      ret := Ok64(if wide then v.value else ToUint64(v.value));
    } else {
      ret := Failed64(OutOfRange);
    }
  }
}
