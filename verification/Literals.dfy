/** Integer literals: what is written, and what is read. */
module Literals {
  import opened Words
  import opened Results
  import opened FrontendTypes
  import opened Lexing
  import opened Parsing
  import opened TypeNames

  // ---- how they are written ----------------------------------------------------------------

  /** A number in a base; digits from ten on are letters. */
  function Digits(n: nat, base: nat): (s: string)
    requires 2 <= base <= 16
    ensures s != "" && forall i :: 0 <= i < |s| ==> s[i] in "0123456789abcdef"[..base]
    decreases n
  {
    if n < base then [DigitChar(n, base)]
    else QuotientSmaller(n, base); Digits(n / base, base) + [DigitChar(n % base, base)]
  }

  function DigitChar(d: nat, base: nat): (c: char)
    requires d < base <= 16
    ensures c in "0123456789abcdef"[..base]
  {
    assert "0123456789abcdef"[..base][d] == "0123456789abcdef"[d];
    "0123456789abcdef"[d]
  }

  lemma QuotientSmaller(n: nat, base: nat)
    requires 2 <= base <= n
    ensures 0 <= n / base < n && 0 <= n % base < base && n == base * (n / base) + n % base
  {
    DivMod(n, base);
    QuotientFits(n, base);
    if n / base == n { MulAtLeast(n, base - 1); }
  }

  function Prefix(base: nat): string {
    match base
    case 2 => "0b"
    case 8 => "0o"
    case 16 => "0x"
    case _ => ""
  }

  function Decimal(n: nat): string { Digits(n, 10) }

  function TypeName(t: FrontendType): string {
    match t
    case U8 => "u8"
    case U16 => "u16"
    case U32 => "u32"
    case I8 => "i8"
    case I16 => "i16"
    case I32 => "i32"
    case _ => ""
  }

  // ---- what comes back ---------------------------------------------------------------------

  predicate AllNumeric(s: string) { forall i :: 0 <= i < |s| ==> IsNumeric(s[i]) }

  lemma Digit(d: nat, base: nat)
    requires d < base <= 16
    ensures var c := DigitChar(d, base);
            && c == "0123456789abcdef"[d] && (IsNumeric(c) <==> d < 10)
            && (IsNumeric(c) ==> DigitOf(c) == d) && (!IsNumeric(c) ==> 'a' <= c <= 'f')
  {
  }

  lemma DigitsNumericPrefix(prefix: string, s: string)
    requires AllNumeric(s) && prefix <= s
    ensures AllNumeric(prefix)
  {
    forall i | 0 <= i < |prefix|
      ensures IsNumeric(prefix[i])
    {
      assert prefix[i] == s[i];
    }
  }

  lemma DigitsBelow(n: nat, base: nat, i: nat)
    requires 2 <= base <= 16 && i < |Digits(n, base)| && IsNumeric(Digits(n, base)[i])
    ensures DigitOf(Digits(n, base)[i]) < base
  {
    hide Digits;
    var c := Digits(n, base)[i];
    var d :| 0 <= d < base && "0123456789abcdef"[..base][d] == c;
    Digit(d, base);
  }

  function Zeros(k: nat): (s: string)
    ensures |s| == k && forall i :: 0 <= i < k ==> s[i] == '0'
  {
    seq(k, _ => '0')
  }

  lemma {:induction false} ValueOfZeros(k: nat, base: nat)
    ensures ValueOf(Zeros(k), base) == 0
  {
    if k == 0 {
    } else {
      ValueOfZeros(k - 1, base);
      assert Zeros(k)[..k - 1] == Zeros(k - 1);
    }
  }

  /** Leading zeros do not matter. */
  lemma {:induction false} ValueOfPadded(k: nat, n: nat, base: nat)
    requires 2 <= base <= 16 && AllNumeric(Digits(n, base))
    ensures AllNumeric(Zeros(k) + Digits(n, base)) && ValueOf(Zeros(k) + Digits(n, base), base) == n
    decreases n
  {
    hide DigitChar, DigitOf;
    var s := Zeros(k) + Digits(n, base);
    if n >= base {
      QuotientSmaller(n, base);
      var q, d := n / base, n % base;
      Digit(d, base);
      DigitsNumericPrefix(Digits(q, base), Digits(n, base));
      ValueOfPadded(k, q, base);
      assert s[..|s| - 1] == Zeros(k) + Digits(q, base) && s[|s| - 1] == DigitChar(d, base);
    } else {
      Digit(n, base);
      ValueOfZeros(k, base);
      assert s[..|s| - 1] == Zeros(k) && s[|s| - 1] == DigitChar(n, base);
    }
  }

  /** Decimal digits that the base does not have, after those of the number. */
  predicate Excess(junk: string, base: nat) {
    AllNumeric(junk) && (junk != "" ==> DigitOf(junk[0]) >= base)
  }

  lemma {:induction false} NumericPart(digits: string, name: string)
    requires AllNumeric(digits) && (name == "" || !IsNumeric(name[0]))
    ensures NumericLength(digits + name) == |digits|
  {
    if digits == "" {
      assert digits + name == name;
    } else {
      assert (digits + name)[1..] == digits[1..] + name;
      NumericPart(digits[1..], name);
    }
  }

  lemma {:induction false} ValidPart(digits: string, junk: string, base: nat)
    requires AllNumeric(digits) && (forall i :: 0 <= i < |digits| ==> DigitOf(digits[i]) < base) && Excess(junk, base)
    ensures ValidLength(digits + junk, base) == |digits|
  {
    if digits == "" {
      assert digits + junk == junk;
    } else {
      assert (digits + junk)[1..] == digits[1..] + junk;
      ValidPart(digits[1..], junk, base);
    }
  }

  /** A text that begins with a prefix or, in base ten, with none that it could be taken for. */
  predicate Prefixed(base: nat, digits: string, name: string) {
    && (base == 2 || base == 8 || base == 10 || base == 16)
    && (base == 10 ==> digits != "" && (digits == "0" && name != "" ==> name[0] !in {'b', 'o', 'x'}))
  }

  lemma BaseOfPrefix(base: nat, digits: string, name: string)
    requires Prefixed(base, digits, name) && AllNumeric(digits)
    ensures var s := Prefix(base) + digits + name;
            s != "" && BaseOf(s) == base && (if base == 10 then s else s[2..]) == digits + name
  {
    var s := Prefix(base) + digits + name;
    if base == 10 {
      assert s == digits + name && s[0] == digits[0];
      if |digits| == 1 {
        if name != "" { assert s[1] == name[0]; }
      } else {
        assert s[1] == digits[1] && IsNumeric(s[1]);
      }
    } else {
      assert s[0] == '0' && s[1] == Prefix(base)[1];
      assert s[2..] == digits + name;
    }
  }

  /** How a literal is taken apart: prefix, decimal digits, type name. */
  lemma LiteralParts(base: nat, digits: string, name: string)
    requires AllNumeric(digits) && (name == "" || !IsNumeric(name[0])) && Prefixed(base, digits, name)
    ensures ParseInteger(Prefix(base) + digits + name) ==
            if !Named(name).IsInteger() then Err(TypeError)
            else if Stoll(digits, base).Err? then Err(UncaughtError)
            else Ok((ToWord(Stoll(digits, base).value), Named(name)))
  {
    hide Prefix, BaseOf, NumericLength, ValidLength, ValueOf, FromString, Named, FrontendType.IsInteger, ToWord;
    hide IsNumeric, AllNumeric, Prefixed;
    BaseOfPrefix(base, digits, name);
    NumericPart(digits, name);
    NamedIs(name);
    var rest := digits + name;
    assert rest[..|digits|] == digits && rest[|digits|..] == name;
  }

  /** What every literal means that has at least one digit of its base. Leading zeros do not matter; decimal
      digits that the base does not have end the number; the value is cut to 32 bits, and from 2^63 on it is
      too large to be read at all. */
  lemma LiteralMeans(base: nat, k: nat, n: nat, junk: string, name: string)
    requires 2 <= base <= 16 && AllNumeric(Digits(n, base)) && Excess(junk, base) && (name == "" || !IsNumeric(name[0]))
    requires Prefixed(base, Zeros(k) + Digits(n, base) + junk, name)
    ensures ParseInteger(Prefix(base) + (Zeros(k) + Digits(n, base) + junk) + name) ==
            if name !in {"u8", "u16", "u32", "i8", "i16", "i32"} then Err(TypeError)
            else if n >= 0x8000_0000_0000_0000 then Err(UncaughtError)
            else Ok((n % 0x1_0000_0000, Named(name)))
  {
    hide Digits, Prefix, ParseInteger, Prefixed, ValueOf, AllNumeric, IsNumeric, DigitOf;
    var digits := Zeros(k) + Digits(n, base);
    ValueOfPadded(k, n, base);
    PaddedBelow(k, n, base);
    ValidPart(digits, junk, base);
    NumericConcat(digits, junk);
    LiteralParts(base, digits + junk, name);
    assert (digits + junk)[..|digits|] == digits;
    IntegerNames(name);
  }

  /** A prefix without a digit of its base after it is no number. */
  lemma LiteralEmpty(base: nat, junk: string, name: string)
    requires base != 10 && Excess(junk, base) && (name == "" || !IsNumeric(name[0])) && Prefixed(base, junk, name)
    ensures ParseInteger(Prefix(base) + junk + name) ==
            if name !in {"u8", "u16", "u32", "i8", "i16", "i32"} then Err(TypeError) else Err(UncaughtError)
  {
    hide Prefix, ParseInteger, Prefixed, IsNumeric, DigitOf, AllNumeric;
    NumericConcat("", junk);
    ValidPart("", junk, base);
    assert "" + junk == junk;
    LiteralParts(base, junk, name);
    IntegerNames(name);
  }

  lemma IntegerNames(name: string)
    ensures Named(name).IsInteger() <==> name in {"u8", "u16", "u32", "i8", "i16", "i32"}
  {
  }

  lemma NumericConcat(a: string, b: string)
    requires AllNumeric(b)
    ensures AllNumeric(a) ==> AllNumeric(a + b)
    ensures AllNumeric("")
  {
    hide IsNumeric;
  }

  lemma PaddedBelow(k: nat, n: nat, base: nat)
    requires 2 <= base <= 16 && AllNumeric(Digits(n, base))
    ensures var s := Zeros(k) + Digits(n, base);
            AllNumeric(s) && forall i :: 0 <= i < |s| ==> DigitOf(s[i]) < base
  {
    hide Digits;
    AllDigitsBelow(n, base);
  }

  /** Every 32-bit value, written in binary, octal, decimal or hexadecimal with its type, is read back when its
      digits are all decimal ones. */
  lemma IntegerRoundTrip(raw: Word, base: nat, t: FrontendType)
    requires (base == 2 || base == 8 || base == 10 || base == 16) && t.IsInteger() && !t.UnresolvedInt?
    requires AllNumeric(Digits(raw, base))
    ensures ParseInteger(Prefix(base) + Digits(raw, base) + TypeName(t)) == Ok((raw, t))
  {
    hide Digits, Prefix, ParseInteger, ValueOf, IsNumeric, DigitOf;
    var digits, name := Digits(raw, base), TypeName(t);
    NameOfType(t);
    assert Zeros(0) + digits + "" == digits;
    LiteralMeans(base, 0, raw, "", name);
  }

  lemma NameOfType(t: FrontendType)
    requires t.IsInteger() && !t.UnresolvedInt?
    ensures var name := TypeName(t);
            && name in {"u8", "u16", "u32", "i8", "i16", "i32"} && Named(name) == t
            && !IsNumeric(name[0]) && name[0] !in {'b', 'o', 'x'}
  {
  }

  lemma AllDigitsBelow(n: nat, base: nat)
    requires 2 <= base <= 16 && AllNumeric(Digits(n, base))
    ensures forall i :: 0 <= i < |Digits(n, base)| ==> DigitOf(Digits(n, base)[i]) < base
  {
    hide Digits, IsNumeric, DigitOf;
    forall i | 0 <= i < |Digits(n, base)|
      ensures DigitOf(Digits(n, base)[i]) < base
    {
      DigitsBelow(n, base, i);
    }
  }

  /** Decimal, octal and binary digits are decimal ones. */
  lemma SmallBaseNumeric(n: nat, base: nat)
    requires 2 <= base <= 10
    ensures AllNumeric(Digits(n, base))
  {
    hide Digits;
    forall i | 0 <= i < |Digits(n, base)|
      ensures IsNumeric(Digits(n, base)[i])
    {
      var d :| 0 <= d < base && "0123456789abcdef"[..base][d] == Digits(n, base)[i];
      Digit(d, base);
    }
  }

  /** A hexadecimal literal with a letter among its digits is rejected: the letter begins the annotation. */
  lemma HexLetterRejected(raw: Word, t: FrontendType)
    requires t.IsInteger() && !t.UnresolvedInt? && !AllNumeric(Digits(raw, 16))
    ensures ParseInteger(Prefix(16) + Digits(raw, 16) + TypeName(t)) == Err(TypeError)
  {
    hide Digits, TypeName, FromString, NumericLength, Stoll, FrontendType.IsInteger;
    var digits, name := Digits(raw, 16), TypeName(t);
    var s := Prefix(16) + digits + name;
    assert s[0] == '0' && s[1] == 'x' && s[2..] == digits + name;
    var n := FirstLetter(digits, name);
    LetterOfDigits(raw, n);
    LetterIsNoType((digits + name)[n..]);
  }

  lemma {:induction false} FirstLetter(digits: string, rest: string) returns (n: nat)
    requires !AllNumeric(digits)
    ensures n < |digits| && NumericLength(digits + rest) == n && !IsNumeric(digits[n])
  {
    assert (digits + rest)[0] == digits[0];
    if IsNumeric(digits[0]) {
      assert (digits + rest)[1..] == digits[1..] + rest;
      var m := FirstLetter(digits[1..], rest);
      n := m + 1;
    } else {
      n := 0;
    }
  }

  lemma LetterOfDigits(raw: nat, i: nat)
    requires i < |Digits(raw, 16)| && !IsNumeric(Digits(raw, 16)[i])
    ensures 'a' <= Digits(raw, 16)[i] <= 'f'
  {
    hide Digits;
    var d :| 0 <= d < 16 && "0123456789abcdef"[..16][d] == Digits(raw, 16)[i];
    Digit(d, 16);
  }

  lemma LetterIsNoType(s: string)
    requires s != "" && 'a' <= s[0] <= 'f'
    ensures !FromString(s).IsInteger()
  {
  }
}
