/** Numbers in text: what strtol with base 16 makes of a size line, said of its digits,
    and what %d prints. */
module SizeLaws {
  import opened HttpHead
  import opened HttpRequest
  import opened HttpBodies
  import opened HeadLaws
  import opened Printf

  /** %d prints a minus sign for a negative number, and then digits that stand for how
      far it is from 0. */
  lemma DecimalIs(n: int)
    ensures var s := Decimal(n);
            && s != [] && (n < 0 <==> s[0] == '-')
            && var d := if n < 0 then s[1..] else s;
               d != [] && (forall i | 0 <= i < |d| :: IsDigit(d[i])) && Value(d) == if n < 0 then -n else n
  {
    hide Digits, Value;
    var m: nat := if n < 0 then -n else n;
    ValueOfDigits(m);
    if n < 0 { assert Decimal(n)[1..] == Digits(m); }
  }

  const LOWER_DIGITS := "0123456789abcdef"

  lemma DigitsAreSixteen()
    ensures |LOWER_DIGITS| == 16
  {
  }

  /** n in hexadecimal. */
  function Hexadecimal(n: nat): (d: string)
    ensures d != []
  {
    DigitsAreSixteen();
    if n < 16 then [LOWER_DIGITS[n]] else Hexadecimal(n / 16) + [LOWER_DIGITS[n % 16]]
  }

  /** A hexadecimal digit in either case stands for its place in the row of digits,
      and nothing else is one. */
  lemma HexDigitIs(c: char)
    ensures IsHex(c) <==> exists i | 0 <= i < 16 :: SameLetter(c, LOWER_DIGITS[i])
    ensures forall i | 0 <= i < 16 :: SameLetter(c, LOWER_DIGITS[i]) ==> IsHex(c) && HexDigit(c) == i
  {
    if IsHex(c) { assert SameLetter(c, LOWER_DIGITS[HexDigit(c)]); }
  }

  /** A number printed in hexadecimal, in any case, is read back. */
  lemma {:induction false} HexValueIs(d: string, n: nat)
    requires SameSpelling(d, Hexadecimal(n))
    ensures (forall i | 0 <= i < |d| :: IsHex(d[i])) && d != [] && HexValue(d) == n
  {
    hide SameLetter, IsHex, HexDigit;
    DigitsAreSixteen();
    var last := d[|d| - 1];
    if n < 16 {
      assert SameLetter(last, LOWER_DIGITS[n]);
      HexDigitIs(last);
      assert d[..|d| - 1] == [];
    } else {
      var h := Hexadecimal(n / 16);
      assert Hexadecimal(n)[|h|] == LOWER_DIGITS[n % 16];
      assert SameLetter(last, LOWER_DIGITS[n % 16]);
      HexDigitIs(last);
      forall i | 0 <= i < |h| ensures SameLetter(d[..|d| - 1][i], h[i]) {
        assert Hexadecimal(n)[i] == h[i];
      }
      HexValueIs(d[..|d| - 1], n / 16);
    }
  }

  /** A chunk whose size is the length of its data, in hexadecimal of any case, is one
      the decoder takes. */
  lemma SizedChunk(c: Chunk)
    requires SameSpelling(c.size, Hexadecimal(|c.data|)) && |c.size| <= 31
    requires 0 < |c.data| <= LONG_MAX && IsExtension(c.ext)
    ensures WellFormed(c)
  {
    HexValueIs(c.size, |c.data|);
    hide HexValue, IsHex, IsExtension, Hexadecimal;
  }

  predicate White(ws: string) {
    forall i | 0 <= i < |ws| :: ws[i] == ' ' || ws[i] == '\t' || ws[i] == '\n' || ws[i] == '\r'
                             || ws[i] == 11 as char || ws[i] == 12 as char
  }

  lemma {:induction false} SkipSpacesOf(ws: string, s: string)
    requires White(ws) && (s == [] || !White(s[..1]))
    ensures SkipSpaces(ws + s) == s
  {
    if ws == [] {
      assert ws + s == s;
      if s != [] { assert s[..1][0] == s[0]; }
    } else {
      assert (ws + s)[1..] == ws[1..] + s;
      SkipSpacesOf(ws[1..], s);
    }
  }

  /** The nearest long. */
  function Nearest(n: int): int {
    if n > 0x7fff_ffff_ffff_ffff then 0x7fff_ffff_ffff_ffff
    else if n < -0x8000_0000_0000_0000 then -0x8000_0000_0000_0000
    else n
  }

  function Signed(sign: string, n: int): int { if sign == "-" then -n else n }

  /** strtol: white space, a sign, the digits of a number with or without 0x in front,
      and then something else. The value is the number with its sign, or the nearest
      long. */
  lemma StrtolReads(ws: string, sign: string, prefix: string, d: string, n: nat, rest: string)
    requires White(ws) && sign in ["", "+", "-"] && prefix in ["", "0x", "0X"]
    requires SameSpelling(d, Hexadecimal(n)) && (rest == [] || !IsHex(rest[0]))
    requires prefix == "" && d == "0" ==> rest == [] || rest[0] !in "xX"
    ensures Strtol16(ws + (sign + (prefix + (d + rest)))) == Nearest(Signed(sign, n))
  {
    hide *;
    var number := prefix + (d + rest);
    HexValueIs(d, n);
    HexRunOf(d, rest);
    FirstOf(d, n);
    PrefixIsRead(prefix, d, rest);
    SignIsRead(sign, number);
    SkipSpacesOf(ws, sign + number);
    Assembled(ws + (sign + number), sign + number, number, d + rest, d);
    NearestIsClamp(Signed(sign, n));
    SignedIs(sign, n);
  }

  lemma SignedIs(sign: string, n: nat)
    ensures Signed(sign, n) == if sign == "-" then -(n as int) else n
  {
  }

  lemma NearestIsClamp(n: int)
    ensures Clamp(n) == Nearest(n)
  {
  }

  /** The parts of strtol. */
  lemma Assembled(s: string, t: string, u: string, v: string, d: string)
    requires SkipSpaces(s) == t && t != [] && u == if t[0] == '-' || t[0] == '+' then t[1..] else t
    requires v == if |u| > 2 && u[0] == '0' && (u[1] == 'x' || u[1] == 'X') && IsHex(u[2]) then u[2..] else u
    requires HexRun(v) == d && forall i | 0 <= i < |d| :: IsHex(d[i])
    ensures Strtol16(s) == Clamp(if t[0] == '-' then -(HexValue(d) as int) else HexValue(d))
  {
    hide SkipSpaces, HexRun, HexValue, IsHex, Clamp;
  }

  lemma PrefixIsRead(prefix: string, d: string, rest: string)
    requires prefix in ["", "0x", "0X"] && d != [] && forall i | 0 <= i < |d| :: IsHex(d[i])
    requires prefix == "" && d == "0" ==> rest == [] || rest[0] !in "xX"
    ensures var u := prefix + (d + rest);
            && |u| > 0 && IsHex(u[0])
            && d + rest
               == if |u| > 2 && u[0] == '0' && (u[1] == 'x' || u[1] == 'X') && IsHex(u[2]) then u[2..] else u
  {
    var digits := d + rest;
    var u := prefix + digits;
    if prefix != "" {
      assert u[2] == d[0] && u[2..] == digits;
    } else {
      assert u == digits;
      assert |d| > 1 ==> u[1] == d[1];
      assert |d| == 1 && rest != [] ==> u[1] == rest[0];
      assert |d| == 1 && d[0] == '0' ==> d == "0";
    }
  }

  lemma SignIsRead(sign: string, number: string)
    requires sign in ["", "+", "-"] && number != [] && IsHex(number[0])
    ensures var t := sign + number;
            && t != [] && !White(t[..1]) && (t[0] == '-' <==> sign == "-")
            && number == if t[0] == '-' || t[0] == '+' then t[1..] else t
  {
    var t := sign + number;
    assert t[..1][0] == t[0];
    if sign == "" { assert t == number; } else { assert t[1..] == number; }
  }

  lemma FirstOf(d: string, n: nat)
    requires SameSpelling(d, Hexadecimal(n))
    ensures d != [] && IsHex(d[0]) && !White(d[..1])
  {
    HexValueIs(d, n);
    assert d[..1][0] == d[0];
  }

  lemma {:induction false} HexRunOf(d: string, rest: string)
    requires (forall i | 0 <= i < |d| :: IsHex(d[i])) && (rest == [] || !IsHex(rest[0]))
    ensures HexRun(d + rest) == d
  {
    if d == [] {
      assert d + rest == rest;
    } else {
      assert (d + rest)[1..] == d[1..] + rest;
      HexRunOf(d[1..], rest);
    }
  }
}
