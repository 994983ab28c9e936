/** JSON string text byte by byte: the escapes and code units of JsonText spelled out
    (section 7 of RFC 8259, section 3 of RFC 3629). */
module JsonLaws {
  import opened JsonText
  import opened Texts

  /** What the byte behind a backslash stands for. */
  lemma SimpleEscapes(c: char)
    ensures SimpleMeaning('b') as int == 8 && SimpleMeaning('t') as int == 9 && SimpleMeaning('n') as int == 10
    ensures SimpleMeaning('f') as int == 12 && SimpleMeaning('r') as int == 13
    ensures c !in "btnfr" ==> SimpleMeaning(c) == c
  {
  }

  /** How a byte is written. */
  lemma EscapeOf(c: char)
    ensures c == '"' || c == '\\' ==> Print(EscapeUnit(c)) == ['\\', c]
    ensures c as int == 8 ==> Print(EscapeUnit(c)) == "\\b"
    ensures c as int == 9 ==> Print(EscapeUnit(c)) == "\\t"
    ensures c as int == 10 ==> Print(EscapeUnit(c)) == "\\n"
    ensures c as int == 12 ==> Print(EscapeUnit(c)) == "\\f"
    ensures c as int == 13 ==> Print(EscapeUnit(c)) == "\\r"
    ensures c as int >= 32 && c != '"' && c != '\\' ==> Print(EscapeUnit(c)) == [c]
  {
  }

  /** The other control characters are written as code units of four digits. */
  lemma ControlEscapeOf(c: char)
    requires c as int < 32 && c as int !in [8, 9, 10, 12, 13]
    ensures Print(EscapeUnit(c))
         == "\\u00" + [if c as int < 16 then '0' else '1', "0123456789abcdef"[c as int % 16]]
  {
    DigitIs(c as int % 16);
  }

  lemma DigitIs(i: nat)
    requires i < 16
    ensures HexDigit(i) == "0123456789abcdef"[i]
  {
  }

  /** Digits of a code unit, in either case. */
  lemma HexValues(i: nat)
    requires i < 16
    ensures var lower, upper := "0123456789abcdef"[i], "0123456789ABCDEF"[i];
            IsHexDigit(lower) && HexValue(lower) == i && IsHexDigit(upper) && HexValue(upper) == i
  {
  }

  lemma OnlyHexDigits(c: char)
    ensures IsHexDigit(c) <==> c in "0123456789abcdefABCDEF"
  {
  }

  lemma HexCodeIsSum(d: string)
    requires |d| == 4 && forall i | 0 <= i < 4 :: IsHexDigit(d[i])
    ensures HexCode(d) == 4096 * HexValue(d[0]) + 256 * HexValue(d[1]) + 16 * HexValue(d[2]) + HexValue(d[3])
  {
    hide HexValue;
  }

  /** A code unit in UTF-8: its bits, six to a following byte. */
  lemma Utf8Is(v: nat)
    requires v < 0x10000
    ensures v < 128 ==> Utf8(v) == [v as char]
    ensures 128 <= v < 2048 ==>
              && |Utf8(v)| == 2 && 0 <= Utf8(v)[0] as int - 192 < 32 && 0 <= Utf8(v)[1] as int - 128 < 64
              && 64 * (Utf8(v)[0] as int - 192) + (Utf8(v)[1] as int - 128) == v
    ensures 2048 <= v ==>
              && |Utf8(v)| == 3 && 0 <= Utf8(v)[0] as int - 224 < 16
              && 0 <= Utf8(v)[1] as int - 128 < 64 && 0 <= Utf8(v)[2] as int - 128 < 64
              && 4096 * (Utf8(v)[0] as int - 224) + 64 * (Utf8(v)[1] as int - 128) + (Utf8(v)[2] as int - 128) == v
  {
  }

  /** Behind the closing quote the decoder passes blanks, commas and colons. */
  lemma {:induction false} SeparatorsAreSkipped(seps: string, rest: string)
    requires forall i | 0 <= i < |seps| :: seps[i] == ' ' || seps[i] == '\t' || seps[i] == ',' || seps[i] == ':'
    requires rest == [] || !(rest[0] == ' ' || rest[0] == '\t' || rest[0] == ',' || rest[0] == ':')
    ensures SkipSeparators(seps + rest) == rest
  {
    if seps == [] {
      assert seps + rest == rest;
    } else {
      assert (seps + rest)[1..] == seps[1..] + rest;
      SeparatorsAreSkipped(seps[1..], rest);
    }
  }

  /** A code unit with fewer than four digits decodes to a question mark. */
  lemma ShortCodeUnit(d: string, rest: string, out: string, maxLen: nat)
    requires |d| < 4 && (forall i | 0 <= i < |d| :: IsHexDigit(d[i])) && (rest == [] || !IsHexDigit(rest[0]))
    requires |out| + 1 < maxLen
    ensures Decode("\\u" + (d + rest), out, maxLen) == Decode(rest, out + "?", maxLen)
  {
    var s := "\\u" + (d + rest);
    assert s[2..] == d + rest && s[2 + |d|..] == rest;
    RunIsShort(d, rest, 4);
  }

  lemma {:induction false} RunIsShort(d: string, rest: string, most: nat)
    requires |d| < most && (forall i | 0 <= i < |d| :: IsHexDigit(d[i])) && (rest == [] || !IsHexDigit(rest[0]))
    ensures HexRun(d + rest, most) == |d|
  {
    if d == [] {
      assert d + rest == rest;
    } else {
      assert (d + rest)[1..] == d[1..] + rest;
      RunIsShort(d[1..], rest, most - 1);
    }
  }
}
