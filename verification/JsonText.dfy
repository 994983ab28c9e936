/** JSON string text: the escaper of src/json_utils.c and the decoder of
    src/server.c, against the string grammar of section 7 of RFC 8259. */
module JsonText {
  import opened Texts

  const BACKSPACE := 8 as char
  const FORM_FEED := 12 as char

  // ---- The grammar: what a string literal is made of and what it stands for.

  datatype Unit =
    | Plain(c: char)
    | Simple(letter: char)
    | Hex(digits: string)

  predicate IsHexDigit(c: char) {
    '0' <= c <= '9' || 'a' <= c <= 'f' || 'A' <= c <= 'F'
  }

  function HexValue(c: char): (v: nat)
    requires IsHexDigit(c)
    ensures v < 16
  {
    if '0' <= c <= '9' then c as int - '0' as int
    else if 'a' <= c <= 'f' then 10 + c as int - 'a' as int
    else 10 + c as int - 'A' as int
  }

  predicate WellFormed(u: Unit) {
    match u
    case Plain(c) => c != '"' && c != '\\'
    case Simple(l) => l != 'u'
    case Hex(d) => |d| == 4 && forall i | 0 <= i < 4 :: IsHexDigit(d[i])
  }

  /** The units section 7 of RFC 8259 allows; the decoder takes a few more. */
  predicate Rfc8259(u: Unit) {
    && WellFormed(u)
    && (u.Plain? ==> u.c >= 0x20 as char)
    && (u.Simple? ==> u.letter in "\"\\/bfnrt")
  }

  predicate AllWellFormed(us: seq<Unit>) {
    forall i | 0 <= i < |us| :: WellFormed(us[i])
  }

  function Print(u: Unit): (s: string)
    ensures s != []
  {
    match u
    case Plain(c) => [c]
    case Simple(l) => ['\\', l]
    case Hex(d) => ['\\', 'u'] + d
  }

  function SimpleMeaning(letter: char): char {
    match letter
    case 'n' => '\n'
    case 'r' => '\r'
    case 't' => '\t'
    case 'b' => BACKSPACE
    case 'f' => FORM_FEED
    case _ => letter
  }

  function HexCode(d: string): (v: nat)
    requires |d| == 4 && forall i | 0 <= i < 4 :: IsHexDigit(d[i])
    ensures v < 0x10000
  {
    HexValue(d[3]) + 16 * (HexValue(d[2]) + 16 * (HexValue(d[1]) + 16 * HexValue(d[0])))
  }

  /** The bytes of one code unit. Surrogates are not paired up. */
  function Utf8(v: nat): (s: string)
    requires v < 0x10000
    ensures 1 <= |s| <= 3
  {
    if v < 0x80 then [v as char]
    else if v < 0x800 then [(0xC0 + v / 64) as char, (0x80 + v % 64) as char]
    else [(0xE0 + v / 4096) as char, (0x80 + v / 64 % 64) as char, (0x80 + v % 64) as char]
  }

  function Meaning(u: Unit): (s: string)
    requires WellFormed(u)
    ensures s != []
  {
    match u
    case Plain(c) => [c]
    case Simple(l) => [SimpleMeaning(l)]
    case Hex(d) => Utf8(HexCode(d))
  }

  function PrintAll(us: seq<Unit>): string {
    if us == [] then [] else Print(us[0]) + PrintAll(us[1..])
  }

  function MeaningAll(us: seq<Unit>): string
    requires AllWellFormed(us)
  {
    if us == [] then [] else Meaning(us[0]) + MeaningAll(us[1..])
  }

  // ---- json_escape

  function HexDigit(v: nat): (c: char)
    requires v < 16
    ensures IsHexDigit(c) && HexValue(c) == v
  {
    if v < 10 then ('0' as int + v) as char else ('a' as int + v - 10) as char
  }

  /** How one byte is escaped. */
  function EscapeUnit(c: char): (u: Unit)
    ensures Rfc8259(u) && Meaning(u) == [c]
  {
    if c == '"' || c == '\\' then Simple(c)
    else if c == BACKSPACE then Simple('b')
    else if c == FORM_FEED then Simple('f')
    else if c == '\n' then Simple('n')
    else if c == '\r' then Simple('r')
    else if c == '\t' then Simple('t')
    else if c < 0x20 as char then Hex(['0', '0', HexDigit(c as int / 16), HexDigit(c as int % 16)])
    else Plain(c)
  }

  function EscapeUnits(s: string): (us: seq<Unit>)
    ensures AllWellFormed(us) && |us| == |s| && forall i | 0 <= i < |s| :: us[i] == EscapeUnit(s[i])
  {
    seq(|s|, i requires 0 <= i < |s| => EscapeUnit(s[i]))
  }

  function Escape(s: string): string {
    PrintAll(EscapeUnits(s))
  }

  lemma {:induction false} EscapeMeansItself(s: string)
    ensures MeaningAll(EscapeUnits(s)) == s
  {
    if s != [] {
      assert EscapeUnits(s)[1..] == EscapeUnits(s[1..]);
      EscapeMeansItself(s[1..]);
    }
  }

  lemma {:induction false} PrintAllSnoc(us: seq<Unit>, u: Unit)
    ensures PrintAll(us + [u]) == PrintAll(us) + Print(u)
  {
    if us != [] {
      assert (us + [u])[1..] == us[1..] + [u];
      PrintAllSnoc(us[1..], u);
    }
  }

  lemma EscapeSnoc(s: string, k: nat)
    requires k < |s|
    ensures Escape(s[..k + 1]) == Escape(s[..k]) + Print(EscapeUnit(s[k]))
  {
    assert EscapeUnits(s[..k + 1]) == EscapeUnits(s[..k]) + [EscapeUnit(s[k])];
    PrintAllSnoc(EscapeUnits(s[..k]), EscapeUnit(s[k]));
  }

  /** How many bytes json_escape gets through: it starts on a byte only while
      more than eight bytes of the buffer are left. */
  function Taken(src: string, maxLen: nat, i: nat): (k: nat)
    requires i <= |src|
    ensures i <= k <= |src|
    ensures forall j | i <= j < k :: |Escape(src[..j])| + 8 < maxLen
    ensures k < |src| ==> |Escape(src[..k])| + 8 >= maxLen
    decreases |src| - i
  {
    if i < |src| && |Escape(src[..i])| + 8 < maxLen then Taken(src, maxLen, i + 1) else i
  }

  /** What json_escape leaves in a buffer of maxLen bytes. */
  function EscapeWithin(src: string, maxLen: nat): string {
    Escape(src[..Taken(src, maxLen, 0)])
  }

  lemma EscapeWithinFits(src: string, maxLen: nat)
    requires 0 < maxLen
    ensures |EscapeWithin(src, maxLen)| < maxLen
  {
    var k := Taken(src, maxLen, 0);
    if k > 0 { EscapeSnoc(src, k - 1); }
  }

  /** The switch of json_escape. */
  method EscapeByte(c: char) returns (esc: string)
    ensures esc == Print(EscapeUnit(c))
  {
    if c == '"' {
      esc := "\\\"";
    } else if c == '\\' {
      esc := "\\\\";
    } else if c == BACKSPACE {
      esc := "\\b";
    } else if c == FORM_FEED {
      esc := "\\f";
    } else if c == '\n' {
      esc := "\\n";
    } else if c == '\r' {
      esc := "\\r";
    } else if c == '\t' {
      esc := "\\t";
    } else if c < 0x20 as char {
      esc := "\\u00" + [HexDigit(c as int / 16), HexDigit(c as int % 16)];
    } else {
      esc := [c];
    }
  }

  /** json_escape: the buffer ends up with the escape of a prefix, never a part
      of an escape, and a NUL. */
  method JsonEscape(src: string, dest: array<char>)
    modifies dest
    ensures dest.Length > 0 ==> |EscapeWithin(src, dest.Length)| < dest.Length
    ensures dest.Length > 0 ==> dest[..|EscapeWithin(src, dest.Length)|] == EscapeWithin(src, dest.Length)
    ensures dest.Length > 0 ==> dest[|EscapeWithin(src, dest.Length)|] == '\0'
  {
    if dest.Length == 0 { return; }
    var i: nat, o: nat := 0, 0;
    while i < |src| && o + 8 < dest.Length
      invariant i <= |src| && o < dest.Length && o == |Escape(src[..i])|
      invariant Taken(src, dest.Length, 0) == Taken(src, dest.Length, i)
      invariant dest[..o] == Escape(src[..i])
    {
      var esc := EscapeByte(src[i]);
      if o + |esc| >= dest.Length - 1 { break; }
      EscapeSnoc(src, i);
      Copy(dest, o, esc);
      o := o + |esc|;
      i := i + 1;
    }
    dest[o] := '\0';
  }

  /** memcpy(dest + off, text, len) */
  method Copy(dest: array<char>, off: nat, text: string)
    requires off + |text| <= dest.Length
    modifies dest
    ensures dest[..off + |text|] == old(dest[..off]) + text
    ensures dest[off + |text|..] == old(dest[off + |text|..])
  {
    for k := 0 to |text|
      invariant dest[..off] == old(dest[..off]) && dest[off..off + k] == text[..k]
      invariant dest[off + k..] == old(dest[off + k..])
    {
      dest[off + k] := text[k];
    }
  }

  lemma {:induction false} EscapeGrows(s: string, i: nat, j: nat)
    requires i <= j <= |s|
    ensures |Escape(s[..i])| <= |Escape(s[..j])|
    decreases j - i
  {
    if i < j {
      EscapeSnoc(s, i);
      EscapeGrows(s, i + 1, j);
    }
  }

  /** Exactly how much room the whole of src needs. */
  lemma EscapeCoversAll(src: string, maxLen: nat)
    ensures Taken(src, maxLen, 0) == |src| <==> src == [] || |Escape(src[..|src| - 1])| + 8 < maxLen
    ensures maxLen >= |Escape(src)| + 8 ==> EscapeWithin(src, maxLen) == Escape(src)
  {
    assert src[..|src|] == src;
    if src != [] {
      var k := Taken(src, maxLen, 0);
      EscapeSnoc(src, |src| - 1);
      if k < |src| { EscapeGrows(src, k, |src| - 1); }
    }
  }

  // ---- decode_json_string_local

  function HexRun(s: string, most: nat): (n: nat)
    ensures n <= most && n <= |s|
    ensures forall i | 0 <= i < n :: IsHexDigit(s[i])
  {
    if most == 0 || s == [] || !IsHexDigit(s[0]) then 0 else 1 + HexRun(s[1..], most - 1)
  }

  function SkipSeparators(s: string): string {
    if s != [] && s[0] in " \t,:" then SkipSeparators(s[1..]) else s
  }

  /** bytes as far as the buffer has room for them and a NUL, all or none */
  function Fitted(out: string, bytes: string, maxLen: nat): string {
    if |out| + |bytes| < maxLen then out + bytes else out
  }

  /** What the decoder leaves in the buffer, and where it stops, from just after
      the opening quote. No position means the closing quote was not reached. */
  function Decode(s: string, out: string, maxLen: nat): (r: (string, Option<string>))
    ensures r.1.Some? ==> |r.0| + 1 < maxLen
    decreases |s|
  {
    if s == [] || |out| + 1 >= maxLen then (out, None)
    else if s[0] == '\\' then
      if |s| == 1 then (out, None)
      else if s[1] == 'u' then
        var n := HexRun(s[2..], 4);
        if n == 4 then Decode(s[6..], Fitted(out, Utf8(HexCode(s[2..6])), maxLen), maxLen)
        else Decode(s[2 + n..], out + "?", maxLen)
      else Decode(s[2..], out + [SimpleMeaning(s[1])], maxLen)
    else if s[0] == '"' then (out, Some(SkipSeparators(s[1..])))
    else Decode(s[1..], out + [s[0]], maxLen)
  }

  method DecodeLocal(p: string, dest: array<char>) returns (rest: Option<string>, ghost text: string)
    requires dest.Length > 0
    modifies dest
    ensures (p == [] || p[0] != '"') ==> rest == None && dest[..] == old(dest[..])
    ensures p != [] && p[0] == '"' ==> (text, rest) == Decode(p[1..], [], dest.Length)
    ensures p != [] && p[0] == '"' ==> |text| < dest.Length && dest[..|text|] == text && dest[|text|] == '\0'
  {
    text := [];
    if p == [] || p[0] != '"' { return None, text; }
    var q: nat, out: nat := 1, 0;
    while q < |p| && out + 1 < dest.Length
      invariant 1 <= q <= |p| && out < dest.Length
      invariant Decode(p[1..], [], dest.Length) == Decode(p[q..], dest[..out], dest.Length)
      decreases |p| - q
    {
      if p[q] == '\\' {
        if q + 1 == |p| { break; }
        q, out := DecodeEscape(p, q, dest, out);
        continue;
      }
      if p[q] == '"' {
        dest[out] := '\0';
        text := dest[..out];
        Suffix(p, q, 1);
        rest := Some(SkipSeparators(p[q + 1..]));
        return;
      }
      ghost var before := dest[..out];
      dest[out] := p[q];
      Suffix(p, q, 1);
      out, q := out + 1, q + 1;
      assert dest[..out] == before + [p[q - 1]];
    }
    dest[out] := '\0';
    text := dest[..out];
    rest := None;
  }

  lemma Suffix(p: string, q: nat, k: nat)
    requires q + k <= |p|
    ensures p[q..][k..] == p[q + k..]
  {
  }

  /** One escape, from its backslash. */
  method DecodeEscape(p: string, q: nat, dest: array<char>, out: nat) returns (q': nat, out': nat)
    requires q + 1 < |p| && p[q] == '\\' && out + 1 < dest.Length
    modifies dest
    ensures q < q' <= |p| && out' < dest.Length
    ensures Decode(p[q..], old(dest[..out]), dest.Length) == Decode(p[q'..], dest[..out'], dest.Length)
  {
    ghost var before := dest[..out];
    if p[q + 1] == 'u' {
      var val, digits := HexDigits(p, q + 2);
      Suffix(p, q, 2);
      Suffix(p, q, 2 + digits);
      if digits == 4 {
        assert p[q..][2..6] == p[q + 2..q + 6];
        var bytes := Utf8(val);
        out' := out;
        if out + |bytes| < dest.Length {
          Copy(dest, out, bytes);
          out' := out + |bytes|;
        }
        assert dest[..out'] == Fitted(before, bytes, dest.Length);
        return q + 6, out';
      }
      dest[out] := '?';
      assert dest[..out + 1] == before + "?";
      return q + 2 + digits, out + 1;
    }
    dest[out] := SimpleMeaning(p[q + 1]);
    assert dest[..out + 1] == before + [SimpleMeaning(p[q + 1])];
    Suffix(p, q, 2);
    return q + 2, out + 1;
  }

  /** At most four hexadecimal digits, read left to right. */
  method HexDigits(p: string, start: nat) returns (val: nat, digits: nat)
    requires start <= |p|
    ensures digits == HexRun(p[start..], 4)
    ensures digits == 4 ==> val == HexCode(p[start..start + 4])
  {
    val, digits := 0, 0;
    while start + digits < |p| && digits < 4 && IsHexDigit(p[start + digits])
      invariant digits <= 4 && start + digits <= |p|
      invariant HexRun(p[start..], 4) == digits + HexRun(p[start + digits..], 4 - digits)
      invariant forall i | start <= i < start + digits :: IsHexDigit(p[i])
      invariant val == HexPrefix(p[start..start + digits])
      decreases 4 - digits
    {
      assert p[start..start + digits + 1][..digits] == p[start..start + digits];
      val := val * 16 + HexValue(p[start + digits]);
      Suffix(p, start + digits, 1);
      digits := digits + 1;
    }
    if digits == 4 { HexPrefixOfFour(p[start..start + 4]); }
  }

  /** The value of hexadecimal digits read left to right. */
  function HexPrefix(d: string): nat
    requires forall i | 0 <= i < |d| :: IsHexDigit(d[i])
  {
    if d == [] then 0 else HexPrefix(d[..|d| - 1]) * 16 + HexValue(d[|d| - 1])
  }

  lemma HexPrefixOfFour(d: string)
    requires |d| == 4 && forall i | 0 <= i < 4 :: IsHexDigit(d[i])
    ensures HexPrefix(d) == HexCode(d)
  {
    assert d[..3][..2] == d[..2] && d[..2][..1] == d[..1] && d[..1][..0] == [];
    assert HexPrefix(d[..1]) == HexValue(d[0]);
    assert HexPrefix(d[..2]) == HexPrefix(d[..1]) * 16 + HexValue(d[1]);
    assert HexPrefix(d[..3]) == HexPrefix(d[..2]) * 16 + HexValue(d[2]);
  }

  /** Every string literal of the grammar decodes to what it stands for, whatever
      follows it, exactly when the buffer has room for the text, a NUL and one
      byte more. */
  lemma DecodeOfPrinted(us: seq<Unit>, rest: string, maxLen: nat)
    requires AllWellFormed(us)
    ensures Decode(PrintAll(us) + "\"" + rest, [], maxLen) == (MeaningAll(us), Some(SkipSeparators(rest)))
            <==> |MeaningAll(us)| + 1 < maxLen
  {
    if |MeaningAll(us)| + 1 < maxLen {
      DecodeUnits(us, rest, [], maxLen);
      assert [] + MeaningAll(us) == MeaningAll(us);
    }
  }

  lemma {:induction false} DecodeUnits(us: seq<Unit>, rest: string, out: string, maxLen: nat)
    requires AllWellFormed(us) && |out| + |MeaningAll(us)| + 1 < maxLen
    ensures Decode(PrintAll(us) + "\"" + rest, out, maxLen) == (out + MeaningAll(us), Some(SkipSeparators(rest)))
  {
    if us == [] {
      assert (PrintAll(us) + "\"" + rest)[1..] == rest && out + MeaningAll(us) == out;
    } else {
      PrintAllCons(us, rest);
      DecodeUnits(us[1..], rest, out + Meaning(us[0]), maxLen);
      MeaningAllCons(out, us);
      DecodeUnit(us[0], PrintAll(us[1..]) + "\"" + rest, out, maxLen);
    }
  }

  lemma MeaningAllCons(out: string, us: seq<Unit>)
    requires AllWellFormed(us) && us != []
    ensures out + MeaningAll(us) == out + Meaning(us[0]) + MeaningAll(us[1..])
  {
  }

  lemma PrintAllCons(us: seq<Unit>, rest: string)
    requires us != []
    ensures PrintAll(us) + "\"" + rest == Print(us[0]) + (PrintAll(us[1..]) + "\"" + rest)
  {
  }

  lemma DecodeUnit(u: Unit, tail: string, out: string, maxLen: nat)
    requires WellFormed(u) && |out| + |Meaning(u)| < maxLen
    ensures Decode(Print(u) + tail, out, maxLen) == Decode(tail, out + Meaning(u), maxLen)
  {
    var s := Print(u) + tail;
    match u
    case Plain(c) => assert s[1..] == tail;
    case Simple(l) => assert s[2..] == tail;
    case Hex(d) =>
      assert s[2..6] == d && s[6..] == tail;
      HexRunOfDigits(d, tail);
      assert s[2..] == d + tail;
  }

  lemma HexRunOfDigits(d: string, tail: string)
    requires |d| == 4 && forall i | 0 <= i < 4 :: IsHexDigit(d[i])
    ensures HexRun(d + tail, 4) == 4
  {
    var s := d + tail;
    assert HexRun(s[4..], 0) == 0;
    assert s[3..][1..] == s[4..] && s[2..][1..] == s[3..] && s[1..][1..] == s[2..];
    assert HexRun(s[3..], 1) == 1;
    assert HexRun(s[2..], 2) == 2;
    assert HexRun(s[1..], 3) == 3;
  }

  /** What json_escape writes, the decoder reads back. */
  lemma EscapeRoundTrip(s: string, rest: string, maxLen: nat)
    ensures Decode(Escape(s) + "\"" + rest, [], maxLen) == (s, Some(SkipSeparators(rest))) <==> |s| + 1 < maxLen
  {
    EscapeMeansItself(s);
    DecodeOfPrinted(EscapeUnits(s), rest, maxLen);
  }
}
