/** JSON texts as the Go library writes and reads them: string escaping on bytes (section 7 of RFC 8259) and a
    parser for every value. */
module Json {
  import opened Wrappers
  import opened Slugs

  function Hex(n: nat): Byte
    requires n < 16
  {
    if n < 10 then ('0' as int + n) as char else ('a' as int + n - 10) as char
  }

  function HexValue(c: Byte): (r: Option<nat>)
    ensures r.Some? ==> r.value < 16
  {
    if '0' <= c <= '9' then Some(c as int - '0' as int)
    else if 'a' <= c <= 'f' then Some(c as int - 'a' as int + 10)
    else if 'A' <= c <= 'F' then Some(c as int - 'A' as int + 10)
    else None
  }

  // ---- UTF-8 on bytes ----

  predicate Within(s: Bytes, i: nat, lo: int, hi: int) { i < |s| && lo <= s[i] as int <= hi }

  predicate Continues(s: Bytes, i: nat) { Within(s, i, 0x80, 0xBF) }

  /** The length of the well-formed UTF-8 sequence at the front, or 0. */
  function RuneLen(s: Bytes): (n: nat)
    ensures n <= |s| && n <= 4
  {
    if s == [] then 0
    else
      var b := s[0] as int;
      if b < 0x80 then 1
      else if 0xC2 <= b <= 0xDF then if Continues(s, 1) then 2 else 0
      else if b == 0xE0 then if Within(s, 1, 0xA0, 0xBF) && Continues(s, 2) then 3 else 0
      else if b == 0xED then if Within(s, 1, 0x80, 0x9F) && Continues(s, 2) then 3 else 0
      else if 0xE1 <= b <= 0xEF then if Continues(s, 1) && Continues(s, 2) then 3 else 0
      else if b == 0xF0 then if Within(s, 1, 0x90, 0xBF) && Continues(s, 2) && Continues(s, 3) then 4 else 0
      else if 0xF1 <= b <= 0xF3 then if Continues(s, 1) && Continues(s, 2) && Continues(s, 3) then 4 else 0
      else if b == 0xF4 then if Within(s, 1, 0x80, 0x8F) && Continues(s, 2) && Continues(s, 3) then 4 else 0
      else 0
  }

  predicate ValidUtf8(s: Bytes)
    decreases |s|
  {
    s == [] || (RuneLen(s) > 0 && ValidUtf8(s[RuneLen(s)..]))
  }

  /** U+FFFD, the replacement character. */
  const REPLACEMENT: Bytes := [0xEF as char, 0xBF as char, 0xBD as char]

  /** How many bytes one decoding step takes. */
  function Width(s: Bytes): (n: nat)
    requires s != []
    ensures 0 < n <= |s|
  {
    if RuneLen(s) == 0 then 1 else RuneLen(s)
  }

  function CoerceFront(s: Bytes): Bytes
    requires s != []
  {
    if RuneLen(s) == 0 then REPLACEMENT else s[..RuneLen(s)]
  }

  /** Every byte that is not part of a well-formed sequence becomes U+FFFD. */
  function Coerce(s: Bytes): Bytes
    decreases |s|
  {
    if s == [] then [] else CoerceFront(s) + Coerce(s[Width(s)..])
  }

  lemma {:induction false} CoerceGrows(s: Bytes)
    ensures |Coerce(s)| >= |s|
    ensures Coerce(s) == s <==> ValidUtf8(s)
    ensures Coerce(s) != s ==> |Coerce(s)| > |s|
    decreases |s|
  {
    if s == [] {
    } else {
      CoerceGrows(s[Width(s)..]);
      if RuneLen(s) > 0 {
        assert s == s[..RuneLen(s)] + s[RuneLen(s)..];
        assert Coerce(s)[RuneLen(s)..] == Coerce(s[RuneLen(s)..]);
      }
    }
  }

  lemma LoneByteIsMalformed(c: Byte)
    requires c as int >= 0x80
    ensures Coerce([c]) == REPLACEMENT && [c] != REPLACEMENT
  {
    assert [c][1..] == [];
    assert REPLACEMENT + [] == REPLACEMENT;
  }

  /** U+2028 and U+2029, which the writer escapes. */
  predicate LineSeparator(s: Bytes) {
    |s| >= 3 && s[0] as int == 0xE2 && s[1] as int == 0x80 && (s[2] as int == 0xA8 || s[2] as int == 0xA9)
  }

  function EncodeRune(r: nat): Bytes
    requires r < 0x110000
  {
    if r < 0x80 then [B(r)]
    else if r < 0x800 then [B(0xC0 + r / 0x40), B(0x80 + r % 0x40)]
    else if r < 0x10000 then [B(0xE0 + r / 0x1000), B(0x80 + r / 0x40 % 0x40), B(0x80 + r % 0x40)]
    else [B(0xF0 + r / 0x40000), B(0x80 + r / 0x1000 % 0x40), B(0x80 + r / 0x40 % 0x40), B(0x80 + r % 0x40)]
  }

  function B(n: nat): Byte
    requires n < 256
  {
    n as char
  }

  // ---- Writing a string ----

  predicate HtmlSafe(c: Byte) {
    0x20 <= c as int < 0x80 && c != '"' && c != '\\' && c != '<' && c != '>' && c != '&'
  }

  function EscapeAscii(c: Byte): Bytes
    requires c as int < 0x80
  {
    if HtmlSafe(c) then [c]
    else if c == '\\' || c == '"' then ['\\', c]
    else if c as int == 8 then ['\\', 'b']
    else if c as int == 12 then ['\\', 'f']
    else if c == '\n' then ['\\', 'n']
    else if c == '\r' then ['\\', 'r']
    else if c == '\t' then ['\\', 't']
    else ['\\', 'u', '0', '0', Hex(c as int / 16), Hex(c as int % 16)]
  }

  function EscapeFront(s: Bytes): Bytes
    requires s != []
  {
    var n := RuneLen(s);
    if n == 0 then ['\\', 'u', 'f', 'f', 'f', 'd']
    else if n == 1 then EscapeAscii(s[0])
    else if LineSeparator(s) then ['\\', 'u', '2', '0', '2', Hex(s[2] as int % 16)]
    else s[..n]
  }

  function Escape(s: Bytes): Bytes
    decreases |s|
  {
    if s == [] then [] else EscapeFront(s) + Escape(s[Width(s)..])
  }

  // ---- Reading a string ----

  function Hex4(s: Bytes): (r: Option<nat>)
    ensures r.Some? ==> r.value < 0x10000
  {
    if |s| < 4 then None
    else match (HexValue(s[0]), HexValue(s[1]), HexValue(s[2]), HexValue(s[3]))
      case (Some(a), Some(b), Some(c), Some(d)) => Some(a * 4096 + b * 256 + c * 16 + d)
      case _ => None
  }

  predicate HighSurrogate(r: nat) { 0xD800 <= r < 0xDC00 }

  predicate LowSurrogate(r: nat) { 0xDC00 <= r < 0xE000 }

  /** The bytes an escape stands for and how many bytes it takes; s starts at the backslash. */
  function Unescape(s: Bytes): (r: Option<(Bytes, nat)>)
    requires s != [] && s[0] == '\\'
    ensures r.Some? ==> 2 <= r.value.1 <= |s|
  {
    if |s| < 2 then None
    else match s[1]
      case '"' => Some((['"'], 2))
      case '\\' => Some((['\\'], 2))
      case '/' => Some((['/'], 2))
      case 'b' => Some(([B(8)], 2))
      case 'f' => Some(([B(12)], 2))
      case 'n' => Some((['\n'], 2))
      case 'r' => Some((['\r'], 2))
      case 't' => Some((['\t'], 2))
      case 'u' =>
        (match Hex4(s[2..])
         case None => None
         case Some(r) =>
           if !HighSurrogate(r) && !LowSurrogate(r) && r < 0x110000 then Some((EncodeRune(r), 6))
           else if && HighSurrogate(r) && |s| >= 12 && s[6] == '\\' && s[7] == 'u'
                   && Hex4(s[8..]).Some? && LowSurrogate(Hex4(s[8..]).value)
           then Some((EncodeRune(0x10000 + (r - 0xD800) * 0x400 + (Hex4(s[8..]).value - 0xDC00)), 12))
           else Some((REPLACEMENT, 6)))
      case _ => None
  }

  function Prepend(front: Bytes, r: Option<(Bytes, Bytes)>): Option<(Bytes, Bytes)> {
    match r
    case None => None
    case Some((text, rest)) => Some((front + text, rest))
  }

  /** The rest of a string after its opening quote: its bytes and what follows the closing quote. */
  function ParseString(s: Bytes): (r: Option<(Bytes, Bytes)>)
    ensures r.Some? ==> |r.value.1| < |s|
    decreases |s|
  {
    if s == [] then None
    else if s[0] == '"' then Some(([], s[1..]))
    else if s[0] == '\\' then
      (match Unescape(s)
       case None => None
       case Some((text, used)) => Prepend(text, ParseString(s[used..])))
    else if s[0] as int < 0x20 then None
    else if RuneLen(s) == 0 then Prepend(REPLACEMENT, ParseString(s[1..]))
    else Prepend(s[..RuneLen(s)], ParseString(s[RuneLen(s)..]))
  }

  // ---- Reading any value ----

  datatype Value = Null | Bool | Number | Text(bytes: Bytes) | Array | Object(members: seq<(Bytes, Value)>)

  predicate IsSpace(c: Byte) { c == ' ' || c == '\t' || c == '\r' || c == '\n' }

  function SkipSpace(s: Bytes): (r: Bytes)
    ensures |r| <= |s|
  {
    if s != [] && IsSpace(s[0]) then SkipSpace(s[1..]) else s
  }

  predicate IsDigit(c: Byte) { '0' <= c <= '9' }

  function SkipDigits(s: Bytes): (r: Bytes)
    ensures |r| <= |s|
  {
    if s != [] && IsDigit(s[0]) then SkipDigits(s[1..]) else s
  }

  function ParseFraction(s: Bytes): (r: Option<Bytes>)
    ensures r.Some? ==> |r.value| <= |s|
  {
    if s == [] || s[0] != '.' then Some(s)
    else if |s| < 2 || !IsDigit(s[1]) then None
    else Some(SkipDigits(s[1..]))
  }

  function ParseExponent(s: Bytes): (r: Option<Bytes>)
    ensures r.Some? ==> |r.value| <= |s|
  {
    if s == [] || (s[0] != 'e' && s[0] != 'E') then Some(s)
    else
      var t := if |s| > 1 && (s[1] == '+' || s[1] == '-') then s[2..] else s[1..];
      if t == [] || !IsDigit(t[0]) then None else Some(SkipDigits(t))
  }

  function ParseNumber(s: Bytes): (r: Option<Bytes>)
    ensures r.Some? ==> |r.value| < |s|
  {
    var t := if s != [] && s[0] == '-' then s[1..] else s;
    if t == [] || !IsDigit(t[0]) then None
    else
      var u := if t[0] == '0' then t[1..] else SkipDigits(t[1..]);
      match ParseFraction(u)
      case None => None
      case Some(v) => ParseExponent(v)
  }

  predicate StartsWith(s: Bytes, word: string) { |word| <= |s| && s[..|word|] == word }

  function ParseValue(s: Bytes): (r: Option<(Value, Bytes)>)
    ensures r.Some? ==> |r.value.1| < |s|
    decreases |s|, 0
  {
    if s == [] then None
    else if s[0] == '"' then
      (match ParseString(s[1..])
       case None => None
       case Some((text, rest)) => Some((Text(text), rest)))
    else if s[0] == '{' then
      var t := SkipSpace(s[1..]);
      if t != [] && t[0] == '}' then Some((Object([]), t[1..]))
      else (match ParseMembers(t)
            case None => None
            case Some((members, rest)) => Some((Object(members), rest)))
    else if s[0] == '[' then
      var t := SkipSpace(s[1..]);
      if t != [] && t[0] == ']' then Some((Array, t[1..]))
      else (match ParseElements(t)
            case None => None
            case Some(rest) => Some((Array, rest)))
    else if StartsWith(s, "null") then Some((Null, s[4..]))
    else if StartsWith(s, "true") then Some((Bool, s[4..]))
    else if StartsWith(s, "false") then Some((Bool, s[5..]))
    else match ParseNumber(s)
      case None => None
      case Some(rest) => Some((Number, rest))
  }

  /** Members up to and including the closing brace. */
  function ParseMembers(s: Bytes): (r: Option<(seq<(Bytes, Value)>, Bytes)>)
    ensures r.Some? ==> |r.value.1| < |s|
    decreases |s|, 1
  {
    if s == [] || s[0] != '"' then None
    else match ParseString(s[1..])
      case None => None
      case Some((key, afterKey)) =>
        var t := SkipSpace(afterKey);
        if t == [] || t[0] != ':' then None
        else match ParseValue(SkipSpace(t[1..]))
          case None => None
          case Some((value, afterValue)) =>
            var u := SkipSpace(afterValue);
            if u != [] && u[0] == '}' then Some(([(key, value)], u[1..]))
            else if u == [] || u[0] != ',' then None
            else match ParseMembers(SkipSpace(u[1..]))
              case None => None
              case Some((members, rest)) => Some(([(key, value)] + members, rest))
  }

  function ParseElements(s: Bytes): (r: Option<Bytes>)
    ensures r.Some? ==> |r.value| < |s|
    decreases |s|, 1
  {
    match ParseValue(s)
    case None => None
    case Some((_, afterValue)) =>
      var u := SkipSpace(afterValue);
      if u != [] && u[0] == ']' then Some(u[1..])
      else if u == [] || u[0] != ',' then None
      else ParseElements(SkipSpace(u[1..]))
  }

  /** A whole text: one value with nothing but space around it. */
  function ParseText(s: Bytes): Option<Value> {
    match ParseValue(SkipSpace(s))
    case None => None
    case Some((value, rest)) => if SkipSpace(rest) == [] then Some(value) else None
  }

  // ---- Reading back what was written ----

  lemma HexRoundTrip(n: nat)
    requires n < 16
    ensures HexValue(Hex(n)) == Some(n)
  {
  }

  /** Whether a sequence is well formed depends only on its own bytes. */
  lemma RuneLenLocal(s: Bytes, t: Bytes)
    requires RuneLen(s) > 0
    ensures RuneLen(s[..RuneLen(s)] + t) == RuneLen(s)
  {
  }

  /** One byte stands for itself, takes a short escape, or takes a hexadecimal one. */
  lemma EscapeLength(c: Byte)
    requires c as int < 0x80
    ensures |EscapeAscii(c)| == 1 || |EscapeAscii(c)| == 2 || |EscapeAscii(c)| == 6
  {
  }

  lemma ReadPlain(c: Byte, tail: Bytes)
    requires c as int < 0x80 && |EscapeAscii(c)| == 1
    ensures ParseString(EscapeAscii(c) + tail) == Prepend([c], ParseString(tail))
  {
    var s := [c] + tail;
    assert HtmlSafe(c) && EscapeAscii(c) == [c];
    assert s[1..] == tail && s[..1] == [c] && RuneLen(s) == 1;
  }

  lemma ReadShortEscape(c: Byte, tail: Bytes)
    requires c as int < 0x80 && |EscapeAscii(c)| == 2
    ensures ParseString(EscapeAscii(c) + tail) == Prepend([c], ParseString(tail))
  {
    var s := EscapeAscii(c) + tail;
    assert s[2..] == tail;
    assert Unescape(s) == Some(([c], 2));
  }

  lemma ReadHex(hi: nat, lo: nat, tail: Bytes)
    requires hi < 8 && lo < 16
    ensures var s: Bytes := ['\\', 'u', '0', '0', Hex(hi), Hex(lo)] + tail; Unescape(s) == Some(([B(hi * 16 + lo)], 6))
  {
    var s: Bytes := ['\\', 'u', '0', '0', Hex(hi), Hex(lo)] + tail;
    HexRoundTrip(hi);
    HexRoundTrip(lo);
    assert s[2..][0] == '0' && s[2..][1] == '0' && s[2..][2] == Hex(hi) && s[2..][3] == Hex(lo);
    assert Hex4(s[2..]) == Some(hi * 16 + lo);
  }

  lemma ReadHexEscape(c: Byte, tail: Bytes)
    requires c as int < 0x80 && |EscapeAscii(c)| == 6
    ensures ParseString(EscapeAscii(c) + tail) == Prepend([c], ParseString(tail))
  {
    var hi, lo := c as int / 16, c as int % 16;
    var s := EscapeAscii(c) + tail;
    assert EscapeAscii(c) == ['\\', 'u', '0', '0', Hex(hi), Hex(lo)];
    ReadHex(hi, lo, tail);
    assert s[6..] == tail;
  }

  lemma ReadEscapedAscii(c: Byte, tail: Bytes)
    requires c as int < 0x80
    ensures ParseString(EscapeAscii(c) + tail) == Prepend([c], ParseString(tail))
  {
    EscapeLength(c);
    if |EscapeAscii(c)| == 1 {
      ReadPlain(c, tail);
    } else if |EscapeAscii(c)| == 2 {
      ReadShortEscape(c, tail);
    } else {
      ReadHexEscape(c, tail);
    }
  }

  lemma ReadLineSeparator(d: nat, tail: Bytes)
    requires d == 8 || d == 9
    ensures ParseString(['\\', 'u', '2', '0', '2', Hex(d)] + tail)
         == Prepend([B(0xE2), B(0x80), B(0xA0 + d)], ParseString(tail))
  {
    var s: Bytes := ['\\', 'u', '2', '0', '2', Hex(d)] + tail;
    HexRoundTrip(d);
    assert s[2..][0] == '2' && s[2..][1] == '0' && s[2..][2] == '2' && s[2..][3] == Hex(d);
    assert Hex4(s[2..]) == Some(0x2020 + d);
    assert s[6..] == tail;
    assert EncodeRune(0x2020 + d) == [B(0xE2), B(0x80), B(0xA0 + d)];
  }

  lemma ReadReplacement(tail: Bytes)
    ensures ParseString(['\\', 'u', 'f', 'f', 'f', 'd'] + tail) == Prepend(REPLACEMENT, ParseString(tail))
  {
    var s: Bytes := ['\\', 'u', 'f', 'f', 'f', 'd'] + tail;
    assert s[2..][0] == 'f' && s[2..][1] == 'f' && s[2..][2] == 'f' && s[2..][3] == 'd';
    assert Hex4(s[2..]) == Some(0xFFFD);
    assert s[6..] == tail;
    assert EncodeRune(0xFFFD) == REPLACEMENT;
  }

  lemma ReadRune(s: Bytes, tail: Bytes)
    requires RuneLen(s) > 1
    ensures ParseString(s[..RuneLen(s)] + tail) == Prepend(s[..RuneLen(s)], ParseString(tail))
  {
    RuneLenLocal(s, tail);
    var t := s[..RuneLen(s)] + tail;
    assert t[..RuneLen(s)] == s[..RuneLen(s)] && t[RuneLen(s)..] == tail;
  }

  lemma ReadFront(s: Bytes, tail: Bytes)
    requires s != []
    ensures ParseString(EscapeFront(s) + tail) == Prepend(CoerceFront(s), ParseString(tail))
  {
    if RuneLen(s) == 0 {
      ReadReplacement(tail);
    } else if RuneLen(s) == 1 {
      ReadEscapedAscii(s[0], tail);
      assert s[..1] == [s[0]];
    } else if LineSeparator(s) {
      var d := s[2] as int % 16;
      ReadLineSeparator(d, tail);
      assert s[..3] == [B(0xE2), B(0x80), B(0xA0 + d)];
    } else {
      ReadRune(s, tail);
    }
  }

  lemma EscapeStep(s: Bytes, tail: Bytes)
    requires s != []
    ensures Escape(s) + tail == EscapeFront(s) + (Escape(s[Width(s)..]) + tail)
  {
  }

  lemma ReadStep(s: Bytes, tail: Bytes, text: Bytes, rest: Bytes)
    requires s != [] && ParseString(tail) == Some((text, rest))
    ensures ParseString(EscapeFront(s) + tail) == Some((CoerceFront(s) + text, rest))
  {
    ReadFront(s, tail);
  }

  /** Reading an escaped string gives the string back with its malformed bytes replaced. */
  lemma {:induction false} ReadEscaped(s: Bytes, rest: Bytes)
    ensures ParseString(Escape(s) + (['"'] + rest)) == Some((Coerce(s), rest))
    decreases |s|
  {
    if s == [] {
      ReadQuote(rest);
      assert Escape(s) + (['"'] + rest) == ['"'] + rest;
    } else {
      var back := s[Width(s)..];
      ReadEscaped(back, rest);
      ReadStep(s, Escape(back) + (['"'] + rest), Coerce(back), rest);
      EscapeStep(s, ['"'] + rest);
    }
  }

  lemma ReadQuote(rest: Bytes)
    ensures ParseString(['"'] + rest) == Some(([], rest))
  {
    assert (['"'] + rest)[1..] == rest;
  }
}
