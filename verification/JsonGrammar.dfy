/** The grammar of RFC 8259 as concrete syntax trees, and its agreement with the parser: a text is read as a value
    if and only if some tree prints as the text and means the value. */
module JsonGrammar {
  import opened Wrappers
  import opened Slugs
  import opened Json

  // ---- Trees, what they print and what they mean ----

  /** The inside of a string up to and including the closing quote (section 7): runs of plain bytes, two-letter
      escapes, and escapes by four hexadecimal digits. */
  datatype Chars =
    | Quote
    | Run(bytes: Bytes, rest: Chars)
    | Short(letter: Byte, rest: Chars)
    | Unit(hex: Bytes, rest: Chars)

  const LOWER_HEX := "0123456789abcdef"
  const UPPER_HEX := "0123456789ABCDEF"

  predicate HexDigit(c: Byte, d: nat) { d < 16 && (c == LOWER_HEX[d] || c == UPPER_HEX[d]) }

  predicate Plain(c: Byte) { c as int >= 0x20 && c != '"' && c != '\\' }

  /** Escapes of section 7: the letter and the byte it stands for. */
  function ShortMeaning(letter: Byte): Option<Byte> {
    if letter == '"' || letter == '\\' || letter == '/' then Some(letter)
    else if letter == 'b' then Some(8 as char)
    else if letter == 'f' then Some(12 as char)
    else if letter == 'n' then Some(10 as char)
    else if letter == 'r' then Some(13 as char)
    else if letter == 't' then Some(9 as char)
    else None
  }

  predicate ValidChars(chars: Chars) {
    match chars
    case Quote => true
    case Run(bytes, rest) => bytes != [] && (forall c | c in bytes :: Plain(c)) && !rest.Run? && ValidChars(rest)
    case Short(letter, rest) => ShortMeaning(letter).Some? && ValidChars(rest)
    case Unit(hex, rest) => |hex| == 4 && Hex4(hex).Some? && ValidChars(rest)
  }

  /** What the string prints in front of the rest of the text. */
  function PrintChars(chars: Chars, rest: Bytes): (text: Bytes)
    ensures text != []
  {
    match chars
    case Quote => ['"'] + rest
    case Run(bytes, more) => bytes + PrintChars(more, rest)
    case Short(letter, more) => ['\\', letter] + PrintChars(more, rest)
    case Unit(hex, more) => ['\\', 'u'] + hex + PrintChars(more, rest)
  }

  /** Malformed bytes and lone surrogates become U+FFFD, a surrogate pair one rune. */
  function CharsMean(chars: Chars): Bytes
    requires ValidChars(chars)
  {
    match chars
    case Quote => []
    case Run(bytes, rest) => Coerce(bytes) + CharsMean(rest)
    case Short(letter, rest) => [ShortMeaning(letter).value] + CharsMean(rest)
    case Unit(hex, rest) =>
      var r := Hex4(hex).value;
      assert ValidChars(rest);
      if 0xD800 <= r <= 0xDBFF && rest.Unit? && 0xDC00 <= Hex4(rest.hex).value <= 0xDFFF
      then EncodeRune(0x10000 + (r - 0xD800) * 0x400 + (Hex4(rest.hex).value - 0xDC00)) + CharsMean(rest.rest)
      else (if 0xD800 <= r <= 0xDFFF then REPLACEMENT else EncodeRune(r)) + CharsMean(rest)
  }

  predicate Digits(s: Bytes) { s != [] && forall c | c in s :: '0' <= c <= '9' }

  predicate IsWhole(s: Bytes) { Digits(s) && (s[0] == '0' ==> s == ['0']) }

  predicate IsFraction(s: Bytes) { s == [] || (s[0] == '.' && Digits(s[1..])) }

  predicate IsExponent(s: Bytes) {
    || s == []
    || ((s[0] == 'e' || s[0] == 'E')
        && (Digits(s[1..]) || (|s| > 1 && (s[1] == '+' || s[1] == '-') && Digits(s[2..]))))
  }

  /** Section 6. */
  datatype Numeral = Numeral(minus: bool, whole: Bytes, fraction: Bytes, exponent: Bytes)

  predicate ValidNumeral(n: Numeral) { IsWhole(n.whole) && IsFraction(n.fraction) && IsExponent(n.exponent) }

  function PrintNumeral(n: Numeral, rest: Bytes): Bytes {
    var text := n.whole + (n.fraction + (n.exponent + rest));
    if n.minus then ['-'] + text else text
  }

  datatype Tree =
    | NullTree | TrueTree | FalseTree
    | NumberTree(number: Numeral)
    | TextTree(chars: Chars)
    | EmptyArray(blank: Bytes) | ArrayTree(blank: Bytes, items: Items)
    | EmptyObject(blank: Bytes) | ObjectTree(blank: Bytes, members: Members)

  /** Values separated by commas, each with the blanks after it, up to the closing bracket. */
  datatype Items =
    | LastItem(item: Tree, after: Bytes)
    | Item(item: Tree, after: Bytes, blank: Bytes, rest: Items)

  datatype Members =
    | LastMember(key: Chars, colon: Bytes, before: Bytes, value: Tree, after: Bytes)
    | Member(key: Chars, colon: Bytes, before: Bytes, value: Tree, after: Bytes, blank: Bytes, rest: Members)

  predicate Blank(s: Bytes) { forall c | c in s :: c == ' ' || c == '\t' || c == '\n' || c == '\r' }

  predicate ValidTree(t: Tree) {
    match t
    case NullTree => true
    case TrueTree => true
    case FalseTree => true
    case NumberTree(number) => ValidNumeral(number)
    case TextTree(chars) => ValidChars(chars)
    case EmptyArray(blank) => Blank(blank)
    case ArrayTree(blank, items) => Blank(blank) && ValidItems(items)
    case EmptyObject(blank) => Blank(blank)
    case ObjectTree(blank, members) => Blank(blank) && ValidMembers(members)
  }

  predicate ValidItems(items: Items) {
    match items
    case LastItem(item, after) => ValidTree(item) && Blank(after)
    case Item(item, after, blank, rest) => ValidTree(item) && Blank(after) && Blank(blank) && ValidItems(rest)
  }

  predicate ValidMembers(members: Members) {
    match members
    case LastMember(key, colon, before, value, after) =>
      ValidChars(key) && Blank(colon) && Blank(before) && ValidTree(value) && Blank(after)
    case Member(key, colon, before, value, after, blank, rest) =>
      && ValidChars(key) && Blank(colon) && Blank(before) && ValidTree(value) && Blank(after)
      && Blank(blank) && ValidMembers(rest)
  }

  /** What the tree prints in front of the rest of the text. */
  function Print(t: Tree, rest: Bytes): Bytes {
    match t
    case NullTree => ['n', 'u', 'l', 'l'] + rest
    case TrueTree => ['t', 'r', 'u', 'e'] + rest
    case FalseTree => ['f', 'a', 'l', 's', 'e'] + rest
    case NumberTree(number) => PrintNumeral(number, rest)
    case TextTree(chars) => ['"'] + PrintChars(chars, rest)
    case EmptyArray(blank) => ['['] + (blank + ([']'] + rest))
    case ArrayTree(blank, items) => ['['] + (blank + PrintItems(items, rest))
    case EmptyObject(blank) => ['{'] + (blank + (['}'] + rest))
    case ObjectTree(blank, members) => ['{'] + (blank + PrintMembers(members, rest))
  }

  function PrintItems(items: Items, rest: Bytes): Bytes {
    match items
    case LastItem(item, after) => Print(item, after + ([']'] + rest))
    case Item(item, after, blank, more) => Print(item, after + ([','] + (blank + PrintItems(more, rest))))
  }

  function PrintMembers(members: Members, rest: Bytes): Bytes {
    match members
    case LastMember(key, colon, before, value, after) =>
      ['"'] + PrintChars(key, colon + ([':'] + (before + Print(value, after + (['}'] + rest)))))
    case Member(key, colon, before, value, after, blank, more) =>
      var next := [','] + (blank + PrintMembers(more, rest));
      ['"'] + PrintChars(key, colon + ([':'] + (before + Print(value, after + next))))
  }

  function Mean(t: Tree): Value
    requires ValidTree(t)
  {
    match t
    case NullTree => Null
    case TrueTree => Bool
    case FalseTree => Bool
    case NumberTree(_) => Number
    case TextTree(chars) => Text(CharsMean(chars))
    case EmptyArray(_) => Array
    case ArrayTree(_, _) => Array
    case EmptyObject(_) => Object([])
    case ObjectTree(_, members) => Object(MembersMean(members))
  }

  function MembersMean(members: Members): seq<(Bytes, Value)>
    requires ValidMembers(members)
  {
    match members
    case LastMember(key, _, _, value, _) => [(CharsMean(key), Mean(value))]
    case Member(key, _, _, value, _, _, rest) => [(CharsMean(key), Mean(value))] + MembersMean(rest)
  }

  // ---- Hexadecimal digits ----

  lemma HexValueIs(c: Byte, d: nat)
    ensures HexValue(c) == Some(d) <==> HexDigit(c, d)
  {
    assert LOWER_HEX == ['0', '1', '2', '3', '4', '5', '6', '7', '8', '9', 'a', 'b', 'c', 'd', 'e', 'f'];
    assert UPPER_HEX == ['0', '1', '2', '3', '4', '5', '6', '7', '8', '9', 'A', 'B', 'C', 'D', 'E', 'F'];
  }

  /** Four digits are read as the number they spell, most significant first; nothing else is read. */
  lemma HexSpells(hex: Bytes, a: nat, b: nat, c: nat, d: nat)
    requires |hex| == 4
    requires HexDigit(hex[0], a) && HexDigit(hex[1], b) && HexDigit(hex[2], c) && HexDigit(hex[3], d)
    ensures Hex4(hex) == Some(a * 4096 + b * 256 + c * 16 + d)
  {
    HexValueIs(hex[0], a);
    HexValueIs(hex[1], b);
    HexValueIs(hex[2], c);
    HexValueIs(hex[3], d);
  }

  lemma OnlyHexIsRead(hex: Bytes)
    requires |hex| == 4
    ensures Hex4(hex).Some? <==> forall i | 0 <= i < 4 :: exists d :: HexDigit(hex[i], d)
  {
    forall i | 0 <= i < 4 ensures HexValue(hex[i]).Some? <==> exists d :: HexDigit(hex[i], d) {
      if HexValue(hex[i]).Some? {
        HexValueIs(hex[i], HexValue(hex[i]).value);
      }
      if d: nat :| HexDigit(hex[i], d) {
        HexValueIs(hex[i], d);
      }
    }
  }

  // ---- Reading what a tree prints: strings ----

  lemma RuneLenBeside(s: Bytes, tail: Bytes)
    requires s != [] && tail != [] && tail[0] as int < 0x80
    ensures RuneLen(s + tail) == RuneLen(s)
  {
    forall i | 0 <= i < |s| + 1 ensures (s + tail)[i] == if i < |s| then s[i] else tail[0] { }
  }

  lemma {:induction false} ReadRun(bytes: Bytes, tail: Bytes)
    requires (forall c | c in bytes :: Plain(c)) && tail != [] && tail[0] as int < 0x80
    ensures ParseString(bytes + tail) == Prepend(Coerce(bytes), ParseString(tail))
    decreases |bytes|
  {
    if bytes == [] {
      assert bytes + tail == tail;
      if ParseString(tail).Some? { assert [] + ParseString(tail).value.0 == ParseString(tail).value.0; }
    } else {
      var s, n := bytes + tail, Width(bytes);
      RuneLenBeside(bytes, tail);
      assert s[0] == bytes[0] && Plain(bytes[0]);
      assert s[n..] == bytes[n..] + tail && s[..n] == bytes[..n];
      ReadRun(bytes[n..], tail);
      JoinFronts(CoerceFront(bytes), Coerce(bytes[n..]), ParseString(tail));
    }
  }

  lemma JoinFronts(a: Bytes, b: Bytes, r: Option<(Bytes, Bytes)>)
    ensures Prepend(a, Prepend(b, r)) == Prepend(a + b, r)
  {
    if r.Some? { assert a + (b + r.value.0) == a + b + r.value.0; }
  }

  lemma ReadShort(letter: Byte, tail: Bytes)
    requires ShortMeaning(letter).Some?
    ensures ParseString(['\\', letter] + tail) == Prepend([ShortMeaning(letter).value], ParseString(tail))
  {
    var s := ['\\', letter] + tail;
    assert s[2..] == tail;
    assert Unescape(s) == Some(([ShortMeaning(letter).value], 2));
  }

  predicate StartsLow(s: Bytes) {
    |s| >= 6 && s[0] == '\\' && s[1] == 'u' && Hex4(s[2..]).Some? && LowSurrogate(Hex4(s[2..]).value)
  }

  lemma Hex4Local(hex: Bytes, tail: Bytes)
    requires |hex| == 4
    ensures Hex4(hex + tail) == Hex4(hex)
  {
    assert forall i | 0 <= i < 4 :: (hex + tail)[i] == hex[i];
  }

  lemma UnescapeUnit(hex: Bytes, tail: Bytes)
    requires |hex| == 4 && Hex4(hex).Some?
    ensures var r, s := Hex4(hex).value, ['\\', 'u'] + hex + tail;
      Unescape(s) ==
        if HighSurrogate(r) && StartsLow(tail)
        then Some((EncodeRune(0x10000 + (r - 0xD800) * 0x400 + (Hex4(tail[2..]).value - 0xDC00)), 12))
        else Some((if HighSurrogate(r) || LowSurrogate(r) then REPLACEMENT else EncodeRune(r), 6))
  {
    var s := ['\\', 'u'] + hex + tail;
    assert s[2..] == hex + tail;
    Hex4Local(hex, tail);
    assert s[6..] == tail;
    if |tail| >= 2 { assert s[8..] == tail[2..] && s[6] == tail[0] && s[7] == tail[1]; }
  }

  lemma ReadLoneUnit(hex: Bytes, tail: Bytes)
    requires |hex| == 4 && Hex4(hex).Some? && !(HighSurrogate(Hex4(hex).value) && StartsLow(tail))
    ensures var r := Hex4(hex).value;
      ParseString(['\\', 'u'] + hex + tail)
      == Prepend(if HighSurrogate(r) || LowSurrogate(r) then REPLACEMENT else EncodeRune(r), ParseString(tail))
  {
    UnescapeUnit(hex, tail);
    assert (['\\', 'u'] + hex + tail)[6..] == tail;
  }

  lemma ReadPair(hex: Bytes, low: Bytes, tail: Bytes)
    requires |hex| == 4 && Hex4(hex).Some? && HighSurrogate(Hex4(hex).value)
    requires |low| == 4 && Hex4(low).Some? && LowSurrogate(Hex4(low).value)
    ensures ParseString(['\\', 'u'] + hex + (['\\', 'u'] + low) + tail) == Prepend(
      EncodeRune(0x10000 + (Hex4(hex).value - 0xD800) * 0x400 + (Hex4(low).value - 0xDC00)), ParseString(tail))
  {
    var second := ['\\', 'u'] + low + tail;
    var s := ['\\', 'u'] + hex + (['\\', 'u'] + low) + tail;
    assert s == ['\\', 'u'] + hex + second;
    assert second[2..] == low + tail;
    Hex4Local(low, tail);
    UnescapeUnit(hex, second);
    assert s[12..] == tail;
  }

  /** Only a unit escape starts with the two letters of one. */
  lemma StartsLowIs(chars: Chars, rest: Bytes)
    requires ValidChars(chars)
    ensures StartsLow(PrintChars(chars, rest)) <==> chars.Unit? && LowSurrogate(Hex4(chars.hex).value)
  {
    var s := PrintChars(chars, rest);
    match chars
    case Quote =>
    case Run(bytes, more) => assert s[0] == bytes[0] && bytes[0] in bytes;
    case Short(letter, more) => assert s[1] == letter;
    case Unit(hex, more) =>
      assert s[2..] == hex + PrintChars(more, rest);
      Hex4Local(hex, PrintChars(more, rest));
  }

  lemma AfterRun(chars: Chars, rest: Bytes)
    requires ValidChars(chars) && !chars.Run?
    ensures PrintChars(chars, rest)[0] as int < 0x80
  {
  }

  predicate Pairs(hex: Bytes, more: Chars)
    requires ValidChars(more) && ValidChars(Unit(hex, more))
  {
    HighSurrogate(Hex4(hex).value) && more.Unit? && LowSurrogate(Hex4(more.hex).value)
  }

  /** What the front of the rest of a string prints and means, and what is left. */
  function Front(chars: Chars): (front: (Bytes, Bytes, Chars))
    requires ValidChars(chars) && !chars.Quote?
    ensures ValidChars(front.2) && front.2 < chars && CharsMean(chars) == front.1 + CharsMean(front.2)
  {
    match chars
    case Run(bytes, more) => (bytes, Coerce(bytes), more)
    case Short(letter, more) => (['\\', letter], [ShortMeaning(letter).value], more)
    case Unit(hex, more) =>
      assert ValidChars(more);
      var r, unit := Hex4(hex).value, ['\\', 'u'] + hex;
      if Pairs(hex, more) then
        assert ValidChars(more.rest);
        (unit + (['\\', 'u'] + more.hex),
         EncodeRune(0x10000 + (r - 0xD800) * 0x400 + (Hex4(more.hex).value - 0xDC00)),
         more.rest)
      else (unit, if HighSurrogate(r) || LowSurrogate(r) then REPLACEMENT else EncodeRune(r), more)
  }

  lemma Regroup(a: Bytes, b: Bytes, c: Bytes)
    ensures (a + b) + c == a + (b + c)
  {
  }

  lemma FrontPrints(chars: Chars, rest: Bytes)
    requires ValidChars(chars) && !chars.Quote?
    ensures PrintChars(chars, rest) == Front(chars).0 + PrintChars(Front(chars).2, rest)
  {
    if chars.Unit? && Pairs(chars.hex, chars.rest) {
      var u: Bytes := ['\\', 'u'];
      Regroup(u + chars.hex, u + chars.rest.hex, PrintChars(chars.rest.rest, rest));
    }
  }

  lemma PairFront(hex: Bytes, more: Chars)
    requires ValidChars(more) && ValidChars(Unit(hex, more)) && Pairs(hex, more)
    ensures Front(Unit(hex, more)) ==
      (['\\', 'u'] + hex + (['\\', 'u'] + more.hex),
       EncodeRune(0x10000 + (Hex4(hex).value - 0xD800) * 0x400 + (Hex4(more.hex).value - 0xDC00)),
       more.rest)
  {
  }

  lemma LoneFront(hex: Bytes, more: Chars)
    requires ValidChars(more) && ValidChars(Unit(hex, more)) && !Pairs(hex, more)
    ensures var r := Hex4(hex).value;
      Front(Unit(hex, more)) ==
      (['\\', 'u'] + hex, if HighSurrogate(r) || LowSurrogate(r) then REPLACEMENT else EncodeRune(r), more)
  {
  }

  predicate Reads(text: Bytes, meaning: Bytes, tail: Bytes) {
    ParseString(text + tail) == Prepend(meaning, ParseString(tail))
  }

  lemma ReadPairFront(hex: Bytes, more: Chars, tail: Bytes)
    requires ValidChars(more) && ValidChars(Unit(hex, more)) && Pairs(hex, more)
    ensures Reads(Front(Unit(hex, more)).0, Front(Unit(hex, more)).1, tail)
  {
    PairFront(hex, more);
    ReadPair(hex, more.hex, tail);
  }

  lemma ReadLoneFront(hex: Bytes, more: Chars, rest: Bytes)
    requires ValidChars(more) && ValidChars(Unit(hex, more)) && !Pairs(hex, more)
    ensures Reads(Front(Unit(hex, more)).0, Front(Unit(hex, more)).1, PrintChars(more, rest))
  {
    LoneFront(hex, more);
    StartsLowIs(more, rest);
    ReadLoneUnit(hex, PrintChars(more, rest));
  }

  lemma ReadFrontOf(chars: Chars, rest: Bytes)
    requires ValidChars(chars) && !chars.Quote?
    ensures Reads(Front(chars).0, Front(chars).1, PrintChars(Front(chars).2, rest))
  {
    match chars
    case Run(bytes, more) =>
      AfterRun(more, rest);
      ReadRun(bytes, PrintChars(more, rest));
    case Short(letter, more) => ReadShort(letter, PrintChars(more, rest));
    case Unit(hex, more) =>
      assert ValidChars(more);
      if Pairs(hex, more) {
        PairFront(hex, more);
        ReadPairFront(hex, more, PrintChars(more.rest, rest));
      } else {
        LoneFront(hex, more);
        ReadLoneFront(hex, more, rest);
      }
  }

  /** Reading the rest of a string, however it is written, gives its meaning and what follows the quote. */
  lemma {:induction false} ReadChars(chars: Chars, rest: Bytes)
    requires ValidChars(chars)
    ensures ParseString(PrintChars(chars, rest)) == Some((CharsMean(chars), rest))
    decreases chars
  {
    if chars.Quote? {
      assert (['"'] + rest)[1..] == rest;
    } else {
      ReadFrontOf(chars, rest);
      FrontPrints(chars, rest);
      ReadChars(Front(chars).2, rest);
    }
  }
}
