/** The parser accepts exactly the texts of the grammar, and reads each as what its tree means. */
module JsonLanguage {
  import opened Wrappers
  import opened Slugs
  import opened Json
  import opened JsonGrammar

  /** The texts of RFC 8259: one value with nothing but blanks around it. */
  ghost predicate IsText(raw: Bytes, v: Value) {
    exists before, tree, after :: Document(raw, before, tree, after) && Mean(tree) == v
  }

  predicate Document(raw: Bytes, before: Bytes, tree: Tree, after: Bytes) {
    Blank(before) && ValidTree(tree) && Blank(after) && raw == before + Print(tree, after)
  }

  // ---- Blanks and numbers ----

  predicate NoBlank(s: Bytes) { s == [] || !IsSpace(s[0]) }

  lemma {:induction false} SkipBlank(blank: Bytes, s: Bytes)
    requires Blank(blank) && NoBlank(s)
    ensures SkipSpace(blank + s) == s
  {
    if blank == [] {
      assert blank + s == s;
    } else {
      assert blank[0] in blank && (blank + s)[1..] == blank[1..] + s;
      assert forall c | c in blank[1..] :: c in blank;
      SkipBlank(blank[1..], s);
    }
  }

  lemma {:induction false} BlankOf(s: Bytes) returns (blank: Bytes)
    ensures Blank(blank) && s == blank + SkipSpace(s) && NoBlank(SkipSpace(s))
    decreases |s|
  {
    if s != [] && IsSpace(s[0]) {
      var rest := BlankOf(s[1..]);
      blank := [s[0]] + rest;
    } else {
      blank := [];
    }
  }

  predicate NoDigit(s: Bytes) { s == [] || !IsDigit(s[0]) }

  /** What cannot continue a number. */
  predicate Stops(s: Bytes) { NoDigit(s) && (s == [] || (s[0] != '.' && s[0] != 'e' && s[0] != 'E')) }

  lemma {:induction false} SkipAllDigits(digits: Bytes, s: Bytes)
    requires (forall c | c in digits :: '0' <= c <= '9') && NoDigit(s)
    ensures SkipDigits(digits + s) == s
  {
    if digits == [] {
      assert digits + s == s;
    } else {
      assert digits[0] in digits && (digits + s)[1..] == digits[1..] + s;
      assert forall c | c in digits[1..] :: c in digits;
      SkipAllDigits(digits[1..], s);
    }
  }

  lemma {:induction false} DigitsOf(s: Bytes) returns (digits: Bytes)
    ensures (forall c | c in digits :: '0' <= c <= '9') && s == digits + SkipDigits(s) && NoDigit(SkipDigits(s))
    ensures s != [] && IsDigit(s[0]) ==> digits != [] && digits[0] == s[0]
    decreases |s|
  {
    if s != [] && IsDigit(s[0]) {
      var rest := DigitsOf(s[1..]);
      digits := [s[0]] + rest;
    } else {
      digits := [];
    }
  }

  lemma ReadExponent(e: Bytes, rest: Bytes)
    requires IsExponent(e) && Stops(rest)
    ensures ParseExponent(e + rest) == Some(rest)
  {
    var s := e + rest;
    if e == [] {
      assert s == rest;
    } else if |e| > 1 && (e[1] == '+' || e[1] == '-') {
      assert e[1..][0] == e[1] && e[1] in e[1..];
      assert s[2..] == e[2..] + rest && e[2..][0] in e[2..];
      SkipAllDigits(e[2..], rest);
    } else {
      assert s[1..] == e[1..] + rest && e[1..][0] in e[1..];
      SkipAllDigits(e[1..], rest);
    }
  }

  lemma ReadFraction(f: Bytes, rest: Bytes)
    requires IsFraction(f) && NoDigit(rest) && (rest == [] || rest[0] != '.')
    ensures ParseFraction(f + rest) == Some(rest)
  {
    var s := f + rest;
    if f == [] {
      assert s == rest;
    } else {
      assert s[1..] == f[1..] + rest && f[1..][0] in f[1..] && s[1] == f[1..][0];
      SkipAllDigits(f[1..], rest);
    }
  }

  function AfterInteger(t: Bytes): Bytes
    requires t != []
  {
    if t[0] == '0' then t[1..] else SkipDigits(t[1..])
  }

  lemma ReadWhole(w: Bytes, rest: Bytes)
    requires IsWhole(w) && NoDigit(rest)
    ensures var t := w + rest;
      t != [] && IsDigit(t[0]) && AfterInteger(t) == rest
  {
    var t := w + rest;
    assert w[0] in w && t[1..] == w[1..] + rest;
    if w[0] != '0' {
      assert forall c | c in w[1..] :: c in w;
      SkipAllDigits(w[1..], rest);
    }
  }

  lemma AfterWhole(n: Numeral, rest: Bytes)
    requires ValidNumeral(n) && Stops(rest)
    ensures var e := n.exponent + rest; NoDigit(e) && (e == [] || e[0] != '.')
    ensures NoDigit(n.fraction + (n.exponent + rest))
  {
  }

  function Unsigned(s: Bytes): Bytes { if s != [] && s[0] == '-' then s[1..] else s }

  lemma ParseNumberParts(s: Bytes, u: Bytes, v: Bytes, rest: Bytes)
    requires var t := Unsigned(s); t != [] && IsDigit(t[0]) && AfterInteger(t) == u
    requires ParseFraction(u) == Some(v) && ParseExponent(v) == Some(rest)
    ensures ParseNumber(s) == Some(rest)
  {
  }

  lemma ReadNumeral(n: Numeral, rest: Bytes)
    requires ValidNumeral(n) && Stops(rest)
    ensures ParseNumber(PrintNumeral(n, rest)) == Some(rest)
  {
    var e := n.exponent + rest;
    AfterWhole(n, rest);
    ReadWhole(n.whole, n.fraction + e);
    ReadFraction(n.fraction, e);
    ReadExponent(n.exponent, rest);
    UnsignedNumeral(n, rest);
    ParseNumberParts(PrintNumeral(n, rest), n.fraction + e, e, rest);
  }

  lemma UnsignedNumeral(n: Numeral, rest: Bytes)
    requires ValidNumeral(n)
    ensures var s := PrintNumeral(n, rest);
      && Unsigned(s) == n.whole + (n.fraction + (n.exponent + rest))
      && s != [] && (s[0] == '-' || IsDigit(s[0]))
  {
    var t := n.whole + (n.fraction + (n.exponent + rest));
    assert n.whole[0] in n.whole && t[0] == n.whole[0];
    if n.minus { assert (['-'] + t)[1..] == t; }
  }

  lemma ExponentOf(s: Bytes, rest: Bytes) returns (e: Bytes)
    requires ParseExponent(s) == Some(rest)
    ensures IsExponent(e) && s == e + rest
  {
    if s == [] || (s[0] != 'e' && s[0] != 'E') {
      e := [];
    } else if |s| > 1 && (s[1] == '+' || s[1] == '-') {
      var digits := DigitsOf(s[2..]);
      e := [s[0], s[1]] + digits;
      assert e[2..] == digits && s == [s[0], s[1]] + s[2..];
    } else {
      var digits := DigitsOf(s[1..]);
      e := [s[0]] + digits;
      assert e[1..] == digits && s == [s[0]] + s[1..];
    }
  }

  lemma FractionOf(s: Bytes, rest: Bytes) returns (f: Bytes)
    requires ParseFraction(s) == Some(rest)
    ensures IsFraction(f) && s == f + rest
  {
    if s == [] || s[0] != '.' {
      f := [];
    } else {
      var digits := DigitsOf(s[1..]);
      f := ['.'] + digits;
      assert f[1..] == digits && s == ['.'] + s[1..];
    }
  }

  lemma WholeOf(t: Bytes) returns (w: Bytes)
    requires t != [] && IsDigit(t[0])
    ensures IsWhole(w) && t == w + AfterInteger(t)
  {
    assert t == [t[0]] + t[1..];
    if t[0] == '0' {
      w := ['0'];
    } else {
      var digits := DigitsOf(t[1..]);
      w := [t[0]] + digits;
      Regroup([t[0]], digits, SkipDigits(t[1..]));
    }
  }

  lemma NumberParts(s: Bytes, rest: Bytes) returns (u: Bytes, v: Bytes)
    requires ParseNumber(s) == Some(rest)
    ensures var t := Unsigned(s); t != [] && IsDigit(t[0]) && AfterInteger(t) == u
    ensures ParseFraction(u) == Some(v) && ParseExponent(v) == Some(rest)
  {
    u := AfterInteger(Unsigned(s));
    v := ParseFraction(u).value;
  }

  lemma NumeralOf(s: Bytes, rest: Bytes) returns (n: Numeral)
    requires ParseNumber(s) == Some(rest)
    ensures ValidNumeral(n) && s == PrintNumeral(n, rest)
  {
    var u, v := NumberParts(s, rest);
    var w := WholeOf(Unsigned(s));
    var f := FractionOf(u, v);
    var e := ExponentOf(v, rest);
    n := Numeral(s[0] == '-', w, f, e);
    if s[0] == '-' { assert s == ['-'] + s[1..]; }
  }

  // ---- Values: from the tree to the parser ----

  /** What a value can start with. */
  predicate Opens(c: Byte) {
    c == '"' || c == '{' || c == '[' || c == 'n' || c == 't' || c == 'f' || c == '-' || IsDigit(c)
  }

  lemma TreeOpens(t: Tree, rest: Bytes)
    requires ValidTree(t)
    ensures Print(t, rest) != [] && Opens(Print(t, rest)[0])
  {
    if t.NumberTree? { UnsignedNumeral(t.number, rest); }
  }

  lemma ItemsOpen(items: Items, rest: Bytes)
    requires ValidItems(items)
    ensures PrintItems(items, rest) != [] && Opens(PrintItems(items, rest)[0])
  {
    match items
    case LastItem(item, after) => TreeOpens(item, after + ([']'] + rest));
    case Item(item, after, blank, more) => TreeOpens(item, after + ([','] + (blank + PrintItems(more, rest))));
  }

  lemma MembersOpen(members: Members, rest: Bytes)
    ensures PrintMembers(members, rest) != [] && PrintMembers(members, rest)[0] == '"'
  {
  }

  lemma BlankStops(blank: Bytes, s: Bytes)
    requires Blank(blank) && s != [] && (s[0] == ',' || s[0] == ']' || s[0] == '}')
    ensures Stops(blank + s) && SkipSpace(blank + s) == s
  {
    if blank != [] { assert blank[0] in blank; }
    SkipBlank(blank, s);
  }

  lemma ReadWord(t: Tree, rest: Bytes)
    requires t.NullTree? || t.TrueTree? || t.FalseTree?
    ensures ParseValue(Print(t, rest)) == Some((Mean(t), rest))
  {
    var s := Print(t, rest);
    assert "null" == ['n', 'u', 'l', 'l'] && "true" == ['t', 'r', 'u', 'e'] && "false" == ['f', 'a', 'l', 's', 'e'];
    assert |s| >= 4 && s[0] == s[..4][0];
    if t.FalseTree? {
      assert s[..5] == "false" && s[5..] == rest;
    } else {
      assert s[4..] == rest;
    }
  }

  lemma ReadNumberTree(n: Numeral, rest: Bytes)
    requires ValidNumeral(n) && Stops(rest)
    ensures ParseValue(PrintNumeral(n, rest)) == Some((Number, rest))
  {
    ReadNumeral(n, rest);
    UnsignedNumeral(n, rest);
    NotAWord(PrintNumeral(n, rest));
  }

  lemma NotAWord(s: Bytes)
    requires s != [] && (s[0] == '-' || IsDigit(s[0]))
    ensures !StartsWith(s, "null") && !StartsWith(s, "true") && !StartsWith(s, "false")
  {
    assert "null"[0] == 'n' && "true"[0] == 't' && "false"[0] == 'f';
    if |s| >= 4 { assert s[..4][0] == s[0]; }
    if |s| >= 5 { assert s[..5][0] == s[0]; }
  }

  lemma ReadTextTree(chars: Chars, rest: Bytes)
    requires ValidChars(chars)
    ensures ParseValue(['"'] + PrintChars(chars, rest)) == Some((Text(CharsMean(chars)), rest))
  {
    ReadChars(chars, rest);
    assert (['"'] + PrintChars(chars, rest))[1..] == PrintChars(chars, rest);
  }

  lemma ReadEmpty(blank: Bytes, open: Byte, close: Byte, rest: Bytes)
    requires Blank(blank) && ((open == '[' && close == ']') || (open == '{' && close == '}'))
    ensures ParseValue([open] + (blank + ([close] + rest))) == Some((if open == '[' then Array else Object([]), rest))
  {
    var s := [open] + (blank + ([close] + rest));
    assert s[1..] == blank + ([close] + rest);
    BlankStops(blank, [close] + rest);
    assert ([close] + rest)[1..] == rest;
  }

  lemma ReadArrayTree(blank: Bytes, inside: Bytes, rest: Bytes)
    requires Blank(blank) && inside != [] && Opens(inside[0]) && ParseElements(inside) == Some(rest)
    ensures ParseValue(['['] + (blank + inside)) == Some((Array, rest))
  {
    assert (['['] + (blank + inside))[1..] == blank + inside;
    SkipBlank(blank, inside);
  }

  lemma ReadObjectTree(blank: Bytes, inside: Bytes, members: seq<(Bytes, Value)>, rest: Bytes)
    requires Blank(blank) && inside != [] && inside[0] == '"' && ParseMembers(inside) == Some((members, rest))
    ensures ParseValue(['{'] + (blank + inside)) == Some((Object(members), rest))
  {
    assert (['{'] + (blank + inside))[1..] == blank + inside;
    SkipBlank(blank, inside);
  }

  /** An element and what follows it. */
  lemma ElementParts(s: Bytes, value: Value, afterValue: Bytes, tail: Bytes)
    requires ParseValue(s) == Some((value, afterValue)) && SkipSpace(afterValue) == tail && tail != []
    ensures tail[0] == ']' ==> ParseElements(s) == Some(tail[1..])
    ensures tail[0] == ',' ==> ParseElements(s) == ParseElements(SkipSpace(tail[1..]))
  {
  }

  function WithMember(
      key: Bytes, value: Value, more: Option<(seq<(Bytes, Value)>, Bytes)>): Option<(seq<(Bytes, Value)>, Bytes)>
  {
    match more
    case None => None
    case Some((members, rest)) => Some(([(key, value)] + members, rest))
  }

  /** A member and what follows it. */
  lemma MemberParts(
      s: Bytes, key: Bytes, afterKey: Bytes, afterColon: Bytes, text: Bytes, value: Value, afterValue: Bytes,
      tail: Bytes)
    requires s != [] && s[0] == '"' && ParseString(s[1..]) == Some((key, afterKey))
    requires SkipSpace(afterKey) == [':'] + afterColon && SkipSpace(afterColon) == text
    requires ParseValue(text) == Some((value, afterValue)) && SkipSpace(afterValue) == tail && tail != []
    ensures tail[0] == '}' ==> ParseMembers(s) == Some(([(key, value)], tail[1..]))
    ensures tail[0] == ',' ==> ParseMembers(s) == WithMember(key, value, ParseMembers(SkipSpace(tail[1..])))
  {
    assert ([':'] + afterColon)[1..] == afterColon;
  }

  /** What an object prints from a key to what follows its value. */
  function MemberText(key: Chars, colon: Bytes, before: Bytes, text: Bytes): Bytes {
    ['"'] + PrintChars(key, colon + ([':'] + (before + text)))
  }

  lemma ReadMemberFront(
      key: Chars, colon: Bytes, before: Bytes, text: Bytes, value: Value, afterValue: Bytes, tail: Bytes)
    requires ValidChars(key) && Blank(colon) && Blank(before) && text != [] && Opens(text[0])
    requires ParseValue(text) == Some((value, afterValue)) && SkipSpace(afterValue) == tail && tail != []
    ensures var s := MemberText(key, colon, before, text);
      && (tail[0] == '}' ==> ParseMembers(s) == Some(([(CharsMean(key), value)], tail[1..])))
      && (tail[0] == ',' ==> ParseMembers(s) == WithMember(CharsMean(key), value, ParseMembers(SkipSpace(tail[1..]))))
  {
    var afterKey := colon + ([':'] + (before + text));
    var s := ['"'] + PrintChars(key, afterKey);
    assert s[1..] == PrintChars(key, afterKey);
    ReadChars(key, afterKey);
    SkipBlank(colon, [':'] + (before + text));
    SkipBlank(before, text);
    MemberParts(s, CharsMean(key), afterKey, before + text, text, value, afterValue, tail);
  }

  lemma {:induction false} ReadTree(t: Tree, rest: Bytes)
    requires ValidTree(t) && Stops(rest)
    ensures ParseValue(Print(t, rest)) == Some((Mean(t), rest))
    decreases t
  {
    match t
    case NullTree => ReadWord(t, rest);
    case TrueTree => ReadWord(t, rest);
    case FalseTree => ReadWord(t, rest);
    case NumberTree(number) => ReadNumberTree(number, rest);
    case TextTree(chars) => ReadTextTree(chars, rest);
    case EmptyArray(blank) => ReadEmpty(blank, '[', ']', rest);
    case EmptyObject(blank) => ReadEmpty(blank, '{', '}', rest);
    case ArrayTree(blank, items) =>
      ReadItems(items, rest);
      ItemsOpen(items, rest);
      ReadArrayTree(blank, PrintItems(items, rest), rest);
    case ObjectTree(blank, members) =>
      ReadMembers(members, rest);
      MembersOpen(members, rest);
      ReadObjectTree(blank, PrintMembers(members, rest), MembersMean(members), rest);
  }

  lemma {:induction false} ReadItems(items: Items, rest: Bytes)
    requires ValidItems(items)
    ensures ParseElements(PrintItems(items, rest)) == Some(rest)
    decreases items
  {
    match items
    case LastItem(item, after) =>
      var tail: Bytes := [']'] + rest;
      BlankStops(after, tail);
      ReadTree(item, after + tail);
      assert tail[1..] == rest;
      ElementParts(Print(item, after + tail), Mean(item), after + tail, tail);
    case Item(item, after, blank, more) =>
      var next := PrintItems(more, rest);
      var tail: Bytes := [','] + (blank + next);
      BlankStops(after, tail);
      ReadTree(item, after + tail);
      assert tail[1..] == blank + next;
      ElementParts(Print(item, after + tail), Mean(item), after + tail, tail);
      ItemsOpen(more, rest);
      SkipBlank(blank, next);
      ReadItems(more, rest);
  }

  lemma {:induction false} ReadMembers(members: Members, rest: Bytes)
    requires ValidMembers(members)
    ensures ParseMembers(PrintMembers(members, rest)) == Some((MembersMean(members), rest))
    decreases members
  {
    match members
    case LastMember(key, colon, before, value, after) =>
      var tail: Bytes := ['}'] + rest;
      BlankStops(after, tail);
      ReadTree(value, after + tail);
      TreeOpens(value, after + tail);
      ReadMemberFront(key, colon, before, Print(value, after + tail), Mean(value), after + tail, tail);
      assert tail[1..] == rest;
    case Member(key, colon, before, value, after, blank, more) =>
      var next := PrintMembers(more, rest);
      var tail: Bytes := [','] + (blank + next);
      BlankStops(after, tail);
      ReadTree(value, after + tail);
      TreeOpens(value, after + tail);
      ReadMemberFront(key, colon, before, Print(value, after + tail), Mean(value), after + tail, tail);
      MembersOpen(more, rest);
      assert tail[1..] == blank + next;
      SkipBlank(blank, next);
      ReadMembers(more, rest);
  }

  // ---- Values: from the parser to the tree ----

  lemma ShortOf(s: Bytes)
    requires |s| >= 2 && s[0] == '\\' && s[1] != 'u' && Unescape(s).Some?
    ensures ShortMeaning(s[1]).Some? && Unescape(s).value.1 == 2
  {
  }

  lemma UnitOf(s: Bytes) returns (hex: Bytes)
    requires |s| >= 2 && s[0] == '\\' && s[1] == 'u' && Unescape(s).Some?
    ensures |hex| == 4 && Hex4(hex).Some? && |s| >= 6 && s == ['\\', 'u'] + hex + s[6..]
  {
    hex := s[2..6];
    assert s[2..] == hex + s[6..];
    Hex4Local(hex, s[6..]);
  }

  /** A surrogate pair takes the escape of the second unit along. */
  lemma PairOf(s: Bytes, hex: Bytes) returns (low: Bytes)
    requires |hex| == 4 && Hex4(hex).Some? && HighSurrogate(Hex4(hex).value) && StartsLow(s)
    ensures |low| == 4 && Hex4(low).Some? && LowSurrogate(Hex4(low).value) && s == ['\\', 'u'] + low + s[6..]
  {
    low := s[2..6];
    assert s[2..] == low + s[6..];
    Hex4Local(low, s[6..]);
  }

  /** A rune or a malformed byte starts a run, or joins the run after it. */
  lemma JoinRun(front: Bytes, rest: Bytes, more: Chars) returns (chars: Chars)
    requires front != [] && (forall c | c in front :: Plain(c)) && ValidChars(more)
    ensures ValidChars(chars) && PrintChars(chars, rest) == front + PrintChars(more, rest)
  {
    if more.Run? {
      chars := Run(front + more.bytes, more.rest);
      Regroup(front, more.bytes, PrintChars(more.rest, rest));
    } else {
      chars := Run(front, more);
    }
  }

  lemma FrontIsPlain(s: Bytes)
    requires s != [] && Plain(s[0])
    ensures forall c | c in s[..Width(s)] :: Plain(c)
  {
  }

  /** The parser takes one front off a string. */
  lemma StringStep(s: Bytes, rest: Bytes) returns (n: nat)
    requires ParseString(s).Some? && ParseString(s).value.1 == rest && s[0] != '"'
    ensures s != [] && 0 < n <= |s| && ParseString(s[n..]).Some? && ParseString(s[n..]).value.1 == rest
    ensures FrontTakes(s, n)
  {
    n := if s[0] == '\\' then Unescape(s).value.1 else Width(s);
  }

  predicate FrontTakes(s: Bytes, n: nat)
    requires s != []
  {
    if s[0] == '\\' then Unescape(s).Some? && n == Unescape(s).value.1 else Plain(s[0]) && n == Width(s)
  }

  lemma GrowUnit(s: Bytes, n: nat, rest: Bytes, more: Chars) returns (chars: Chars)
    requires |s| >= 2 && s[0] == '\\' && s[1] == 'u' && FrontTakes(s, n) && n <= |s|
    requires ValidChars(more) && s[n..] == PrintChars(more, rest)
    ensures ValidChars(chars) && s == PrintChars(chars, rest)
  {
    var hex := UnitOf(s);
    UnescapeUnit(hex, s[6..]);
    if HighSurrogate(Hex4(hex).value) && StartsLow(s[6..]) {
      var low := PairOf(s[6..], hex);
      assert s[6..][6..] == s[12..];
      assert ValidChars(Unit(low, more)) && s[6..] == PrintChars(Unit(low, more), rest);
      chars := Unit(hex, Unit(low, more));
    } else {
      chars := Unit(hex, more);
    }
  }

  lemma Grow(s: Bytes, n: nat, rest: Bytes, more: Chars) returns (chars: Chars)
    requires s != [] && s[0] != '"' && FrontTakes(s, n) && n <= |s|
    requires ValidChars(more) && s[n..] == PrintChars(more, rest)
    ensures ValidChars(chars) && s == PrintChars(chars, rest)
  {
    if s[0] != '\\' {
      FrontIsPlain(s);
      chars := JoinRun(s[..n], rest, more);
      assert s == s[..n] + s[n..];
    } else if s[1] != 'u' {
      ShortOf(s);
      chars := Short(s[1], more);
      assert s == ['\\', s[1]] + s[2..];
    } else {
      chars := GrowUnit(s, n, rest, more);
    }
  }

  lemma {:induction false} SpellingOf(s: Bytes, rest: Bytes) returns (chars: Chars)
    requires ParseString(s).Some? && ParseString(s).value.1 == rest
    ensures ValidChars(chars) && s == PrintChars(chars, rest)
    decreases |s|
  {
    if s[0] == '"' {
      chars := Quote;
      assert s == ['"'] + s[1..];
    } else {
      var n := StringStep(s, rest);
      var more := SpellingOf(s[n..], rest);
      chars := Grow(s, n, rest, more);
    }
  }

  lemma CharsOf(s: Bytes, text: Bytes, rest: Bytes) returns (chars: Chars)
    requires ParseString(s) == Some((text, rest))
    ensures ValidChars(chars) && s == PrintChars(chars, rest) && CharsMean(chars) == text
  {
    chars := SpellingOf(s, rest);
    ReadChars(chars, rest);
  }

  ghost predicate WritesTree(t: Tree, s: Bytes, value: Value, rest: Bytes) {
    ValidTree(t) && s == Print(t, rest) && Mean(t) == value
  }

  lemma WordOf(s: Bytes, value: Value, rest: Bytes) returns (t: Tree)
    requires ParseValue(s) == Some((value, rest)) && s[0] != '"' && s[0] != '{' && s[0] != '['
    ensures WritesTree(t, s, value, rest)
  {
    assert "null" == ['n', 'u', 'l', 'l'] && "true" == ['t', 'r', 'u', 'e'] && "false" == ['f', 'a', 'l', 's', 'e'];
    if StartsWith(s, "null") {
      t := NullTree;
      assert s == s[..4] + s[4..];
    } else if StartsWith(s, "true") {
      t := TrueTree;
      assert s == s[..4] + s[4..];
    } else if StartsWith(s, "false") {
      t := FalseTree;
      assert s == s[..5] + s[5..];
    } else {
      var n := NumeralOf(s, rest);
      t := NumberTree(n);
    }
  }

  lemma BracketOf(s: Bytes) returns (blank: Bytes)
    requires s != []
    ensures Blank(blank) && s == [s[0]] + (blank + SkipSpace(s[1..]))
  {
    blank := BlankOf(s[1..]);
    assert s == [s[0]] + s[1..];
  }

  lemma ObjectParts(s: Bytes, value: Value, rest: Bytes)
    requires ParseValue(s) == Some((value, rest)) && s[0] == '{'
    ensures value.Object?
    ensures var inside := SkipSpace(s[1..]);
      || (inside == ['}'] + rest && value == Object([]))
      || ParseMembers(inside) == Some((value.members, rest))
  {
    var inside := SkipSpace(s[1..]);
    if inside != [] { assert inside == [inside[0]] + inside[1..]; }
  }

  lemma ArrayParts(s: Bytes, value: Value, rest: Bytes)
    requires ParseValue(s) == Some((value, rest)) && s[0] == '['
    ensures value == Array
    ensures var inside := SkipSpace(s[1..]); inside == [']'] + rest || ParseElements(inside) == Some(rest)
  {
    var inside := SkipSpace(s[1..]);
    if inside != [] { assert inside == [inside[0]] + inside[1..]; }
  }

  lemma {:induction false} TreeOf(s: Bytes, value: Value, rest: Bytes) returns (t: Tree)
    requires ParseValue(s) == Some((value, rest))
    ensures WritesTree(t, s, value, rest)
    decreases |s|, 1
  {
    if s[0] == '"' {
      var chars := CharsOf(s[1..], value.bytes, rest);
      t := TextTree(chars);
      assert s == ['"'] + s[1..];
    } else if s[0] == '{' {
      ObjectParts(s, value, rest);
      t := ObjectOf(s, value.members, rest);
    } else if s[0] == '[' {
      ArrayParts(s, value, rest);
      t := ArrayOf(s, rest);
    } else {
      t := WordOf(s, value, rest);
    }
  }

  lemma WritesObject(s: Bytes, blank: Bytes, members: Members, read: seq<(Bytes, Value)>, rest: Bytes)
    requires Blank(blank) && ValidMembers(members) && MembersMean(members) == read
    requires s == ['{'] + (blank + PrintMembers(members, rest))
    ensures WritesTree(ObjectTree(blank, members), s, Object(read), rest)
  {
  }

  lemma WritesEmptyObject(s: Bytes, blank: Bytes, rest: Bytes)
    requires Blank(blank) && s == ['{'] + (blank + (['}'] + rest))
    ensures WritesTree(EmptyObject(blank), s, Object([]), rest)
  {
  }

  lemma {:induction false} ObjectOf(s: Bytes, read: seq<(Bytes, Value)>, rest: Bytes) returns (t: Tree)
    requires s != [] && s[0] == '{'
    requires var inside := SkipSpace(s[1..]);
      (inside == ['}'] + rest && read == []) || ParseMembers(inside) == Some((read, rest))
    ensures WritesTree(t, s, Object(read), rest)
    decreases |s|, 0
  {
    var blank := BracketOf(s);
    var inside := SkipSpace(s[1..]);
    if inside == ['}'] + rest && read == [] {
      t := EmptyObject(blank);
      WritesEmptyObject(s, blank, rest);
    } else {
      var members := MembersOf(inside, read, rest);
      t := ObjectTree(blank, members);
      WritesObject(s, blank, members, read, rest);
    }
  }

  lemma {:induction false} ArrayOf(s: Bytes, rest: Bytes) returns (t: Tree)
    requires s != [] && s[0] == '['
    requires var inside := SkipSpace(s[1..]); inside == [']'] + rest || ParseElements(inside) == Some(rest)
    ensures WritesTree(t, s, Array, rest)
    decreases |s|, 0
  {
    var blank := BracketOf(s);
    var inside := SkipSpace(s[1..]);
    if inside == [']'] + rest {
      t := EmptyArray(blank);
    } else {
      var items := ItemsOf(inside, rest);
      t := ArrayTree(blank, items);
    }
  }

  lemma {:induction false} ItemsOf(s: Bytes, rest: Bytes) returns (items: Items)
    requires ParseElements(s) == Some(rest)
    ensures ValidItems(items) && s == PrintItems(items, rest)
    decreases |s|, 2
  {
    var (value, afterValue) := ParseValue(s).value;
    var item := TreeOf(s, value, afterValue);
    var after := BlankOf(afterValue);
    var tail := SkipSpace(afterValue);
    assert tail == [tail[0]] + tail[1..];
    if tail[0] == ']' {
      items := LastItem(item, after);
    } else {
      var blank := BlankOf(tail[1..]);
      var more := ItemsOf(SkipSpace(tail[1..]), rest);
      items := Item(item, after, blank, more);
    }
  }

  /** What the parser finds at the front of the members of an object. */
  lemma MemberPartsOf(s: Bytes, read: seq<(Bytes, Value)>, rest: Bytes)
    returns (name: Bytes, afterKey: Bytes, value: Value, afterValue: Bytes, tail: Bytes)
    requires ParseMembers(s) == Some((read, rest))
    ensures s != [] && s[0] == '"' && ParseString(s[1..]) == Some((name, afterKey))
    ensures var t := SkipSpace(afterKey);
      t != [] && t[0] == ':' && ParseValue(SkipSpace(t[1..])) == Some((value, afterValue))
    ensures tail == SkipSpace(afterValue) && tail != [] && read != [] && read[0] == (name, value)
    ensures
      || (tail[0] == '}' && rest == tail[1..] && |read| == 1)
      || (tail[0] == ',' && ParseMembers(SkipSpace(tail[1..])) == Some((read[1..], rest)))
  {
    name, afterKey := ParseString(s[1..]).value.0, ParseString(s[1..]).value.1;
    var found := ParseValue(SkipSpace(SkipSpace(afterKey)[1..])).value;
    value, afterValue := found.0, found.1;
    tail := SkipSpace(afterValue);
  }

  lemma KeyIsWritten(s: Bytes, key: Chars, afterKey: Bytes, colon: Bytes, before: Bytes, text: Bytes)
    requires s != [] && s[0] == '"' && s[1..] == PrintChars(key, afterKey)
    requires afterKey == colon + ([':'] + (before + text))
    ensures s == MemberText(key, colon, before, text)
  {
    assert s == ['"'] + s[1..];
  }

  lemma KeyOfMember(s: Bytes, name: Bytes, afterKey: Bytes) returns (key: Chars, colon: Bytes, before: Bytes)
    requires s != [] && s[0] == '"' && ParseString(s[1..]) == Some((name, afterKey))
    requires SkipSpace(afterKey) != [] && SkipSpace(afterKey)[0] == ':'
    ensures ValidChars(key) && CharsMean(key) == name && Blank(colon) && Blank(before)
    ensures s == MemberText(key, colon, before, SkipSpace(SkipSpace(afterKey)[1..]))
  {
    key := CharsOf(s[1..], name, afterKey);
    colon := BlankOf(afterKey);
    var t := SkipSpace(afterKey);
    before := BlankOf(t[1..]);
    assert t == [':'] + t[1..];
    KeyIsWritten(s, key, afterKey, colon, before, SkipSpace(t[1..]));
  }

  lemma {:induction false} MembersOf(s: Bytes, read: seq<(Bytes, Value)>, rest: Bytes) returns (members: Members)
    requires ParseMembers(s) == Some((read, rest))
    ensures ValidMembers(members) && s == PrintMembers(members, rest) && MembersMean(members) == read
    decreases |s|, 2
  {
    var name, afterKey, value, afterValue, tail := MemberPartsOf(s, read, rest);
    var key, colon, before := KeyOfMember(s, name, afterKey);
    var tree := TreeOf(SkipSpace(SkipSpace(afterKey)[1..]), value, afterValue);
    var after := BlankOf(afterValue);
    assert tail == [tail[0]] + tail[1..];
    if tail[0] == '}' {
      members := LastMember(key, colon, before, tree, after);
    } else {
      var blank := BlankOf(tail[1..]);
      var more := MembersOf(SkipSpace(tail[1..]), read[1..], rest);
      members := Member(key, colon, before, tree, after, blank, more);
      assert read == [read[0]] + read[1..];
    }
  }

  /** The parser accepts a text as a value if and only if the grammar derives it with that meaning. */
  lemma ParsesExactlyTheGrammar(raw: Bytes, v: Value)
    ensures ParseText(raw) == Some(v) <==> IsText(raw, v)
  {
    if ParseText(raw) == Some(v) {
      var before := BlankOf(raw);
      var s := SkipSpace(raw);
      var rest := ParseValue(s).value.1;
      var tree := TreeOf(s, v, rest);
      var after := BlankOf(rest);
      assert after + [] == after;
      assert Document(raw, before, tree, rest);
    }
    if before, tree, after :| Document(raw, before, tree, after) && Mean(tree) == v {
      BlankEnds(after);
      TreeOpens(tree, after);
      SkipBlank(before, Print(tree, after));
      ReadTree(tree, after);
    }
  }

  lemma BlankEnds(blank: Bytes)
    requires Blank(blank)
    ensures Stops(blank) && SkipSpace(blank) == []
  {
    if blank != [] { assert blank[0] in blank; }
    SkipBlank(blank, []);
    assert blank + [] == blank;
  }
}
