/** Base64 with the standard alphabet and padding (section 4 of RFC 4648), decoded as leniently as the Go
    library does: carriage returns and line feeds are skipped and unused trailing bits are ignored. */
module Base64 {
  import opened Wrappers
  import opened Slugs

  function Symbol(i: nat): Byte
    requires i < 64
  {
    if i < 26 then ('A' as int + i) as char
    else if i < 52 then ('a' as int + i - 26) as char
    else if i < 62 then ('0' as int + i - 52) as char
    else if i == 62 then '+' else '/'
  }

  function Value(c: Byte): (v: Option<nat>)
    ensures v.Some? ==> v.value < 64 && c != PAD
  {
    if 'A' <= c <= 'Z' then Some(c as int - 'A' as int)
    else if 'a' <= c <= 'z' then Some(c as int - 'a' as int + 26)
    else if '0' <= c <= '9' then Some(c as int - '0' as int + 52)
    else if c == '+' then Some(62)
    else if c == '/' then Some(63)
    else None
  }

  const PAD: Byte := '='

  /** Three bytes in four symbols. */
  function Group(a: nat, b: nat, c: nat): Bytes
    requires a < 256 && b < 256 && c < 256
  {
    [Symbol(a / 4), Symbol(a % 4 * 16 + b / 16), Symbol(b % 16 * 4 + c / 64), Symbol(c % 64)]
  }

  /** The last one or two bytes, padded. */
  function EncodeTail(bytes: Bytes): Bytes
    requires |bytes| < 3
  {
    if bytes == [] then []
    else
      var a := bytes[0] as int;
      if |bytes| == 1 then [Symbol(a / 4), Symbol(a % 4 * 16), PAD, PAD]
      else
        var b := bytes[1] as int;
        [Symbol(a / 4), Symbol(a % 4 * 16 + b / 16), Symbol(b % 16 * 4), PAD]
  }

  function Encode(bytes: Bytes): Bytes
    decreases |bytes|
  {
    if |bytes| < 3 then EncodeTail(bytes)
    else Group(bytes[0] as int, bytes[1] as int, bytes[2] as int) + Encode(bytes[3..])
  }

  predicate IsNewline(c: Byte) { c == '\n' || c == '\r' }

  function SkipNewlines(text: Bytes): Bytes {
    if text == [] then []
    else (if IsNewline(text[0]) then [] else [text[0]]) + SkipNewlines(text[1..])
  }

  function AsByte(n: nat): Byte
    requires n < 256
  {
    n as char
  }

  /** Groups of four symbols; padding only at the very end. */
  function DecodeGroups(text: Bytes): Option<Bytes>
    decreases |text|
  {
    if text == [] then Some([])
    else if |text| < 4 || Value(text[0]).None? || Value(text[1]).None? then None
    else
      var p, q := Value(text[0]).value, Value(text[1]).value;
      var first := AsByte(p * 4 + q / 16);
      if text[2] == PAD && text[3] == PAD && |text| == 4 then Some([first])
      else if Value(text[2]).None? then None
      else
        var r := Value(text[2]).value;
        var second := AsByte(q % 16 * 16 + r / 4);
        if text[3] == PAD && |text| == 4 then Some([first, second])
        else if Value(text[3]).None? then None
        else
          var third := AsByte(r % 4 * 64 + Value(text[3]).value);
          match DecodeGroups(text[4..])
          case None => None
          case Some(rest) => Some([first, second, third] + rest)
  }

  function Decode(text: Bytes): Option<Bytes> { DecodeGroups(SkipNewlines(text)) }

  lemma SymbolValue(i: nat)
    requires i < 64
    ensures Value(Symbol(i)) == Some(i) && Symbol(i) != PAD && !IsNewline(Symbol(i))
  {
  }

  lemma {:induction false} NoNewlines(bytes: Bytes)
    ensures SkipNewlines(Encode(bytes)) == Encode(bytes)
    decreases |bytes|
  {
    forall i: nat | i < 64 ensures !IsNewline(Symbol(i)) { SymbolValue(i); }
    if |bytes| >= 3 {
      NoNewlines(bytes[3..]);
      assert Encode(bytes)[4..] == Encode(bytes[3..]);
      KeepsFour(Encode(bytes));
    } else if bytes != [] {
      assert Encode(bytes)[4..] == [];
      KeepsFour(Encode(bytes));
    }
  }

  lemma KeepsFour(text: Bytes)
    requires |text| >= 4 && (forall i | 0 <= i < 4 :: !IsNewline(text[i])) && SkipNewlines(text[4..]) == text[4..]
    ensures SkipNewlines(text) == text
  {
    assert text[1..][1..][1..][1..] == text[4..];
    assert SkipNewlines(text[3..]) == text[3..] by { assert text[3..][1..] == text[4..]; }
    assert SkipNewlines(text[2..]) == text[2..] by { assert text[2..][1..] == text[3..]; }
    assert SkipNewlines(text[1..]) == text[1..] by { assert text[1..][1..] == text[2..]; }
  }

  /** Six bits of a, then two of a and four of b; four of b and two of c; six of c. */
  lemma SplitBits(a: nat, b: nat)
    requires a < 256 && b < 256
    ensures var q := a % 4 * 16 + b / 16; q < 64 && q / 16 == a % 4 && q % 16 == b / 16
    ensures var r := a % 16 * 4 + b / 64; r < 64 && r / 4 == a % 16 && r % 4 == b / 64
  {
  }

  /** The symbol values of three bytes, and how they give the bytes back. */
  lemma SymbolsOfThree(a: nat, b: nat, c: nat) returns (p: nat, q: nat, r: nat, t: nat)
    requires a < 256 && b < 256 && c < 256
    ensures p == a / 4 && q == a % 4 * 16 + b / 16 && r == b % 16 * 4 + c / 64 && t == c % 64
    ensures p < 64 && q < 64 && r < 64 && t < 64
    ensures p * 4 + q / 16 == a && q % 16 * 16 + r / 4 == b && r % 4 * 64 + t == c
  {
    SplitBits(a, b);
    SplitBits(b, c);
    p, q, r, t := a / 4, a % 4 * 16 + b / 16, b % 16 * 4 + c / 64, c % 64;
  }

  lemma ReadOne(text: Bytes, p: nat, q: nat, x: Byte)
    requires |text| == 4 && Value(text[0]) == Some(p) && Value(text[1]) == Some(q) && text[2] == PAD && text[3] == PAD
    requires p * 4 + q / 16 == x as int
    ensures DecodeGroups(text) == Some([x])
  {
  }

  lemma DecodeOne(x: Byte)
    ensures DecodeGroups(Encode([x])) == Some([x])
  {
    var p, q, _, _ := SymbolsOfThree(x as int, 0, 0);
    SymbolValue(p);
    SymbolValue(q);
    ReadOne([Symbol(p), Symbol(q), PAD, PAD], p, q, x);
  }

  lemma ReadTwo(text: Bytes, p: nat, q: nat, r: nat, x: Byte, y: Byte)
    requires |text| == 4 && Value(text[0]) == Some(p) && Value(text[1]) == Some(q)
    requires Value(text[2]) == Some(r) && text[3] == PAD
    requires p * 4 + q / 16 == x as int && q % 16 * 16 + r / 4 == y as int
    ensures DecodeGroups(text) == Some([x, y])
  {
  }

  lemma DecodeTwo(x: Byte, y: Byte)
    ensures DecodeGroups(Encode([x, y])) == Some([x, y])
  {
    var p, q, r, _ := SymbolsOfThree(x as int, y as int, 0);
    SymbolValue(p);
    SymbolValue(q);
    SymbolValue(r);
    ReadTwo([Symbol(p), Symbol(q), Symbol(r), PAD], p, q, r, x, y);
  }

  lemma ReadThree(text: Bytes, rest: Bytes, p: nat, q: nat, r: nat, t: nat, x: Byte, y: Byte, z: Byte)
    requires |text| >= 4 && Value(text[0]) == Some(p) && Value(text[1]) == Some(q)
    requires Value(text[2]) == Some(r) && Value(text[3]) == Some(t) && DecodeGroups(text[4..]) == Some(rest)
    requires p * 4 + q / 16 == x as int && q % 16 * 16 + r / 4 == y as int && r % 4 * 64 + t == z as int
    ensures DecodeGroups(text) == Some([x, y, z] + rest)
  {
  }

  lemma DecodeThree(x: Byte, y: Byte, z: Byte, tail: Bytes, rest: Bytes)
    requires DecodeGroups(tail) == Some(rest)
    ensures DecodeGroups(Group(x as int, y as int, z as int) + tail) == Some([x, y, z] + rest)
  {
    var p, q, r, t := SymbolsOfThree(x as int, y as int, z as int);
    SymbolValue(p);
    SymbolValue(q);
    SymbolValue(r);
    SymbolValue(t);
    var text := [Symbol(p), Symbol(q), Symbol(r), Symbol(t)] + tail;
    assert text[4..] == tail;
    ReadThree(text, rest, p, q, r, t, x, y, z);
  }

  lemma DecodeShort(bytes: Bytes)
    requires 0 < |bytes| < 3
    ensures DecodeGroups(Encode(bytes)) == Some(bytes)
  {
    if |bytes| == 1 {
      assert bytes == [bytes[0]];
      DecodeOne(bytes[0]);
    } else {
      assert bytes == [bytes[0], bytes[1]];
      DecodeTwo(bytes[0], bytes[1]);
    }
  }

  lemma DecodeLong(bytes: Bytes, tail: Bytes)
    requires |bytes| >= 3 && DecodeGroups(tail) == Some(bytes[3..])
    ensures DecodeGroups(Group(bytes[0] as int, bytes[1] as int, bytes[2] as int) + tail) == Some(bytes)
  {
    assert bytes == [bytes[0], bytes[1], bytes[2]] + bytes[3..];
    DecodeThree(bytes[0], bytes[1], bytes[2], tail, bytes[3..]);
  }

  lemma {:induction false} DecodeEncodeGroups(bytes: Bytes) returns (text: Bytes)
    ensures text == Encode(bytes) && DecodeGroups(text) == Some(bytes)
    decreases |bytes|
  {
    text := Encode(bytes);
    if 0 < |bytes| < 3 {
      DecodeShort(bytes);
    } else if bytes != [] {
      var tail := DecodeEncodeGroups(bytes[3..]);
      DecodeLong(bytes, tail);
      text := Group(bytes[0] as int, bytes[1] as int, bytes[2] as int) + tail;
    }
  }

  /** Decoding undoes encoding on every byte string. */
  lemma DecodeEncode(bytes: Bytes)
    ensures Decode(Encode(bytes)) == Some(bytes)
  {
    NoNewlines(bytes);
    var _ := DecodeEncodeGroups(bytes);
  }

  // ---- What is accepted ----

  /** Table 1 of RFC 4648. */
  const UPPER: Bytes := "ABCDEFGHIJKLMNOPQRSTUVWXYZ"
  const LOWER: Bytes := "abcdefghijklmnopqrstuvwxyz"
  const DIGITS: Bytes := "0123456789"
  const ALPHABET: Bytes := UPPER + LOWER + DIGITS + ['+', '/']

  lemma RowsOfTheTable()
    ensures |UPPER| == 26 && forall i | 0 <= i < 26 :: UPPER[i] as int == 'A' as int + i
    ensures |LOWER| == 26 && forall i | 0 <= i < 26 :: LOWER[i] as int == 'a' as int + i
    ensures |DIGITS| == 10 && forall i | 0 <= i < 10 :: DIGITS[i] as int == '0' as int + i
  {
    assert UPPER == ['A', 'B', 'C', 'D', 'E', 'F', 'G', 'H', 'I', 'J', 'K', 'L', 'M', 'N', 'O', 'P', 'Q', 'R', 'S', 'T',
                     'U', 'V', 'W', 'X', 'Y', 'Z'];
    assert LOWER == ['a', 'b', 'c', 'd', 'e', 'f', 'g', 'h', 'i', 'j', 'k', 'l', 'm', 'n', 'o', 'p', 'q', 'r', 's', 't',
                     'u', 'v', 'w', 'x', 'y', 'z'];
    assert DIGITS == ['0', '1', '2', '3', '4', '5', '6', '7', '8', '9'];
  }

  /** Symbols are written and read by the table. */
  lemma SymbolsAreTheTable(c: Byte, i: nat)
    ensures |ALPHABET| == 64
    ensures i < 64 ==> Symbol(i) == ALPHABET[i]
    ensures Value(c) == Some(i) <==> i < 64 && ALPHABET[i] == c
  {
    RowsOfTheTable();
    if i < 64 { TableAt(i); }
  }

  lemma TableAt(i: nat)
    requires i < 64
    ensures |ALPHABET| == 64 && ALPHABET[i] == Symbol(i)
  {
    RowsOfTheTable();
    assert ALPHABET[i] ==
      if i < 26 then UPPER[i]
      else if i < 52 then LOWER[i - 26]
      else if i < 62 then DIGITS[i - 52]
      else ['+', '/'][i - 62];
  }

  function Padding(t: Bytes): nat {
    if t == [] || t[|t| - 1] != PAD then 0 else if |t| == 1 || t[|t| - 2] != PAD then 1 else 2
  }

  /** Four symbols give three bytes: six and two bits, four and four, two and six; padding cuts the last ones off. */
  predicate GroupSpells(t: Bytes, j: nat, bytes: Bytes)
    requires 4 * j + 4 <= |t|
    requires |t| % 4 == 0 && |bytes| == |t| / 4 * 3 - Padding(t)
    requires forall i | 0 <= i < |t| - Padding(t) :: Value(t[i]).Some?
  {
    var p, q := Value(t[4 * j]).value, Value(t[4 * j + 1]).value;
    && bytes[3 * j] as int == p * 4 + q / 16
    && (3 * j + 1 < |bytes| ==> bytes[3 * j + 1] as int == q % 16 * 16 + Value(t[4 * j + 2]).value / 4)
    && (3 * j + 2 < |bytes| ==>
          bytes[3 * j + 2] as int == Value(t[4 * j + 2]).value % 4 * 64 + Value(t[4 * j + 3]).value)
  }

  /** The text is base64 of the bytes: whole groups of four, symbols of the table and at the very end up to two
      padding characters. */
  predicate Spells(t: Bytes, bytes: Bytes) {
    && |t| % 4 == 0
    && (forall i | 0 <= i < |t| - Padding(t) :: Value(t[i]).Some?)
    && |bytes| == |t| / 4 * 3 - Padding(t)
    && forall j | 0 <= j < |t| / 4 :: GroupSpells(t, j, bytes)
  }

  lemma PaddingOfTail(t: Bytes)
    requires |t| >= 8
    ensures Padding(t[4..]) == Padding(t)
  {
  }

  lemma GroupOfTail(t: Bytes, j: nat, bytes: Bytes)
    requires |t| >= 8 && |t| % 4 == 0 && 1 <= j < |t| / 4 && |bytes| == |t| / 4 * 3 - Padding(t)
    requires forall i | 0 <= i < |t| - Padding(t) :: Value(t[i]).Some?
    ensures |t[4..]| % 4 == 0 && |bytes| >= 3 && |bytes[3..]| == |t[4..]| / 4 * 3 - Padding(t[4..])
    ensures forall i | 0 <= i < |t[4..]| - Padding(t[4..]) :: Value(t[4..][i]).Some?
    ensures GroupSpells(t, j, bytes) <==> GroupSpells(t[4..], j - 1, bytes[3..])
  {
    PaddingOfTail(t);
    var u, b := t[4..], bytes[3..];
    forall i | 0 <= i < |u| - Padding(u) ensures Value(u[i]).Some? { assert u[i] == t[i + 4]; }
    assert u[4 * (j - 1)] == t[4 * j] && u[4 * (j - 1) + 1] == t[4 * j + 1];
    assert u[4 * (j - 1) + 2] == t[4 * j + 2] && u[4 * (j - 1) + 3] == t[4 * j + 3];
  }

  lemma SpellsLonger(t: Bytes, bytes: Bytes)
    requires |t| >= 8
    ensures Spells(t, bytes) <==>
      && |bytes| >= 3 && (forall i | 0 <= i < 4 :: Value(t[i]).Some?) && Spells(t[4..], bytes[3..])
      && bytes[0] as int == Value(t[0]).value * 4 + Value(t[1]).value / 16
      && bytes[1] as int == Value(t[1]).value % 16 * 16 + Value(t[2]).value / 4
      && bytes[2] as int == Value(t[2]).value % 4 * 64 + Value(t[3]).value
  {
    PaddingOfTail(t);
    var u := t[4..];
    if Spells(t, bytes) {
      assert GroupSpells(t, 0, bytes);
      forall j | 0 <= j < |u| / 4
        ensures |u| % 4 == 0 && |bytes[3..]| == |u| / 4 * 3 - Padding(u)
        ensures forall i | 0 <= i < |u| - Padding(u) :: Value(u[i]).Some?
        ensures GroupSpells(u, j, bytes[3..])
      {
        GroupOfTail(t, j + 1, bytes);
      }
    }
    if |bytes| >= 3 && (forall i | 0 <= i < 4 :: Value(t[i]).Some?) && Spells(u, bytes[3..]) {
      forall i | 0 <= i < |t| - Padding(t) ensures Value(t[i]).Some? { if i >= 4 { assert t[i] == u[i - 4]; } }
      forall j | 1 <= j < |t| / 4 ensures GroupSpells(t, j, bytes) {
        GroupOfTail(t, j, bytes);
        assert GroupSpells(u, j - 1, bytes[3..]);
      }
    }
  }

  lemma SpellsFour(t: Bytes, bytes: Bytes)
    requires |t| == 4
    ensures DecodeGroups(t) == Some(bytes) <==> Spells(t, bytes)
  {
    assert Spells(t, bytes) ==> GroupSpells(t, 0, bytes);
    var p := Padding(t);
    if Value(t[0]).Some? && Value(t[1]).Some? {
      if p == 2 {
        FirstByte(t, bytes);
      } else if p == 1 && Value(t[2]).Some? {
        TwoBytes(t, bytes);
      } else if p == 0 && Value(t[2]).Some? && Value(t[3]).Some? {
        ThreeBytes(t, bytes);
      }
    }
  }

  lemma FirstByte(t: Bytes, bytes: Bytes)
    requires |t| == 4 && Value(t[0]).Some? && Value(t[1]).Some? && t[2] == PAD && t[3] == PAD
    ensures DecodeGroups(t) == Some(bytes) <==> Spells(t, bytes)
  {
    assert Spells(t, bytes) ==> GroupSpells(t, 0, bytes) && bytes == [bytes[0]];
  }

  lemma TwoBytes(t: Bytes, bytes: Bytes)
    requires |t| == 4 && Value(t[0]).Some? && Value(t[1]).Some? && Value(t[2]).Some? && t[3] == PAD
    ensures DecodeGroups(t) == Some(bytes) <==> Spells(t, bytes)
  {
    assert Spells(t, bytes) ==> GroupSpells(t, 0, bytes) && bytes == [bytes[0], bytes[1]];
  }

  lemma ThreeBytes(t: Bytes, bytes: Bytes)
    requires |t| == 4 && forall i | 0 <= i < 4 :: Value(t[i]).Some?
    ensures DecodeGroups(t) == Some(bytes) <==> Spells(t, bytes)
  {
    assert Spells(t, bytes) ==> GroupSpells(t, 0, bytes) && bytes == [bytes[0], bytes[1], bytes[2]];
    assert t[4..] == [];
    var p, q, r := Value(t[0]).value, Value(t[1]).value, Value(t[2]).value;
    var three := [AsByte(p * 4 + q / 16), AsByte(q % 16 * 16 + r / 4), AsByte(r % 4 * 64 + Value(t[3]).value)];
    assert three + [] == three && DecodeGroups(t) == Some(three);
  }

  lemma SplitThree(bytes: Bytes, x: Byte, y: Byte, z: Byte, rest: Bytes)
    ensures bytes == [x, y, z] + rest <==>
      |bytes| >= 3 && bytes[0] == x && bytes[1] == y && bytes[2] == z && rest == bytes[3..]
  {
    if |bytes| >= 3 && bytes[0] == x && bytes[1] == y && bytes[2] == z && rest == bytes[3..] {
      assert bytes == [x, y, z] + rest;
    }
  }

  lemma DecodeLonger(t: Bytes)
    requires |t| > 4
    ensures DecodeGroups(t).Some? <==> (forall i | 0 <= i < 4 :: Value(t[i]).Some?) && DecodeGroups(t[4..]).Some?
    ensures DecodeGroups(t).Some? ==>
      var p, q, r := Value(t[0]).value, Value(t[1]).value, Value(t[2]).value;
      DecodeGroups(t).value ==
        [AsByte(p * 4 + q / 16), AsByte(q % 16 * 16 + r / 4), AsByte(r % 4 * 64 + Value(t[3]).value)]
        + DecodeGroups(t[4..]).value
  {
  }

  /** The decoder takes the first group and goes on. */
  lemma DecodeStep(t: Bytes, bytes: Bytes)
    requires |t| > 4
    ensures DecodeGroups(t) == Some(bytes) <==>
      && (forall i | 0 <= i < 4 :: Value(t[i]).Some?)
      && |bytes| >= 3 && DecodeGroups(t[4..]) == Some(bytes[3..])
      && bytes[0] as int == Value(t[0]).value * 4 + Value(t[1]).value / 16
      && bytes[1] as int == Value(t[1]).value % 16 * 16 + Value(t[2]).value / 4
      && bytes[2] as int == Value(t[2]).value % 4 * 64 + Value(t[3]).value
  {
    DecodeLonger(t);
    if DecodeGroups(t).Some? {
      var p, q, r := Value(t[0]).value, Value(t[1]).value, Value(t[2]).value;
      SplitThree(bytes, AsByte(p * 4 + q / 16), AsByte(q % 16 * 16 + r / 4), AsByte(r % 4 * 64 + Value(t[3]).value),
                 DecodeGroups(t[4..]).value);
    }
  }

  lemma {:induction false} DecodesTheSpelled(t: Bytes, bytes: Bytes)
    ensures DecodeGroups(t) == Some(bytes) <==> Spells(t, bytes)
    decreases |t|
  {
    if |t| < 4 {
    } else if |t| == 4 {
      SpellsFour(t, bytes);
    } else {
      DecodeStep(t, bytes);
      if |bytes| >= 3 { DecodesTheSpelled(t[4..], bytes[3..]); }
      if |t| >= 8 { SpellsLonger(t, bytes); }
    }
  }

  /** Line ends go wherever they stand, and nothing else goes. */
  lemma {:induction false} NewlinesAreSkipped(a: Bytes, b: Bytes, c: Byte)
    ensures SkipNewlines([c]) == if c == '\n' || c == '\r' then [] else [c]
    ensures SkipNewlines(a + b) == SkipNewlines(a) + SkipNewlines(b)
    decreases |a|
  {
    if a == [] {
      assert a + b == b;
    } else {
      NewlinesAreSkipped(a[1..], b, c);
      assert (a + b)[1..] == a[1..] + b;
    }
  }

  /** What the decoder accepts and what it makes of it: without line ends, the text is base64 of the bytes. */
  lemma DecodesExactly(text: Bytes, bytes: Bytes)
    ensures Decode(text) == Some(bytes) <==> Spells(SkipNewlines(text), bytes)
  {
    DecodesTheSpelled(SkipNewlines(text), bytes);
  }

  /** Encodings of section 10 of RFC 4648; a longer text is encoded by groups of three bytes. */
  lemma EncodesBySection10(x: Byte, y: Byte, z: Byte, rest: Bytes)
    ensures Encode([]) == [] && Encode(['f']) == ['Z', 'g', '=', '=']
    ensures Encode(['f', 'o']) == ['Z', 'm', '8', '='] && Encode(['f', 'o', 'o']) == ['Z', 'm', '9', 'v']
    ensures Encode([x, y, z] + rest) == Encode([x, y, z]) + Encode(rest)
  {
    assert ([x, y, z] + rest)[3..] == rest && [x, y, z][3..] == [] && ['f', 'o', 'o'][3..] == [];
  }
}
