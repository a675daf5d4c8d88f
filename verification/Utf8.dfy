/** The well-formed byte sequences are exactly the encodings of the Unicode scalar values (sections 3 and 4 of
    RFC 3629). */
module Utf8 {
  import opened Slugs
  import opened Json

  predicate Scalar(r: nat) { r < 0xD800 || 0xE000 <= r < 0x110000 }

  /** Section 3: how many bytes a scalar value takes. */
  predicate Takes(r: nat, n: nat) {
    if r <= 0x7F then n == 1 else if r <= 0x7FF then n == 2 else if r <= 0xFFFF then n == 3 else n == 4
  }

  /** Section 3: the free bits of the bytes, most significant first. */
  function CodePoint(s: Bytes): int
    requires 1 <= |s| <= 4
  {
    var b := s[0] as int;
    if |s| == 1 then b
    else if |s| == 2 then (b - 0xC0) * 0x40 + (s[1] as int - 0x80)
    else if |s| == 3 then (b - 0xE0) * 0x1000 + (s[1] as int - 0x80) * 0x40 + (s[2] as int - 0x80)
    else (b - 0xF0) * 0x40000 + (s[1] as int - 0x80) * 0x1000 + (s[2] as int - 0x80) * 0x40 + (s[3] as int - 0x80)
  }

  predicate Lead(s: Bytes) {
    && 1 <= |s| <= 4
    && (|s| == 2 ==> 0xC0 <= s[0] as int < 0xE0)
    && (|s| == 3 ==> 0xE0 <= s[0] as int < 0xF0)
    && (|s| == 4 ==> 0xF0 <= s[0] as int < 0xF8)
  }

  predicate Trails(s: Bytes) { forall i | 1 <= i < |s| :: 0x80 <= s[i] as int < 0xC0 }

  /** The bytes are the encoding of the scalar value: as many as it takes, holding its bits. */
  predicate Encodes(s: Bytes, r: nat) {
    Scalar(r) && Takes(r, |s|) && Lead(s) && Trails(s) && r == CodePoint(s)
  }

  lemma SixBits(r: nat)
    ensures r == r / 0x40 * 0x40 + r % 0x40 && r / 0x40 / 0x40 == r / 0x1000
    ensures r / 0x1000 / 0x40 == r / 0x40000
  {
  }

  lemma EncodeRuneIsUtf8(r: nat)
    requires Scalar(r)
    ensures Encodes(EncodeRune(r), r)
  {
    var s := EncodeRune(r);
    SixBits(r);
    SixBits(r / 0x40);
    if r <= 0x7F {
    } else if r <= 0x7FF {
      assert CodePoint(s) == r;
    } else if r <= 0xFFFF {
      assert CodePoint(s) == r;
    } else {
      assert CodePoint(s) == r;
    }
  }

  lemma WellFormedEncodes(s: Bytes)
    requires 1 <= |s| <= 4 && RuneLen(s) == |s|
    ensures CodePoint(s) >= 0 && Encodes(s, CodePoint(s))
  {
  }

  lemma EncodedIsWellFormed(s: Bytes, r: nat)
    requires Encodes(s, r)
    ensures RuneLen(s) == |s| >= 1
  {
  }

  lemma RuneLenOfPrefix(s: Bytes, n: nat)
    requires 1 <= n <= |s| && n <= 4
    ensures RuneLen(s) == n <==> RuneLen(s[..n]) == n
  {
  }

  /** The length found at the front of a string is that of the one encoding that starts it. */
  lemma RuneLenIsExact(s: Bytes, n: nat)
    requires 1 <= n <= |s|
    ensures RuneLen(s) == n <==> exists r: nat :: Encodes(s[..n], r)
  {
    if n <= 4 {
      RuneLenOfPrefix(s, n);
      if RuneLen(s) == n {
        WellFormedEncodes(s[..n]);
        assert Encodes(s[..n], CodePoint(s[..n]));
      }
      if r: nat :| Encodes(s[..n], r) { EncodedIsWellFormed(s[..n], r); }
    }
  }

  /** An escape by four hexadecimal digits, or by two of them for a surrogate pair, is written out as the
      encoding of its scalar value. */
  lemma EncodeRuneIsTheEncoding(s: Bytes, r: nat)
    requires Scalar(r)
    ensures s == EncodeRune(r) <==> Encodes(s, r)
  {
    EncodeRuneIsUtf8(r);
    if Encodes(s, r) { OneEncoding(s, EncodeRune(r), r); }
  }

  lemma SameDigits(x: int, a: int, y: int, b: int)
    requires x * 0x40 + a == y * 0x40 + b && 0 <= a < 0x40 && 0 <= b < 0x40
    ensures x == y && a == b
  {
  }

  function Trail(s: Bytes, i: nat): int
    requires i < |s|
  {
    s[i] as int - 0x80
  }

  lemma OneEncoding(s: Bytes, t: Bytes, r: nat)
    requires Encodes(s, r) && Encodes(t, r)
    ensures s == t
  {
    var x, y := s[0] as int, t[0] as int;
    if |s| == 2 {
      SameDigits(x - 0xC0, Trail(s, 1), y - 0xC0, Trail(t, 1));
    } else if |s| == 3 {
      SameDigits((x - 0xE0) * 0x40 + Trail(s, 1), Trail(s, 2), (y - 0xE0) * 0x40 + Trail(t, 1), Trail(t, 2));
      SameDigits(x - 0xE0, Trail(s, 1), y - 0xE0, Trail(t, 1));
    } else if |s| == 4 {
      var p, q := (x - 0xF0) * 0x40 + Trail(s, 1), (y - 0xF0) * 0x40 + Trail(t, 1);
      SameDigits(p * 0x40 + Trail(s, 2), Trail(s, 3), q * 0x40 + Trail(t, 2), Trail(t, 3));
      SameDigits(p, Trail(s, 2), q, Trail(t, 2));
      SameDigits(x - 0xF0, Trail(s, 1), y - 0xF0, Trail(t, 1));
    }
  }

  /** A string is read from the left: an encoding is kept, a byte that starts none becomes U+FFFD. */
  lemma CoerceKeepsEncodings(s: Bytes, n: nat)
    requires 1 <= n <= |s|
    ensures REPLACEMENT == [0xEF as char, 0xBF as char, 0xBD as char] && Encodes(REPLACEMENT, 0xFFFD)
    ensures (exists r: nat :: Encodes(s[..n], r)) ==> Coerce(s) == s[..n] + Coerce(s[n..])
    ensures (forall m, r: nat | 1 <= m <= |s| :: !Encodes(s[..m], r)) ==> Coerce(s) == REPLACEMENT + Coerce(s[1..])
  {
    RuneLenIsExact(s, n);
    if RuneLen(s) > 0 { RuneLenIsExact(s, RuneLen(s)); }
    EncodedIsWellFormed(REPLACEMENT, 0xFFFD);
  }

  /** The writer leaves no control character and no character special to HTML in a token. */
  lemma {:induction false} EscapeIsHtmlSafe(s: Bytes)
    ensures forall c | c in Escape(s) :: c as int >= 0x20 && c != '<' && c != '>' && c != '&'
    decreases |s|
  {
    if s == [] {
    } else {
      EscapeIsHtmlSafe(s[Width(s)..]);
      FrontIsHtmlSafe(s);
    }
  }

  lemma FrontIsHtmlSafe(s: Bytes)
    requires s != []
    ensures forall c | c in EscapeFront(s) :: c as int >= 0x20 && c != '<' && c != '>' && c != '&'
  {
    if RuneLen(s) == 1 {
      HexIsPlain(s[0] as int / 16);
      HexIsPlain(s[0] as int % 16);
    } else if RuneLen(s) > 1 {
      if LineSeparator(s) { HexIsPlain(s[2] as int % 16); }
      var n := RuneLen(s);
      forall i | 0 <= i < n ensures s[i] as int >= 0x80 { assert Continues(s, i) || i == 0 || i == 1; }
    }
  }

  lemma HexIsPlain(d: nat)
    requires d < 16
    ensures '0' <= Hex(d) <= 'f' && Hex(d) != '<' && Hex(d) != '>' && Hex(d) != '&'
  {
  }
}
