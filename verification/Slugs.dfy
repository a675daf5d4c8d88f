/** Resource identifiers: the regular expression of the domain package and three
    independent descriptions of the language it accepts. */
module Slugs {
  /** Go strings are byte strings; one Byte is one byte. */
  type Byte = c: char | c as int < 256 witness 'a'
  type Bytes = seq<Byte>

  const MAX_ID_LEN := 63

  predicate IsLower(c: char) { 'a' <= c <= 'z' }

  predicate IsAlnum(c: char) { IsLower(c) || '0' <= c <= '9' }

  // ---- Regular expressions and their meaning ----

  datatype Regex =
    | Lower
    | Alnum
    | Hyphen
    | Then(first: Regex, rest: Regex)
    | Star(body: Regex)

  predicate Matches(re: Regex, s: Bytes)
    decreases re, |s|
  {
    match re
    case Lower => |s| == 1 && IsLower(s[0])
    case Alnum => |s| == 1 && IsAlnum(s[0])
    case Hyphen => |s| == 1 && s[0] == '-'
    case Then(a, b) => exists i | 0 <= i <= |s| :: Matches(a, s[..i]) && Matches(b, s[i..])
    case Star(a) => s == [] || exists i | 0 < i <= |s| :: Matches(a, s[..i]) && Matches(re, s[i..])
  }

  /** `[a-z0-9]*` */
  const ALNUMS := Star(Alnum)
  /** `-[a-z0-9]+`, with x+ written as x x* */
  const SEGMENT := Then(Hyphen, Then(Alnum, ALNUMS))
  /** `^[a-z][a-z0-9]*(-[a-z0-9]+)*$` */
  const ID_FORMAT := Then(Lower, Then(ALNUMS, Star(SEGMENT)))

  /** ValidateID: non-empty, at most 63 bytes, and in the language of ID_FORMAT. */
  predicate ValidID(value: Bytes) {
    value != [] && |value| <= MAX_ID_LEN && Matches(ID_FORMAT, value)
  }

  // ---- First description: conditions on the characters ----

  predicate IsSlug(s: Bytes) {
    && s != []
    && 'a' <= s[0] <= 'z'
    && (forall i | 0 <= i < |s| :: 'a' <= s[i] <= 'z' || '0' <= s[i] <= '9' || s[i] == '-')
    && (forall i | 0 <= i < |s| - 1 :: s[i] != '-' || s[i + 1] != '-')
    && s[|s| - 1] != '-'
  }

  // ---- Second description: a left-to-right scanner ----

  datatype Scanner = Start | InSegment | AfterHyphen

  predicate Scan(q: Scanner, s: Bytes)
    decreases |s|
  {
    if s == [] then q == InSegment
    else match q
      case Start => IsLower(s[0]) && Scan(InSegment, s[1..])
      case InSegment =>
        if s[0] == '-' then Scan(AfterHyphen, s[1..]) else IsAlnum(s[0]) && Scan(InSegment, s[1..])
      case AfterHyphen => IsAlnum(s[0]) && Scan(InSegment, s[1..])
  }

  // ---- Third description: hyphen-separated non-empty segments ----

  function Split(s: Bytes): (parts: seq<Bytes>)
    ensures parts != []
  {
    if s == [] then [[]]
    else
      var parts := Split(s[1..]);
      if s[0] == '-' then [[]] + parts else [[s[0]] + parts[0]] + parts[1..]
  }

  predicate AllAlnum(s: Bytes) { forall c | c in s :: IsAlnum(c) }

  predicate GoodSegments(parts: seq<Bytes>) {
    forall i | 0 <= i < |parts| :: parts[i] != [] && AllAlnum(parts[i])
  }

  predicate InSegments(s: Bytes) {
    GoodSegments(Split(s)) && IsLower(Split(s)[0][0])
  }

  // ---- Regular expression = scanner ----

  lemma {:induction false} AlnumsMatches(s: Bytes)
    ensures Matches(ALNUMS, s) <==> AllAlnum(s)
  {
    if s == [] {
    } else {
      AlnumsMatches(s[1..]);
      assert s == [s[0]] + s[1..];
      assert s[..1] == [s[0]];
      if AllAlnum(s) {
        assert Matches(Alnum, s[..1]) && Matches(ALNUMS, s[1..]);
      }
      if Matches(ALNUMS, s) {
        var i :| 0 < i <= |s| && Matches(Alnum, s[..i]) && Matches(ALNUMS, s[i..]);
        assert i == 1;
      }
    }
  }

  /** Scanning through alphanumerics stays inside the segment. */
  lemma {:induction false} ScanAlnums(a: Bytes, b: Bytes)
    requires AllAlnum(a)
    ensures Scan(InSegment, a + b) == Scan(InSegment, b)
  {
    if a == [] {
      assert a + b == b;
    } else {
      assert (a + b)[1..] == a[1..] + b;
      ScanAlnums(a[1..], b);
    }
  }

  /** The length of the longest alphanumeric prefix. */
  function AlnumPrefix(s: Bytes): (n: nat)
    ensures n <= |s| && AllAlnum(s[..n]) && (n < |s| ==> !IsAlnum(s[n]))
  {
    if s == [] || !IsAlnum(s[0]) then 0
    else
      var n := AlnumPrefix(s[1..]);
      assert s[..n + 1] == [s[0]] + s[1..][..n];
      n + 1
  }

  predicate Tail(s: Bytes) { s == [] || (s[0] == '-' && Scan(AfterHyphen, s[1..])) }

  predicate IsSegment(s: Bytes) { |s| >= 2 && s[0] == '-' && AllAlnum(s[1..]) }

  lemma {:induction false} SegmentMatches(s: Bytes)
    ensures Matches(SEGMENT, s) <==> IsSegment(s)
  {
    if Matches(SEGMENT, s) {
      var i :| 0 <= i <= |s| && Matches(Hyphen, s[..i]) && Matches(Then(Alnum, ALNUMS), s[i..]);
      var t := s[i..];
      var j :| 0 <= j <= |t| && Matches(Alnum, t[..j]) && Matches(ALNUMS, t[j..]);
      AlnumsMatches(t[j..]);
      assert t == t[..1] + t[1..];
    }
    if |s| >= 2 && s[0] == '-' && AllAlnum(s[1..]) {
      var t := s[1..];
      AlnumsMatches(t[1..]);
      assert Matches(Hyphen, s[..1]);
      assert Matches(Alnum, t[..1]) && Matches(ALNUMS, t[1..]);
      assert Matches(Then(Alnum, ALNUMS), t);
    }
  }

  /** `x*` matches by taking one non-empty x off the front. */
  lemma {:induction false} StarTakes(x: Regex, s: Bytes, i: nat)
    requires 0 < i <= |s| && Matches(x, s[..i]) && Matches(Star(x), s[i..])
    ensures Matches(Star(x), s)
  {
  }

  lemma TailGrows(segment: Bytes, after: Bytes)
    requires IsSegment(segment) && Tail(after)
    ensures Tail(segment + after)
  {
    var body := segment[1..];
    assert (segment + after)[1..] == body + after;
    assert (body + after)[1..] == body[1..] + after;
    ScanAlnums(body[1..], after);
  }

  lemma TailSplits(s: Bytes) returns (i: nat)
    requires Tail(s) && s != []
    ensures 0 < i <= |s| && IsSegment(s[..i]) && Tail(s[i..])
  {
    var body := s[1..];
    var n := AlnumPrefix(body);
    assert n > 0 && body == body[..n] + body[n..];
    assert body[1..] == body[..n][1..] + body[n..];
    ScanAlnums(body[..n][1..], body[n..]);
    i := n + 1;
    assert s[i..] == body[n..] && s[..i][1..] == body[..n];
  }

  lemma StarSplits(x: Regex, s: Bytes) returns (i: nat)
    requires s != [] && Matches(Star(x), s)
    ensures 0 < i <= |s| && Matches(x, s[..i]) && Matches(Star(x), s[i..])
  {
    i :| 0 < i <= |s| && Matches(x, s[..i]) && Matches(Star(x), s[i..]);
  }

  lemma {:induction false} SegmentsScan(s: Bytes)
    requires Matches(Star(SEGMENT), s)
    ensures Tail(s)
    decreases |s|
  {
    if s == [] {
    } else {
      var i := StarSplits(SEGMENT, s);
      SegmentMatches(s[..i]);
      SegmentsScan(s[i..]);
      assert s == s[..i] + s[i..];
      TailGrows(s[..i], s[i..]);
    }
  }

  lemma {:induction false} ScanSegments(s: Bytes)
    requires Tail(s)
    ensures Matches(Star(SEGMENT), s)
    decreases |s|
  {
    if s == [] {
    } else {
      var i := TailSplits(s);
      SegmentMatches(s[..i]);
      ScanSegments(s[i..]);
      StarTakes(SEGMENT, s, i);
    }
  }

  lemma SegmentsMatches(s: Bytes)
    ensures Matches(Star(SEGMENT), s) <==> Tail(s)
  {
    if Matches(Star(SEGMENT), s) { SegmentsScan(s); }
    if Tail(s) { ScanSegments(s); }
  }

  lemma RegexScans(s: Bytes)
    requires Matches(ID_FORMAT, s)
    ensures Scan(Start, s)
  {
    var i :| 0 <= i <= |s| && Matches(Lower, s[..i]) && Matches(Then(ALNUMS, Star(SEGMENT)), s[i..]);
    var t := s[i..];
    var j :| 0 <= j <= |t| && Matches(ALNUMS, t[..j]) && Matches(Star(SEGMENT), t[j..]);
    AlnumsMatches(t[..j]);
    SegmentsMatches(t[j..]);
    ScanAlnums(t[..j], t[j..]);
    assert t == t[..j] + t[j..];
  }

  lemma ScannedMatches(s: Bytes)
    requires Scan(Start, s)
    ensures Matches(ID_FORMAT, s)
  {
    var t := s[1..];
    var n := AlnumPrefix(t);
    AlnumsMatches(t[..n]);
    assert t == t[..n] + t[n..];
    ScanAlnums(t[..n], t[n..]);
    SegmentsMatches(t[n..]);
    assert Matches(Lower, s[..1]);
    assert Matches(ALNUMS, t[..n]) && Matches(Star(SEGMENT), t[n..]);
    assert Matches(Then(ALNUMS, Star(SEGMENT)), s[1..]);
  }

  lemma RegexIsScanner(s: Bytes)
    ensures Matches(ID_FORMAT, s) <==> Scan(Start, s)
  {
    if Matches(ID_FORMAT, s) { RegexScans(s); }
    if Scan(Start, s) { ScannedMatches(s); }
  }

  // ---- Scanner = conditions on the characters ----

  predicate Clean(s: Bytes) {
    && (forall i | 0 <= i < |s| :: IsAlnum(s[i]) || s[i] == '-')
    && (forall i | 0 <= i < |s| - 1 :: s[i] != '-' || s[i + 1] != '-')
    && (s != [] ==> s[|s| - 1] != '-')
  }

  lemma {:induction false} ScannerIsClean(s: Bytes)
    ensures Scan(InSegment, s) <==> Clean(s)
    ensures Scan(AfterHyphen, s) <==> s != [] && s[0] != '-' && Clean(s)
  {
    if s == [] {
    } else {
      var t := s[1..];
      ScannerIsClean(t);
      assert forall i | 0 <= i < |t| :: t[i] == s[i + 1];
      if Clean(s) {
        forall i | 0 <= i < |t| - 1 ensures t[i] != '-' || t[i + 1] != '-' {
          assert t[i] == s[i + 1] && t[i + 1] == s[i + 2];
        }
        assert Clean(t);
      }
      if Clean(t) && (IsAlnum(s[0]) || (s[0] == '-' && t != [] && t[0] != '-')) {
        forall i | 0 <= i < |s| ensures IsAlnum(s[i]) || s[i] == '-' {
          if i > 0 { assert s[i] == t[i - 1]; }
        }
        forall i | 0 <= i < |s| - 1 ensures s[i] != '-' || s[i + 1] != '-' {
          if i > 0 { assert s[i] == t[i - 1] && s[i + 1] == t[i]; }
        }
        assert Clean(s);
      }
    }
  }

  // ---- Scanner = segments ----

  lemma {:induction false} ScannerIsSegments(s: Bytes)
    ensures Scan(AfterHyphen, s) <==> GoodSegments(Split(s))
    ensures Scan(InSegment, s) <==> AllAlnum(Split(s)[0]) && GoodSegments(Split(s)[1..])
  {
    if s == [] {
    } else {
      var t := s[1..];
      var parts := Split(t);
      ScannerIsSegments(t);
      assert parts == [parts[0]] + parts[1..];
      if s[0] == '-' {
        assert Split(s)[1..] == parts;
      } else {
        var head := [s[0]] + parts[0];
        assert Split(s)[1..] == parts[1..];
        assert AllAlnum(head) <==> IsAlnum(s[0]) && AllAlnum(parts[0]) by {
          if AllAlnum(head) {
            assert head[0] == s[0];
            forall c | c in parts[0] ensures IsAlnum(c) { assert c in head; }
          }
        }
        GoodSegmentsHead(Split(s));
      }
      GoodSegmentsHead(parts);
    }
  }

  lemma GoodSegmentsHead(parts: seq<Bytes>)
    requires parts != []
    ensures GoodSegments(parts) <==> parts[0] != [] && AllAlnum(parts[0]) && GoodSegments(parts[1..])
  {
    if GoodSegments(parts[1..]) && parts[0] != [] && AllAlnum(parts[0]) {
      forall i | 0 <= i < |parts| ensures parts[i] != [] && AllAlnum(parts[i]) {
        if i > 0 { assert parts[i] == parts[1..][i - 1]; }
      }
    }
  }

  /** The four descriptions of the identifier language agree on every string. */
  lemma SlugLanguage(s: Bytes)
    ensures Matches(ID_FORMAT, s) <==> IsSlug(s)
    ensures Matches(ID_FORMAT, s) <==> Scan(Start, s)
    ensures Matches(ID_FORMAT, s) <==> InSegments(s)
  {
    RegexIsScanner(s);
    if s != [] {
      var t := s[1..];
      ScannerIsClean(s);
      ScannerIsClean(t);
      ScannerIsSegments(s);
      ScannerIsSegments(t);
      assert Scan(Start, s) <==> IsLower(s[0]) && Scan(AfterHyphen, s);
      assert IsSlug(s) <==> IsLower(s[0]) && Clean(s);
    }
  }

  /** ValidateID accepts exactly the slugs of 1 to 63 bytes; so an accepted id is pure ASCII. */
  lemma ValidIDIsSlug(value: Bytes)
    ensures ValidID(value) <==> IsSlug(value) && |value| <= 63
    ensures ValidID(value) ==> value != [] && forall c | c in value :: c as int < 128
  {
    SlugLanguage(value);
  }
}
