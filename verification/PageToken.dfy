/** The opaque page token: base64 around a one-field JSON object holding the last id of a page. */
module PageToken {
  import opened Wrappers
  import opened Slugs
  import opened Json
  import Base64

  const OPEN: Bytes := ['{', '"', 'i', 'd', '"', ':', '"']
  const CLOSE: Bytes := ['"', '}']

  /** Marshalling the cursor struct. */
  function MarshalCursor(id: Bytes): Bytes { OPEN + (Escape(id) + CLOSE) }

  function EncodePageToken(id: Bytes): Bytes { Base64.Encode(MarshalCursor(id)) }

  predicate NamesId(key: Bytes) {
    |key| == 2 && (key[0] == 'i' || key[0] == 'I') && (key[1] == 'd' || key[1] == 'D')
  }

  /** Filling the one field from the members in order: the field name matches regardless of case, null leaves
      it alone, the last string wins, and any other value is an error. */
  function FillId(members: seq<(Bytes, Value)>, id: Bytes): Option<Bytes> {
    if members == [] then Some(id)
    else if !NamesId(members[0].0) || members[0].1.Null? then FillId(members[1..], id)
    else if members[0].1.Text? then FillId(members[1..], members[0].1.bytes)
    else None
  }

  function UnmarshalCursor(raw: Bytes): Option<Bytes> {
    match ParseText(raw)
    case None => None
    case Some(Null) => Some([])
    case Some(Object(members)) => FillId(members, [])
    case Some(_) => None
  }

  /** None is an invalid page_token. */
  function DecodePageToken(token: Bytes): Option<Bytes> {
    match Base64.Decode(token)
    case None => None
    case Some(raw) =>
      match UnmarshalCursor(raw)
      case None => None
      case Some(id) => if id == [] then None else Some(id)
  }

  lemma IdKey(rest: Bytes)
    ensures ParseString(['i', 'd', '"'] + rest) == Some((['i', 'd'], rest))
  {
    var quote: Bytes := ['"'] + rest;
    ReadQuote(rest);
    ReadEscapedAscii('d', quote);
    var d: Bytes, i: Bytes := ['d'], ['i'];
    assert EscapeAscii('d') == d && EscapeAscii('i') == i && d + [] == d && i + d == ['i', 'd'];
    assert ParseString(['d'] + quote) == Some((['d'], rest));
    ReadEscapedAscii('i', ['d'] + quote);
    assert ['i', 'd', '"'] + rest == ['i'] + (['d'] + quote);
  }

  /** An object with one member, read up to its closing brace. */
  lemma OneMember(s: Bytes, key: Bytes, afterKey: Bytes, value: Value)
    requires s != [] && s[0] == '"' && ParseString(s[1..]) == Some((key, afterKey))
    requires |afterKey| >= 2 && afterKey[0] == ':' && !IsSpace(afterKey[1])
    requires ParseValue(afterKey[1..]) == Some((value, ['}']))
    ensures ParseMembers(s) == Some(([(key, value)], []))
  {
    var close: Bytes := ['}'];
    assert SkipSpace(afterKey) == afterKey && SkipSpace(afterKey[1..]) == afterKey[1..];
    assert SkipSpace(close) == close && close[1..] == [];
  }

  /** The value of the one member, then the closing brace. */
  lemma ReadText(id: Bytes)
    ensures ParseValue(['"'] + (Escape(id) + CLOSE)) == Some((Text(Coerce(id)), ['}']))
  {
    var s: Bytes := ['"'] + (Escape(id) + CLOSE);
    assert CLOSE == ['"'] + ['}'];
    assert s[1..] == Escape(id) + CLOSE;
    ReadEscaped(id, ['}']);
  }

  lemma MemberKey(afterKey: Bytes)
    ensures ParseString((['"', 'i', 'd', '"'] + afterKey)[1..]) == Some((['i', 'd'], afterKey))
  {
    assert (['"', 'i', 'd', '"'] + afterKey)[1..] == ['i', 'd', '"'] + afterKey;
    IdKey(afterKey);
  }

  lemma ReadMember(id: Bytes)
    ensures ParseMembers(['"', 'i', 'd', '"', ':', '"'] + (Escape(id) + CLOSE))
         == Some(([(['i', 'd'], Text(Coerce(id)))], []))
  {
    var text := Escape(id) + CLOSE;
    var afterKey: Bytes := [':', '"'] + text;
    assert ['"', 'i', 'd', '"', ':', '"'] + text == ['"', 'i', 'd', '"'] + afterKey;
    MemberKey(afterKey);
    assert afterKey[1..] == ['"'] + text;
    ReadText(id);
    OneMember(['"', 'i', 'd', '"'] + afterKey, ['i', 'd'], afterKey, Text(Coerce(id)));
  }

  lemma ReadObject(members: Bytes, read: seq<(Bytes, Value)>)
    requires members != [] && members[0] == '"' && ParseMembers(members) == Some((read, []))
    ensures ParseText(['{'] + members) == Some(Object(read))
  {
    var s: Bytes := ['{'] + members;
    assert s[1..] == members;
    assert SkipSpace(members) == members && SkipSpace(s) == s;
    assert ParseValue(s) == Some((Object(read), []));
  }

  lemma FillOne(id: Bytes)
    ensures FillId([(['i', 'd'], Text(id))], []) == Some(id)
  {
    var one: seq<(Bytes, Value)> := [(['i', 'd'], Text(id))];
    assert one[1..] == [];
  }

  lemma ReadCursor(id: Bytes)
    ensures UnmarshalCursor(MarshalCursor(id)) == Some(Coerce(id))
  {
    var members: Bytes := ['"', 'i', 'd', '"', ':', '"'] + (Escape(id) + CLOSE);
    assert MarshalCursor(id) == ['{'] + members;
    ReadMember(id);
    ReadObject(members, [(['i', 'd'], Text(Coerce(id)))]);
    FillOne(Coerce(id));
  }

  /** A token is never empty, and decoding it gives the id back exactly when the id is non-empty, well-formed
      UTF-8; malformed bytes come back as U+FFFD. */
  lemma TokenRoundTrip(id: Bytes)
    ensures EncodePageToken(id) != []
    ensures EncodePageToken(id) == Base64.Encode(['{', '"', 'i', 'd', '"', ':', '"'] + (Escape(id) + ['"', '}']))
    ensures DecodePageToken(EncodePageToken(id)) == Some(id) <==> id != [] && ValidUtf8(id)
    ensures id != [] ==> DecodePageToken(EncodePageToken(id)) == Some(Coerce(id))
    ensures id == [] ==> DecodePageToken(EncodePageToken(id)) == None
  {
    Base64.DecodeEncode(MarshalCursor(id));
    assert |MarshalCursor(id)| >= 3;
    ReadCursor(id);
    CoerceGrows(id);
  }

  /** For instance a lone byte from 80 to FF is accepted as an id of a token, and comes back as U+FFFD. */
  lemma MalformedIdIsReplaced(c: Byte)
    requires c as int >= 0x80
    ensures DecodePageToken(EncodePageToken([c])) == Some(REPLACEMENT) && REPLACEMENT != [c]
  {
    LoneByteIsMalformed(c);
    TokenRoundTrip([c]);
  }

  lemma {:induction false} AsciiIsUtf8(s: Bytes)
    requires forall c | c in s :: c as int < 128
    ensures ValidUtf8(s)
    decreases |s|
  {
    if s == [] {
    } else {
      assert s[0] in s && forall c | c in s[1..] :: c in s;
      AsciiIsUtf8(s[1..]);
    }
  }

  /** Every stored id is a validated slug, so every token made from one is accepted and means that id. */
  lemma SlugTokens(id: Bytes)
    requires ValidID(id)
    ensures DecodePageToken(EncodePageToken(id)) == Some(id)
  {
    ValidIDIsSlug(id);
    AsciiIsUtf8(id);
    TokenRoundTrip(id);
  }
}
