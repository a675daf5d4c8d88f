/** Which page tokens are accepted, on characters, and which id each of them names. */
module TokenLanguage {
  import opened Wrappers
  import opened Slugs
  import opened Json
  import opened JsonLanguage
  import opened PageToken
  import Base64

  /** The field name, in any case. */
  predicate NamedId(key: Bytes) {
    key == ['i', 'd'] || key == ['I', 'd'] || key == ['i', 'D'] || key == ['I', 'D']
  }

  /** All members of that name are strings or null, and the last of them that is a string is the id; it is not
      empty. */
  ghost predicate CursorIn(members: seq<(Bytes, Value)>, id: Bytes) {
    id != [] && FieldsAreText(members) && LastText(members, id)
  }

  ghost predicate FieldsAreText(members: seq<(Bytes, Value)>) {
    forall i | 0 <= i < |members| && NamedId(members[i].0) :: members[i].1.Null? || members[i].1.Text?
  }

  ghost predicate LastText(members: seq<(Bytes, Value)>, id: Bytes) {
    exists i | 0 <= i < |members| :: IsLastText(members, i, id)
  }

  ghost predicate IsLastText(members: seq<(Bytes, Value)>, i: nat, id: Bytes)
    requires i < |members|
  {
    && NamedId(members[i].0) && members[i].1 == Text(id)
    && forall j | i < j < |members| && NamedId(members[j].0) :: !members[j].1.Text?
  }

  ghost predicate NoText(members: seq<(Bytes, Value)>) {
    forall i | 0 <= i < |members| && NamedId(members[i].0) :: !members[i].1.Text?
  }

  /** The token is base64 of a JSON object that holds the id. */
  ghost predicate TokenNames(token: Bytes, id: Bytes) {
    exists raw, members :: TokenHolds(token, raw, members, id)
  }

  ghost predicate TokenHolds(token: Bytes, raw: Bytes, members: seq<(Bytes, Value)>, id: Bytes) {
    Base64.Spells(Base64.SkipNewlines(token), raw) && IsText(raw, Object(members)) && CursorIn(members, id)
  }

  lemma NameOfTheField(key: Bytes)
    ensures NamesId(key) <==> NamedId(key)
  {
    if NamesId(key) { assert key == [key[0], key[1]]; }
  }

  lemma FieldsStep(first: (Bytes, Value), rest: seq<(Bytes, Value)>)
    ensures FieldsAreText([first] + rest) <==>
      (NamedId(first.0) ==> first.1.Null? || first.1.Text?) && FieldsAreText(rest)
  {
    var members := [first] + rest;
    assert members[0] == first;
    assert forall i | 1 <= i < |members| :: members[i] == rest[i - 1];
    if FieldsAreText(members) {
      forall i | 0 <= i < |rest| && NamedId(rest[i].0) ensures rest[i].1.Null? || rest[i].1.Text? {
        assert members[i + 1] == rest[i];
      }
    }
  }

  lemma NoTextStep(first: (Bytes, Value), rest: seq<(Bytes, Value)>)
    ensures NoText([first] + rest) <==> (NamedId(first.0) ==> !first.1.Text?) && NoText(rest)
  {
    var members := [first] + rest;
    assert members[0] == first;
    assert forall i | 1 <= i < |members| :: members[i] == rest[i - 1];
    if NoText(members) {
      forall i | 0 <= i < |rest| && NamedId(rest[i].0) ensures !rest[i].1.Text? {
        assert members[i + 1] == rest[i];
      }
    }
  }

  lemma LastTextAt(first: (Bytes, Value), rest: seq<(Bytes, Value)>, i: nat, id: Bytes)
    requires i < |rest|
    ensures IsLastText([first] + rest, i + 1, id) <==> IsLastText(rest, i, id)
  {
    var members := [first] + rest;
    assert forall j | 0 <= j < |rest| :: members[j + 1] == rest[j];
  }

  lemma LastTextFirst(first: (Bytes, Value), rest: seq<(Bytes, Value)>, id: Bytes)
    ensures IsLastText([first] + rest, 0, id) <==> NamedId(first.0) && first.1 == Text(id) && NoText(rest)
  {
    var members := [first] + rest;
    assert forall j | 0 <= j < |rest| :: members[j + 1] == rest[j];
  }

  lemma LastTextStep(first: (Bytes, Value), rest: seq<(Bytes, Value)>, id: Bytes)
    ensures LastText([first] + rest, id) <==>
      LastText(rest, id) || (NamedId(first.0) && first.1 == Text(id) && NoText(rest))
  {
    var members := [first] + rest;
    LastTextFirst(first, rest, id);
    if i :| 0 <= i < |members| && IsLastText(members, i, id) {
      if i > 0 { LastTextAt(first, rest, i - 1, id); }
    }
    if i :| 0 <= i < |rest| && IsLastText(rest, i, id) {
      LastTextAt(first, rest, i, id);
    }
  }

  lemma {:induction false} FillsTheLast(members: seq<(Bytes, Value)>, start: Bytes, id: Bytes)
    ensures FillId(members, start) == Some(id) <==>
      FieldsAreText(members) && (LastText(members, id) || (id == start && NoText(members)))
  {
    if members == [] {
    } else {
      var first, rest := members[0], members[1..];
      assert members == [first] + rest;
      NameOfTheField(first.0);
      FieldsStep(first, rest);
      NoTextStep(first, rest);
      LastTextStep(first, rest, id);
      FillsTheLast(rest, if NamedId(first.0) && first.1.Text? then first.1.bytes else start, id);
    }
  }

  /** A token is accepted as naming an id if and only if it is base64 of a JSON object whose last string member
      called id, in any case, is that id and not empty. */
  lemma AcceptedTokens(token: Bytes, id: Bytes)
    ensures DecodePageToken(token) == Some(id) <==> TokenNames(token, id)
  {
    if DecodePageToken(token) == Some(id) {
      var raw := Base64.Decode(token).value;
      Base64.DecodesExactly(token, raw);
      var v := ParseText(raw).value;
      ParsesExactlyTheGrammar(raw, v);
      if v.Object? {
        FillsTheLast(v.members, [], id);
        assert TokenHolds(token, raw, v.members, id);
      }
    }
    if raw, members :| TokenHolds(token, raw, members, id) {
      Base64.DecodesExactly(token, raw);
      ParsesExactlyTheGrammar(raw, Object(members));
      FillsTheLast(members, [], id);
    }
  }

  predicate Foreign(c: Byte) { c !in Base64.ALPHABET && c != '=' }

  lemma ForeignHasNoValue(c: Byte)
    requires Foreign(c)
    ensures Base64.Value(c) == None
  {
    if Base64.Value(c).Some? { Base64.SymbolsAreTheTable(c, Base64.Value(c).value); }
  }

  lemma ForeignIsNotSpelled(t: Bytes, raw: Bytes, i: nat)
    requires i < |t| && Foreign(t[i])
    ensures !Base64.Spells(t, raw)
  {
    ForeignHasNoValue(t[i]);
  }

  /** In particular a foreign character or a wrong length is refused. */
  lemma ForeignTokens(token: Bytes)
    requires var t := Base64.SkipNewlines(token); |t| % 4 != 0 || exists i | 0 <= i < |t| :: Foreign(t[i])
    ensures DecodePageToken(token) == None
  {
    var t := Base64.SkipNewlines(token);
    if Base64.Decode(token).Some? {
      var raw := Base64.Decode(token).value;
      Base64.DecodesExactly(token, raw);
      assert |t| % 4 == 0;
      var i :| 0 <= i < |t| && Foreign(t[i]);
      ForeignIsNotSpelled(t, raw, i);
    }
  }

  lemma NotAnObject(raw: Bytes, token: Bytes)
    requires Base64.Decode(token) == Some(raw) && forall members :: !IsText(raw, Object(members))
    ensures DecodePageToken(token) == None
  {
    forall id ensures DecodePageToken(token) != Some(id) {
      AcceptedTokens(token, id);
      if r, members :| TokenHolds(token, r, members, id) {
        Base64.DecodesExactly(token, r);
        assert false;
      }
    }
  }

  /** Base64 of an open brace, and of an object without members. */
  const ONE_BRACE: Bytes := ['e', 'w', '=', '=']
  const NO_MEMBERS: Bytes := ['e', '3', '0', '=']

  lemma BraceIsNoText()
    ensures ParseText(['{']) == None
  {
    var s: Bytes := ['{'];
    assert SkipSpace(s) == s && s[1..] == [] && SkipSpace(s[1..]) == [];
    assert ParseMembers([]) == None;
  }

  lemma BracesAreAnObject()
    ensures ParseText(['{', '}']) == Some(Object([]))
  {
    var s: Bytes := ['{', '}'];
    var t: Bytes := ['}'];
    assert SkipSpace(s) == s && s[1..] == t && SkipSpace(t) == t && t[1..] == [];
  }

  lemma BracesInBase64()
    ensures Base64.Decode(ONE_BRACE) == Some(['{']) && Base64.Decode(NO_MEMBERS) == Some(['{', '}'])
  {
    assert Base64.SkipNewlines(ONE_BRACE[4..]) == ONE_BRACE[4..];
    Base64.KeepsFour(ONE_BRACE);
    assert Base64.SkipNewlines(NO_MEMBERS[4..]) == NO_MEMBERS[4..];
    Base64.KeepsFour(NO_MEMBERS);
  }

  lemma ForeignStart(c: Byte, rest: Bytes)
    requires Base64.Value(c).None? && c != '\n' && c != '\r'
    ensures Base64.Decode([c] + rest) == None
  {
    assert ([c] + rest)[1..] == rest;
  }

  /** Three refused tokens: not base64, not JSON, and no id. */
  lemma RefusedTokens()
    ensures DecodePageToken(['!'] + ['!', '!', 'n', 'o', 't', 'b', 'a', 's', 'e', '6', '4']) == None
    ensures DecodePageToken(ONE_BRACE) == None && DecodePageToken(NO_MEMBERS) == None
  {
    ForeignStart('!', ['!', '!', 'n', 'o', 't', 'b', 'a', 's', 'e', '6', '4']);
    BracesInBase64();
    BraceIsNoText();
    BracesAreAnObject();
    assert FillId([], []) == Some([]);
  }
}
