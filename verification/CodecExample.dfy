/** A codec that keeps the laws asked of the encodings, so that what is proved of lawful codecs is
    proved of something. It writes tokens with quoted fields instead of JSON. */
module CodecExample {
  import opened Wrappers
  import opened Text
  import opened Keyset
  import opened Cursor

  /** It carries whole non-negative numbers. */
  predicate Whole(v: GoValue) {
    v.Scalar? && v.kind != KOther && v.rank >= 0.0 && v.rank.Floor as real == v.rank
  }

  function ValueText(v: GoValue): Option<string> {
    if !v.Scalar? then Some("null") else if Whole(v) then Some(Decimal(v.rank.Floor)) else None
  }

  function ReadValueText(kind: Kind, data: string): Option<GoValue> {
    if data != "" && IsDigit(data[0]) then Some(Scalar(kind, ReadDigits(data, 0).0 as real)) else None
  }

  lemma ValueReadsBack(v: GoValue)
    requires Whole(v)
    ensures ReadValueText(v.kind, ValueText(v).value) == Some(v)
    ensures ValueText(v).value != "null"
  {
    var n := v.rank.Floor;
    DigitsReadOn(n, "");
    DecimalStartsWithDigit(n);
    assert Decimal(n) + "" == Decimal(n);
    assert "null"[0] == 'n';
  }

  function KeyText(key: CursorValue): string { QuoteIdent(key.kind) + (":" + QuoteIdent(key.data)) }

  function ReadKeyText(s: string): Option<(CursorValue, string)> {
    match ReadIdent(s)
    case None => None
    case Some((kind, s1)) =>
      if s1 == "" || s1[0] != ':' then None
      else
        match ReadIdent(s1[1..])
        case None => None
        case Some((data, rest)) => Some((CursorValue(kind, data), rest))
  }

  lemma KeyReadsBack(key: CursorValue, rest: string)
    requires rest == "" || rest[0] != '"'
    ensures ReadKeyText(KeyText(key) + rest) == Some((key, rest))
  {
    var s1 := ":" + (QuoteIdent(key.data) + rest);
    IdentReadsBack(key.kind, s1);
    IdentReadsBack(key.data, rest);
    assert KeyText(key) + rest == QuoteIdent(key.kind) + s1;
    assert s1[1..] == QuoteIdent(key.data) + rest;
  }

  function KeysText(keys: seq<CursorValue>): string {
    if keys == [] then "" else ";" + Join(Map(KeyText, keys), ", ")
  }

  /** The scope and the keys, if there are any; the version is always 1. */
  function TokenText(token: Token): string { QuoteIdent(token.scope) + KeysText(token.keys) }

  function ReadKeys(s: string): Option<seq<CursorValue>> {
    if s == "" then Some([])
    else
      match ReadList(ReadKeyText, ", ", s[1..])
      case Some((keys, "")) => Some(keys)
      case _ => None
  }

  function ReadTokenText(s: string): Option<Token> {
    match ReadIdent(s)
    case None => None
    case Some((scope, rest)) =>
      match ReadKeys(rest)
      case None => None
      case Some(keys) => Some(Token(1, scope, keys))
  }

  lemma KeysReadBack(keys: seq<CursorValue>)
    ensures ReadKeys(KeysText(keys)) == Some(keys)
  {
    if keys != [] {
      forall i, t: string | 0 <= i < |keys| && (", " <= t || t == "")
        ensures ReadKeyText(Map(KeyText, keys)[i] + t) == Some((keys[i], t))
      {
        KeyReadsBack(keys[i], t);
      }
      ListReadsBack(ReadKeyText, ", ", Map(KeyText, keys), keys, "");
      var list := Join(Map(KeyText, keys), ", ");
      assert list + "" == list && (";" + list)[1..] == list;
    }
  }

  lemma TokenReadsBack(token: Token)
    requires token.version == 1
    ensures ReadTokenText(TokenText(token)) == Some(token)
  {
    IdentReadsBack(token.scope, KeysText(token.keys));
    KeysReadBack(token.keys);
  }

  /** The codec. Every statement has one scope. */
  function Quoting(): Codec {
    Codec(Whole, ValueText, ReadValueText, TokenText, ReadTokenText, (raw: string) => raw, (text: string) => Some(text),
          (sql: string, orders: seq<Order>, args: seq<GoValue>) => Some("scope"))
  }

  /** It is lawful, and carries every whole number. */
  lemma QuotingIsLawful()
    ensures Lawful(Quoting())
    ensures forall v :: Whole(v) ==> Quoting().exact(v) && Quoting().valueJSON(v).Some?
  {
    forall v: GoValue | Whole(v)
      ensures ReadValueText(v.kind, ValueText(v).value) == Some(v) && ValueText(v).value != "null"
    {
      ValueReadsBack(v);
    }
    forall token: Token | token.version == 1 ensures ReadTokenText(TokenText(token)) == Some(token) {
      TokenReadsBack(token);
    }
  }

  lemma EncodeOne(codec: Codec, v: GoValue)
    requires EncodeValue(codec, v).Ok?
    ensures EncodeValues(codec, [v]) == Ok([EncodeValue(codec, v).value])
  {
    var encoded := EncodeValue(codec, v).value;
    assert [v][..0] == [];
    assert [] + [encoded] == [encoded];
  }

  /** A key that is a nil byte slice: a token is made of it, and the decoder refuses the token. */
  lemma NilSliceTokenIsMadeAndRefused(order: Order) returns (token: string)
    ensures Lawful(Quoting()) && IsScope(Quoting(), "scope")
    ensures CursorText(Quoting(), "scope", [order], [NilBytes]) == Ok(token)
    ensures DecodedCursor(Quoting(), token, "scope", 1) == Err(ErrInvalidCursor)
  {
    QuotingIsLawful();
    assert Quoting().scopeHash("", [], []) == Some("scope");
    var key := CursorValue("bytes", "null");
    assert EncodeValue(Quoting(), NilBytes) == Ok(key);
    EncodeOne(Quoting(), NilBytes);
    token := TokenText(Token(1, "scope", [key]));
    DoubledLength("scope");
    DoubledLength(key.kind);
    DoubledLength(key.data);
    NilSliceIsRefused(Quoting(), "scope", order, token);
  }

  lemma {:induction false} DoubledLength(name: string)
    ensures |Doubled(name)| <= 2 * |name|
  {
    if name == "" {
    } else {
      DoubledLength(name[1..]);
    }
  }
}
