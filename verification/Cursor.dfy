/** Cursor tokens: how key values are put into one and taken out again (page/cursor.go). */
module Cursor {
  import opened Wrappers
  import opened Keyset

  const MAX_CURSOR_BYTES := 65536

  datatype CursorValue = CursorValue(kind: string, data: string)

  datatype Token = Token(version: int, scope: string, keys: seq<CursorValue>)

  /** The encodings a token goes through, and the hash its scope is. They are the caller's JSON,
      base64url (section 5 of RFC 4648, unpadded) and SHA-256; only what Lawful says is used.
      `exact` tells the values JSON carries without loss: not, say, a string that is not UTF-8. */
  datatype Codec = Codec(
    exact: GoValue -> bool,
    valueJSON: GoValue -> Option<string>,
    readValue: (Kind, string) -> Option<GoValue>,
    tokenJSON: Token -> string,
    readToken: string -> Option<Token>,
    encode: string -> string,
    decode: string -> Option<string>,
    scopeHash: (string, seq<Order>, seq<GoValue>) -> Option<string>)

  ghost predicate IsScope(codec: Codec, scope: string) {
    exists sql, orders, args :: codec.scopeHash(sql, orders, args) == Some(scope)
  }

  /** The token is one the library makes: every datum is the JSON of a value, and the scope a hash. */
  ghost predicate Genuine(codec: Codec, token: Token) {
    && token.version == 1
    && IsScope(codec, token.scope)
    && (forall i :: 0 <= i < |token.keys| ==> exists v :: codec.valueJSON(v) == Some(token.keys[i].data))
  }

  /** Values of the supported types: only NULL and a nil byte slice are written `null`, and an exact
      value reads back. */
  ghost predicate LawfulValues(codec: Codec) {
    && codec.valueJSON(Nil) == Some("null") && codec.valueJSON(NilBytes) == Some("null")
    && forall v: GoValue :: v.Scalar? && v.kind != KOther && codec.valueJSON(v).Some? ==>
         && codec.valueJSON(v).value != "null"
         && (codec.exact(v) ==> codec.readValue(v.kind, codec.valueJSON(v).value) == Some(v))
  }

  /** A datum as it stands in a token that was read, without spaces around it, is read as NULL or
      as a nil slice only if it is `null`. */
  ghost predicate ReadsAsScalar(codec: Codec, key: CursorValue) {
    forall kind :: key.data != "null" && codec.readValue(kind, key.data).Some? ==>
      codec.readValue(kind, key.data).value.Scalar?
  }

  /** Genuine tokens are written, and read back; the keys of any token read are data as they stand
      in it. */
  ghost predicate LawfulTokens(codec: Codec) {
    && (forall token :: Genuine(codec, token) ==>
          codec.tokenJSON(token) != "" && codec.readToken(codec.tokenJSON(token)) == Some(token))
    && (forall raw, i :: codec.readToken(raw).Some? && 0 <= i < |codec.readToken(raw).value.keys| ==>
          ReadsAsScalar(codec, codec.readToken(raw).value.keys[i]))
  }

  ghost predicate Lawful(codec: Codec) {
    && LawfulValues(codec) && LawfulTokens(codec)
    && (forall raw :: codec.decode(codec.encode(raw)) == Some(raw) && (raw != "" ==> codec.encode(raw) != ""))
    && !IsScope(codec, "")
  }

  // ---- Kinds ------------------------------------------------------------------------------

  function KindName(kind: Kind): Option<string> {
    match kind
    case KInt => Some("int")
    case KInt8 => Some("int8")
    case KInt16 => Some("int16")
    case KInt32 => Some("int32")
    case KInt64 => Some("int64")
    case KUint => Some("uint")
    case KUint8 => Some("uint8")
    case KUint16 => Some("uint16")
    case KUint32 => Some("uint32")
    case KUint64 => Some("uint64")
    case KFloat32 => Some("float32")
    case KFloat64 => Some("float64")
    case KBool => Some("bool")
    case KString => Some("string")
    case KTime => Some("time")
    case KBytes => Some("bytes")
    case KUuid => Some("uuid")
    case KOther => None
  }

  function KindOf(name: string): Option<Kind> {
    if name == "int" then Some(KInt)
    else if name == "int8" then Some(KInt8)
    else if name == "int16" then Some(KInt16)
    else if name == "int32" then Some(KInt32)
    else if name == "int64" then Some(KInt64)
    else if name == "uint" then Some(KUint)
    else if name == "uint8" then Some(KUint8)
    else if name == "uint16" then Some(KUint16)
    else if name == "uint32" then Some(KUint32)
    else if name == "uint64" then Some(KUint64)
    else if name == "float32" then Some(KFloat32)
    else if name == "float64" then Some(KFloat64)
    else if name == "bool" then Some(KBool)
    else if name == "string" then Some(KString)
    else if name == "time" then Some(KTime)
    else if name == "bytes" then Some(KBytes)
    else if name == "uuid" then Some(KUuid)
    else None
  }

  lemma KindReadsBack(kind: Kind)
    requires kind != KOther
    ensures KindName(kind).Some? && KindName(kind).value != "null" && KindOf(KindName(kind).value) == Some(kind)
  {
    match kind
    case KInt => case KInt8 => case KInt16 => case KInt32 => case KInt64 =>
    case KUint => case KUint8 => case KUint16 => case KUint32 => case KUint64 =>
    case KFloat32 => case KFloat64 => case KBool => case KString => case KTime => case KBytes => case KUuid =>
  }

  // ---- One value --------------------------------------------------------------------------

  function ValueKind(v: GoValue): Option<string> {
    match v
    case Nil => Some("null")
    case NilBytes => Some("bytes")
    case Scalar(kind, _) => KindName(kind)
  }

  function EncodeValue(codec: Codec, v: GoValue): Result<CursorValue> {
    if ValueKind(v).None? || codec.valueJSON(v).None? then Err(ErrCursorValue)
    else Ok(CursorValue(ValueKind(v).value, codec.valueJSON(v).value))
  }

  /** decodeValue: by the kind's name. */
  function DecodeTyped(codec: Codec, key: CursorValue): Result<GoValue> {
    match KindOf(key.kind)
    case None => Err(ErrInvalidCursor)
    case Some(kind) =>
      match codec.readValue(kind, key.data)
      case None => Err(ErrInvalidCursor)
      case Some(v) => Ok(v)
  }

  /** One key of a token: NULL under its own kind and no other. */
  function DecodeValue(codec: Codec, key: CursorValue): Result<GoValue> {
    if key.kind == "null" then (if key.data == "null" then Ok(Nil) else Err(ErrInvalidCursor))
    else if key.data == "null" then Err(ErrInvalidCursor)
    else DecodeTyped(codec, key)
  }

  /** An encoded value decodes to itself, except a nil byte slice, which is refused. */
  lemma ValueRoundTrip(codec: Codec, v: GoValue)
    requires Lawful(codec) && (v.Scalar? ==> codec.exact(v))
    requires EncodeValue(codec, v).Ok?
    ensures DecodeValue(codec, EncodeValue(codec, v).value) == if v == NilBytes then Err(ErrInvalidCursor) else Ok(v)
  {
    if v.Scalar? { KindReadsBack(v.kind); }
  }

  /** A key decodes exactly if it is NULL under its own kind, or other data that can be read as the
      kind it names. */
  lemma ValueIsDecoded(codec: Codec, key: CursorValue)
    ensures DecodeValue(codec, key).Ok? <==>
            if key.data == "null" then key.kind == "null"
            else exists kind :: KindName(kind) == Some(key.kind) && codec.readValue(kind, key.data).Some?
    ensures DecodeValue(codec, key).Ok? ==>
            if key.data == "null" then DecodeValue(codec, key) == Ok(Nil)
            else exists kind :: KindName(kind) == Some(key.kind)
                                && codec.readValue(kind, key.data) == Some(DecodeValue(codec, key).value)
    ensures DecodeValue(codec, key).Err? ==> DecodeValue(codec, key).error == ErrInvalidCursor
  {
    forall kind | KindName(kind) == Some(key.kind) ensures KindOf(key.kind) == Some(kind) && key.kind != "null" {
      KindReadsBack(kind);
    }
    if KindOf(key.kind).Some? { assert KindName(KindOf(key.kind).value) == Some(key.kind); }
  }

  // ---- All values -------------------------------------------------------------------------

  function EncodeValues(codec: Codec, keys: seq<GoValue>): Result<seq<CursorValue>> {
    if keys == [] then Ok([])
    else
      match EncodeValues(codec, keys[..|keys| - 1])
      case Err(e) => Err(e)
      case Ok(front) =>
        match EncodeValue(codec, keys[|keys| - 1])
        case Err(e) => Err(e)
        case Ok(last) => Ok(front + [last])
  }

  function DecodeValues(codec: Codec, keys: seq<CursorValue>): (r: Result<seq<GoValue>>)
    ensures r.Ok? ==> |r.value| == |keys|
  {
    if keys == [] then Ok([])
    else
      match DecodeValues(codec, keys[..|keys| - 1])
      case Err(e) => Err(e)
      case Ok(front) =>
        match DecodeValue(codec, keys[|keys| - 1])
        case Err(e) => Err(e)
        case Ok(last) => Ok(front + [last])
  }

  lemma {:induction false} EncodedOneByOne(codec: Codec, keys: seq<GoValue>)
    requires EncodeValues(codec, keys).Ok?
    ensures |EncodeValues(codec, keys).value| == |keys|
    ensures forall i :: 0 <= i < |keys| ==> EncodeValue(codec, keys[i]) == Ok(EncodeValues(codec, keys).value[i])
  {
    if keys == [] {
    } else {
      EncodedOneByOne(codec, keys[..|keys| - 1]);
    }
  }

  lemma {:induction false} DecodedOneByOne(codec: Codec, keys: seq<CursorValue>)
    ensures DecodeValues(codec, keys).Ok? <==> forall i :: 0 <= i < |keys| ==> DecodeValue(codec, keys[i]).Ok?
    ensures DecodeValues(codec, keys).Ok? ==>
              && |DecodeValues(codec, keys).value| == |keys|
              && forall i :: 0 <= i < |keys| ==> DecodeValue(codec, keys[i]) == Ok(DecodeValues(codec, keys).value[i])
    ensures DecodeValues(codec, keys).Err? ==> DecodeValues(codec, keys).error == ErrInvalidCursor
  {
    if keys == [] {
    } else {
      DecodedOneByOne(codec, keys[..|keys| - 1]);
    }
  }

  lemma ValuesRoundTrip(codec: Codec, keys: seq<GoValue>)
    requires Lawful(codec) && forall i :: 0 <= i < |keys| && keys[i].Scalar? ==> codec.exact(keys[i])
    requires EncodeValues(codec, keys).Ok?
    ensures DecodeValues(codec, EncodeValues(codec, keys).value)
            == if NilBytes in keys then Err(ErrInvalidCursor) else Ok(keys)
  {
    var encoded := EncodeValues(codec, keys).value;
    EncodedOneByOne(codec, keys);
    forall i | 0 <= i < |keys|
      ensures DecodeValue(codec, encoded[i]) == if keys[i] == NilBytes then Err(ErrInvalidCursor) else Ok(keys[i])
    {
      ValueRoundTrip(codec, keys[i]);
    }
    DecodeMany(codec, encoded, keys);
  }

  lemma DecodeMany(codec: Codec, encoded: seq<CursorValue>, keys: seq<GoValue>)
    requires |encoded| == |keys|
    requires forall i :: 0 <= i < |keys| ==>
               DecodeValue(codec, encoded[i]) == if keys[i] == NilBytes then Err(ErrInvalidCursor) else Ok(keys[i])
    ensures DecodeValues(codec, encoded) == if NilBytes in keys then Err(ErrInvalidCursor) else Ok(keys)
  {
    DecodedOneByOne(codec, encoded);
    if NilBytes in keys {
      var i :| 0 <= i < |keys| && keys[i] == NilBytes;
      assert DecodeValue(codec, encoded[i]).Err?;
    } else {
      assert DecodeValues(codec, encoded).value == keys;
    }
  }

  // ---- Tokens -----------------------------------------------------------------------------

  /** CursorStatement.Cursor. */
  function CursorText(codec: Codec, scope: string, orders: seq<Order>, keys: seq<GoValue>): Result<string> {
    if scope == "" || |keys| != |orders| then Err(ErrInvalidCursor)
    else
      match EncodeValues(codec, keys)
      case Err(e) => Err(e)
      case Ok(values) =>
        var text := codec.encode(codec.tokenJSON(Token(1, scope, values)));
        if |text| > MAX_CURSOR_BYTES then Err(ErrInvalidCursor) else Ok(text)
  }

  /** decodeCursor. */
  function DecodedCursor(codec: Codec, text: string, scope: string, count: nat): (r: Result<seq<GoValue>>)
    ensures r.Ok? ==> |r.value| == count
  {
    if |text| > MAX_CURSOR_BYTES then Err(ErrInvalidCursor)
    else
      match codec.decode(text)
      case None => Err(ErrInvalidCursor)
      case Some(raw) =>
        match codec.readToken(raw)
        case None => Err(ErrInvalidCursor)
        case Some(token) =>
          if token.version != 1 || token.scope != scope || |token.keys| != count then Err(ErrInvalidCursor)
          else DecodeValues(codec, token.keys)
  }

  method Cursor(codec: Codec, scope: string, orders: seq<Order>, keys: seq<GoValue>) returns (r: Result<string>)
    ensures r == CursorText(codec, scope, orders, keys)
  {
    if scope == "" || |keys| != |orders| {
      return Err(ErrInvalidCursor);
    }
    var values := new CursorValue[|keys|](_ => CursorValue("", ""));
    for i := 0 to |keys|
      invariant EncodeValues(codec, keys[..i]) == Ok(values[..i])
    {
      assert keys[..i + 1][..i] == keys[..i];
      var encoded := EncodeValue(codec, keys[i]);
      if encoded.Err? {
        EncodingStops(codec, keys, i + 1);
        return Err(encoded.error);
      }
      ghost var front := values[..i];
      values[i] := encoded.value;
      assert values[..i + 1] == front + [encoded.value];
    }
    assert keys[..|keys|] == keys;
    var text := codec.encode(codec.tokenJSON(Token(1, scope, values[..])));
    assert values[..] == values[..|keys|];
    r := if |text| > MAX_CURSOR_BYTES then Err(ErrInvalidCursor) else Ok(text);
  }

  lemma {:induction false} EncodingStops(codec: Codec, keys: seq<GoValue>, n: nat)
    requires n <= |keys| && EncodeValues(codec, keys[..n]).Err?
    ensures EncodeValues(codec, keys) == EncodeValues(codec, keys[..n])
  {
    if n == |keys| {
      assert keys[..n] == keys;
    } else {
      assert keys[..|keys| - 1][..n] == keys[..n];
      EncodingStops(codec, keys[..|keys| - 1], n);
    }
  }

  method DecodeCursor(codec: Codec, text: string, scope: string, count: nat) returns (r: Result<seq<GoValue>>)
    ensures r == DecodedCursor(codec, text, scope, count)
  {
    if |text| > MAX_CURSOR_BYTES {
      return Err(ErrInvalidCursor);
    }
    var raw := codec.decode(text);
    if raw.None? {
      return Err(ErrInvalidCursor);
    }
    var read := codec.readToken(raw.value);
    if read.None? || read.value.version != 1 || read.value.scope != scope || |read.value.keys| != count {
      return Err(ErrInvalidCursor);
    }
    r := DecodeKeys(codec, read.value.keys);
  }

  method DecodeKeys(codec: Codec, encoded: seq<CursorValue>) returns (r: Result<seq<GoValue>>)
    ensures r == DecodeValues(codec, encoded)
  {
    DecodedOneByOne(codec, encoded);
    var keys := new GoValue[|encoded|](_ => Nil);
    for i := 0 to |encoded|
      invariant forall j :: 0 <= j < i ==> DecodeValue(codec, encoded[j]) == Ok(keys[j])
      invariant forall j :: i <= j < |encoded| ==> keys[j] == Nil
    {
      var key := encoded[i];
      if key.kind == "null" {
        if key.data != "null" {
          return Err(ErrInvalidCursor);
        }
        continue;
      }
      if key.data == "null" {
        return Err(ErrInvalidCursor);
      }
      var value := DecodeTyped(codec, key);
      if value.Err? {
        return Err(ErrInvalidCursor);
      }
      keys[i] := value.value;
    }
    assert keys[..] == DecodeValues(codec, encoded).value;
    r := Ok(keys[..]);
  }

  // ---- What a token carries ---------------------------------------------------------------

  /** What a decoder accepts, it accepts for one version, scope and key count only. */
  lemma DecodingIsBound(codec: Codec, text: string, scope: string, count: nat)
    ensures DecodedCursor(codec, text, scope, count).Ok? <==>
              && |text| <= 65536
              && codec.decode(text).Some?
              && codec.readToken(codec.decode(text).value).Some?
              && var token := codec.readToken(codec.decode(text).value).value;
                 && token.version == 1 && token.scope == scope && |token.keys| == count
                 && forall i :: 0 <= i < count ==> DecodeValue(codec, token.keys[i]).Ok?
    ensures DecodedCursor(codec, text, scope, count).Err? ==>
            DecodedCursor(codec, text, scope, count).error == ErrInvalidCursor
  {
    if codec.decode(text).Some? && codec.readToken(codec.decode(text).value).Some? {
      DecodedOneByOne(codec, codec.readToken(codec.decode(text).value).value.keys);
    }
  }

  lemma DecodedIsNotNilBytes(codec: Codec, key: CursorValue)
    requires ReadsAsScalar(codec, key)
    ensures DecodeValue(codec, key) != Ok(NilBytes)
  {
  }

  /** No decoded key is a nil byte slice. */
  lemma DecodedAreDecodable(codec: Codec, text: string, scope: string, count: nat)
    requires Lawful(codec) && DecodedCursor(codec, text, scope, count).Ok?
    ensures NilBytes !in DecodedCursor(codec, text, scope, count).value
  {
    var token := codec.readToken(codec.decode(text).value).value;
    DecodedOneByOne(codec, token.keys);
    var keys := DecodedCursor(codec, text, scope, count).value;
    forall i | 0 <= i < count ensures keys[i] != NilBytes {
      DecodedIsNotNilBytes(codec, token.keys[i]);
    }
  }

  lemma TokenIsGenuine(codec: Codec, scope: string, keys: seq<GoValue>)
    requires EncodeValues(codec, keys).Ok? && IsScope(codec, scope)
    ensures Genuine(codec, Token(1, scope, EncodeValues(codec, keys).value))
  {
    EncodedOneByOne(codec, keys);
    var values := EncodeValues(codec, keys).value;
    forall i | 0 <= i < |values| ensures exists v :: codec.valueJSON(v) == Some(values[i].data) {
      assert codec.valueJSON(keys[i]) == Some(values[i].data);
    }
  }

  lemma CursorIsNotEmpty(codec: Codec, scope: string, orders: seq<Order>, keys: seq<GoValue>)
    requires Lawful(codec) && IsScope(codec, scope)
    requires CursorText(codec, scope, orders, keys).Ok?
    ensures CursorText(codec, scope, orders, keys).value != ""
  {
    TokenIsGenuine(codec, scope, keys);
  }

  /** The key can be put in a token: its type is a supported one, and it has a JSON form. */
  predicate Encodable(codec: Codec, key: GoValue) {
    (key.Scalar? ==> key.kind != KOther) && codec.valueJSON(key).Some?
  }

  /** What the token holds of the key: its JSON, under the name of its kind. */
  predicate Carries(codec: Codec, value: CursorValue, key: GoValue) {
    && Some(value.data) == codec.valueJSON(key)
    && match key
       case Nil => value.kind == "null"
       case NilBytes => value.kind == "bytes"
       case Scalar(kind, _) => KindOf(value.kind) == Some(kind)
  }

  lemma EncodedIsExact(codec: Codec, key: GoValue)
    ensures EncodeValue(codec, key).Ok? <==> Encodable(codec, key)
    ensures EncodeValue(codec, key).Ok? ==> Carries(codec, EncodeValue(codec, key).value, key)
    ensures EncodeValue(codec, key).Err? ==> EncodeValue(codec, key).error == ErrCursorValue
  {
    if key.Scalar? && key.kind != KOther { KindReadsBack(key.kind); }
  }

  lemma {:induction false} EncodedAllOrNone(codec: Codec, keys: seq<GoValue>)
    ensures EncodeValues(codec, keys).Ok? <==> forall i :: 0 <= i < |keys| ==> Encodable(codec, keys[i])
    ensures EncodeValues(codec, keys).Err? ==> EncodeValues(codec, keys).error == ErrCursorValue
  {
    if keys == [] {
    } else {
      EncodedAllOrNone(codec, keys[..|keys| - 1]);
      EncodedIsExact(codec, keys[|keys| - 1]);
    }
  }

  /** A cursor is made exactly if there is a scope, a key for every column, each of a supported type
      with a JSON form, and the text is no longer than 65536; it is the text of a version 1 token of
      that scope, which carries the keys. */
  lemma CursorIsMade(codec: Codec, scope: string, orders: seq<Order>, keys: seq<GoValue>)
    ensures
      var r := CursorText(codec, scope, orders, keys);
      if scope == "" || |keys| != |orders| then r == Err(ErrInvalidCursor)
      else if exists i :: 0 <= i < |keys| && !Encodable(codec, keys[i]) then r == Err(ErrCursorValue)
      else
        exists values ::
          && |values| == |keys| && (forall i :: 0 <= i < |keys| ==> Carries(codec, values[i], keys[i]))
          && var text := codec.encode(codec.tokenJSON(Token(1, scope, values)));
             r == if |text| <= 65536 then Ok(text) else Err(ErrInvalidCursor)
  {
    EncodedAllOrNone(codec, keys);
    if EncodeValues(codec, keys).Ok? {
      EncodedOneByOne(codec, keys);
      var values := EncodeValues(codec, keys).value;
      forall i | 0 <= i < |keys| ensures Carries(codec, values[i], keys[i]) {
        EncodedIsExact(codec, keys[i]);
      }
    }
  }

  /** A token decodes, under its scope and key count, to the keys it was made of; if one of them
      is a nil byte slice it does not decode at all. Under another scope or count it never does. */
  lemma TokenRoundTrip(codec: Codec, scope: string, orders: seq<Order>, keys: seq<GoValue>, text: string)
    requires Lawful(codec) && forall i :: 0 <= i < |keys| && keys[i].Scalar? ==> codec.exact(keys[i])
    requires IsScope(codec, scope)
    requires CursorText(codec, scope, orders, keys) == Ok(text)
    ensures text != "" && |text| <= MAX_CURSOR_BYTES
    ensures DecodedCursor(codec, text, scope, |orders|) == if NilBytes in keys then Err(ErrInvalidCursor) else Ok(keys)
    ensures forall other, count :: other != scope || count != |orders| ==>
              DecodedCursor(codec, text, other, count) == Err(ErrInvalidCursor)
  {
    var token := Token(1, scope, EncodeValues(codec, keys).value);
    TokenIsGenuine(codec, scope, keys);
    assert codec.decode(text) == Some(codec.tokenJSON(token));
    assert codec.readToken(codec.tokenJSON(token)) == Some(token);
    EncodedOneByOne(codec, keys);
    ValuesRoundTrip(codec, keys);
  }

  /** The one kind of key that is encoded and cannot come back: a nil byte slice that is not nil. */
  lemma NilSliceIsRefused(codec: Codec, scope: string, order: Order, text: string)
    requires Lawful(codec) && IsScope(codec, scope)
    requires CursorText(codec, scope, [order], [NilBytes]) == Ok(text)
    ensures DecodedCursor(codec, text, scope, 1) == Err(ErrInvalidCursor)
  {
    TokenRoundTrip(codec, scope, [order], [NilBytes], text);
  }
}
