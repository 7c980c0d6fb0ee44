/** The BRPC message codec. Texts are modelled by their UTF-8 bytes, and JSON by a printer and parser
    that undo each other. */
module Brpc {
  import opened Common
  import Decimal

  type Byte = b: int | 0 <= b < 256
  type Bytes = seq<Byte>

  const NAMED_BYTE: Byte := 10
  const NAMED_STRING: Byte := 14
  const ARRAY: Byte := 5

  // the field names, and the text `null`
  const ID: Bytes := [105, 100]
  const OK: Bytes := [111, 107]
  const RESULT: Bytes := [114, 101, 115, 117, 108, 116]
  const CODE: Bytes := [99, 111, 100, 101]
  const MSG: Bytes := [109, 115, 103]
  const METHOD: Bytes := [109, 101, 116, 104, 111, 100]
  const PARAMS: Bytes := [112, 97, 114, 97, 109, 115]
  const NULL: Bytes := [110, 117, 108, 108]

  const TWO_32: int := 0x1_0000_0000

  // ------------------------------------------------------------------
  // Messages
  // ------------------------------------------------------------------

  /** A decoded field value: a text, or the number of a byte field. */
  datatype Value = Text(text: Bytes) | Num(num: Byte)

  /** The id that callers pass: an integer, or anything else by the text Python makes of it. */
  datatype Id = Named(text: Bytes) | Numbered(num: int)

  /** What callers pass to `encode`; an omitted result or params is None. */
  datatype Payload<J> =
    | Success(id: Id, result: Option<J>)
    | Failure(id: Id, code: Bytes, msg: Bytes)
    | Request(id: Id, name: Bytes, params: Option<J>)
    | Notification(name: Bytes, params: Option<J>)

  /** What `decode` returns. */
  datatype Message<J> =
    | SuccessMsg(id: Value, result: J)
    | FailureMsg(id: Value, code: Value, msg: Value)
    | RequestMsg(id: Value, name: Value, params: J)
    | NotificationMsg(name: Value, params: J)

  /** The id a message carries. */
  function IdOf<J>(m: Message<J>): Option<Value> {
    match m
    case SuccessMsg(id, _) => Some(id)
    case FailureMsg(id, _, _) => Some(id)
    case RequestMsg(id, _, _) => Some(id)
    case NotificationMsg(_, _) => None
  }

  /** `json.dumps` and `json.loads` (None where the latter raises), and Python's None. */
  datatype Json<!J> = Json(dumps: J -> Bytes, loads: Bytes -> Option<J>, none: J)

  ghost predicate Lawful<J(!new)>(json: Json<J>) {
    (forall v :: json.loads(json.dumps(v)) == Some(v)) && json.dumps(json.none) == NULL
  }

  /** The id as Python's `str` prints it. */
  function Str(id: Id): Bytes {
    match id
    case Named(t) => t
    case Numbered(n) => if n < 0 then [45] + Digits(-n) else Digits(n)
  }

  function Digits(n: nat): (r: Bytes)
    ensures r != []
  {
    var s := Decimal.Print(n);
    seq(|s|, i requires 0 <= i < |s| => assert Decimal.IsDigit(s[i]); s[i] as int)
  }

  /** Bytes read as characters. */
  function Chars(b: Bytes): (s: string)
    ensures |s| == |b| && forall i :: 0 <= i < |b| ==> s[i] == b[i] as char
  {
    seq(|b|, i requires 0 <= i < |b| => b[i] as char)
  }

  lemma CharsInjective(a: Bytes, b: Bytes)
    requires Chars(a) == Chars(b)
    ensures a == b
  {
    forall i | 0 <= i < |a| ensures a[i] == b[i] {
      assert Chars(a)[i] == Chars(b)[i];
    }
  }

  lemma DigitsAreChars(n: nat)
    ensures Chars(Digits(n)) == Decimal.Print(n)
  {
    var s := Decimal.Print(n);
    assert forall i :: 0 <= i < |s| ==> Decimal.IsDigit(s[i]);
  }

  lemma MinusSign(b: Bytes)
    ensures Chars([45] + b) == "-" + Chars(b) && Chars(([45] + b)[..1]) == "-" && ([45] + b)[1..] == b
  {
    var s := [45] + b;
    assert |Chars(s)| == |"-" + Chars(b)|;
    forall i | 0 <= i < |s| ensures Chars(s)[i] == ("-" + Chars(b))[i] {
      assert Chars(s)[i] == s[i] as char;
    }
  }

  /** The text of a number is a numeral of it, a minus sign for a negative number and no leading zero. */
  lemma StrIsNumeral(n: int)
    ensures Decimal.ParseInt(Chars(Str(Numbered(n)))) == Some(n)
    ensures n >= 0 ==> Decimal.Numeral(Chars(Str(Numbered(n))))
    ensures n < 0 ==> Chars(Str(Numbered(n))[..1]) == "-" && Decimal.Numeral(Chars(Str(Numbered(n))[1..]))
  {
    hide Digits, Decimal.Print, Decimal.ParseInt, Decimal.Numeral;
    var m: nat := if n < 0 then -n else n;
    DigitsAreChars(m);
    Decimal.SignedReads(m);
    Decimal.PrintIsNumeral(m);
    MinusSign(Digits(m));
  }

  function OrNone<J>(json: Json<J>, v: Option<J>): J {
    match v case Some(j) => j case None => json.none
  }

  /** The message a payload stands for: its id as a text, whatever is omitted as null. */
  function Meaning<J>(json: Json<J>, p: Payload<J>): Message<J> {
    match p
    case Success(id, result) => SuccessMsg(Text(Str(id)), OrNone(json, result))
    case Failure(id, code, msg) => FailureMsg(Text(Str(id)), Text(code), Text(msg))
    case Request(id, name, params) => RequestMsg(Text(Str(id)), Text(name), OrNone(json, params))
    case Notification(name, params) => NotificationMsg(Text(name), OrNone(json, params))
  }

  // ------------------------------------------------------------------
  // Encoding; None where `struct.pack` raises because a length needs more than 32 bits
  // ------------------------------------------------------------------

  /** Big-endian. */
  function U32(n: nat): (b: Bytes)
    requires n < TWO_32
    ensures |b| == 4
  {
    [n / 0x100_0000, n / 0x1_0000 % 0x100, n / 0x100 % 0x100, n % 0x100]
  }

  datatype Field = Field(name: Bytes, value: Value)

  function EncodeField(f: Field): Option<Bytes> {
    if |f.name| >= TWO_32 then None
    else
      match f.value
      case Text(t) =>
        if |t| >= TWO_32 then None
        else Some([NAMED_STRING] + U32(|f.name|) + f.name + U32(|t|) + t)
      case Num(n) => Some([NAMED_BYTE] + U32(|f.name|) + f.name + [n])
  }

  function EncodeFields(fs: seq<Field>): Option<Bytes> {
    if fs == [] then Some([])
    else
      match (EncodeField(fs[0]), EncodeFields(fs[1..]))
      case (Some(a), Some(b)) => Some(a + b)
      case _ => None
  }

  function EncodeArray(fs: seq<Field>): Option<Bytes>
    requires |fs| < TWO_32
  {
    match EncodeFields(fs)
    case None => None
    case Some(body) =>
      if |body| >= TWO_32 then None else Some([ARRAY] + U32(|body|) + U32(|fs|) + body)
  }

  function ParamsText<J>(json: Json<J>, params: Option<J>): Bytes {
    match params case None => NULL case Some(j) => json.dumps(j)
  }

  function Fields<J>(json: Json<J>, p: Payload<J>): (fs: seq<Field>)
    ensures |fs| < 5
  {
    match p
    case Success(id, result) =>
      [Field(ID, Text(Str(id))), Field(OK, Num(1)), Field(RESULT, Text(json.dumps(OrNone(json, result))))]
    case Failure(id, code, msg) =>
      [Field(ID, Text(Str(id))), Field(OK, Num(0)), Field(CODE, Text(code)), Field(MSG, Text(msg))]
    case Request(id, name, params) =>
      [Field(ID, Text(Str(id))), Field(METHOD, Text(name)), Field(PARAMS, Text(ParamsText(json, params)))]
    case Notification(name, params) =>
      [Field(METHOD, Text(name)), Field(PARAMS, Text(ParamsText(json, params)))]
  }

  function Encode<J>(json: Json<J>, p: Payload<J>): Option<Bytes> {
    EncodeArray(Fields(json, p))
  }

  // ------------------------------------------------------------------
  // Decoding
  // ------------------------------------------------------------------

  /** Why `decode` raises: data ran out, a type byte it does not know, a missing method, bad JSON, or no
      message type that fits. */
  datatype DecodeError = ShortData | BadType(byte: Byte) | MissingMethod | BadJson | UnknownKind

  /** A value read and the position after it. */
  datatype Read<+T> = Read(item: T, pos: nat)

  function ReadU8(data: Bytes, pos: nat): Result<Read<Byte>, DecodeError> {
    if pos < |data| then Ok(Read(data[pos], pos + 1)) else Err(ShortData)
  }

  function ReadU32(data: Bytes, pos: nat): Result<Read<nat>, DecodeError> {
    if pos + 4 <= |data| then
      var n: int := data[pos] as int * 0x100_0000 + data[pos + 1] as int * 0x1_0000
                    + data[pos + 2] as int * 0x100 + data[pos + 3] as int;
      Ok(Read(n, pos + 4))
    else Err(ShortData)
  }

  /** A Python slice: it does not fail when the data is short. */
  function Slice(data: Bytes, lo: nat, hi: nat): Bytes
    requires lo <= hi
  {
    data[(if lo <= |data| then lo else |data|)..(if hi <= |data| then hi else |data|)]
  }

  function ReadStr(data: Bytes, pos: nat): Result<Read<Bytes>, DecodeError> {
    match ReadU32(data, pos)
    case Err(e) => Err(e)
    case Ok(Read(n, p)) => Ok(Read(Slice(data, p, p + n), p + n))
  }

  function ReadField(data: Bytes, pos: nat): Result<Read<Field>, DecodeError> {
    match ReadU8(data, pos)
    case Err(e) => Err(e)
    case Ok(Read(t, p)) =>
      if t != NAMED_STRING && t != NAMED_BYTE then Err(BadType(t))
      else
        match ReadStr(data, p)
        case Err(e) => Err(e)
        case Ok(Read(name, q)) =>
          if t == NAMED_STRING then
            (match ReadStr(data, q) case Err(e) => Err(e) case Ok(Read(v, r)) => Ok(Read(Field(name, Text(v)), r)))
          else
            (match ReadU8(data, q) case Err(e) => Err(e) case Ok(Read(v, r)) => Ok(Read(Field(name, Num(v)), r)))
  }

  /** Reads `count` fields into the dictionary; a repeated name keeps its last value. */
  function ReadFields(data: Bytes, pos: nat, count: nat, dict: map<Bytes, Value>): Result<map<Bytes, Value>, DecodeError>
    decreases count
  {
    if count == 0 then Ok(dict)
    else
      match ReadField(data, pos)
      case Err(e) => Err(e)
      case Ok(Read(f, p)) => ReadFields(data, p, count - 1, dict[f.name := f.value])
  }

  function Get(dict: map<Bytes, Value>, name: Bytes, default: Value): Value {
    if name in dict then dict[name] else default
  }

  predicate Truthy(v: Value) {
    match v case Text(t) => t != [] case Num(n) => n != 0
  }

  function Load<J>(json: Json<J>, v: Value): Result<J, DecodeError> {
    if v == Text(NULL) then Ok(json.none)
    else
      match v
      case Num(_) => Err(BadJson)
      case Text(t) => (match json.loads(t) case Some(j) => Ok(j) case None => Err(BadJson))
  }

  function Classify<J>(json: Json<J>, dict: map<Bytes, Value>): Result<Message<J>, DecodeError> {
    if ID in dict && OK in dict then
      if Truthy(dict[OK]) then
        (match Load(json, Get(dict, RESULT, Text(NULL)))
         case Err(e) => Err(e)
         case Ok(j) => Ok(SuccessMsg(dict[ID], j)))
      else Ok(FailureMsg(dict[ID], Get(dict, CODE, Text([])), Get(dict, MSG, Text([]))))
    else if ID in dict then
      (match Load(json, Get(dict, PARAMS, Text(NULL)))
       case Err(e) => Err(e)
       case Ok(j) => if METHOD in dict then Ok(RequestMsg(dict[ID], dict[METHOD], j)) else Err(MissingMethod))
    else if METHOD in dict then
      (match Load(json, Get(dict, PARAMS, Text(NULL)))
       case Err(e) => Err(e)
       case Ok(j) => Ok(NotificationMsg(dict[METHOD], j)))
    else Err(UnknownKind)
  }

  /** The decoder's specification: type byte, ignored length, field count, fields. */
  function Decode<J>(json: Json<J>, data: Bytes): Result<Message<J>, DecodeError> {
    if |data| == 0 then Err(ShortData)
    else if data[0] != ARRAY then Err(BadType(data[0]))
    else
      match ReadU32(data, 1)
      case Err(e) => Err(e)
      case Ok(Read(_, p)) =>
        match ReadU32(data, p)
        case Err(e) => Err(e)
        case Ok(Read(count, q)) =>
          match ReadFields(data, q, count, map[])
          case Err(e) => Err(e)
          case Ok(dict) => Classify(json, dict)
  }

  /** The decoder's cursor: the `pos` that its nested readers advance. A reader that raises leaves `None`
      in its result and the decoder stops. */
  class Cursor {
    const data: Bytes
    var pos: nat

    constructor (data: Bytes)
      ensures this.data == data && pos == 0
    {
      this.data := data;
      pos := 0;
    }

    method U8() returns (r: Result<Byte, DecodeError>)
      modifies this
      ensures match ReadU8(data, old(pos))
              case Ok(Read(v, p)) => r == Ok(v) && pos == p
              case Err(e) => r == Err(e)
    {
      if pos >= |data| {
        return Err(ShortData);
      }
      r := Ok(data[pos]);
      pos := pos + 1;
    }

    method U32() returns (r: Result<nat, DecodeError>)
      modifies this
      ensures match ReadU32(data, old(pos))
              case Ok(Read(v, p)) => r == Ok(v) && pos == p
              case Err(e) => r == Err(e)
    {
      if pos + 4 > |data| {
        return Err(ShortData);
      }
      r := Ok(ReadU32(data, pos).value.item);
      pos := pos + 4;
    }

    method Str() returns (r: Result<Bytes, DecodeError>)
      modifies this
      ensures match ReadStr(data, old(pos))
              case Ok(Read(v, p)) => r == Ok(v) && pos == p
              case Err(e) => r == Err(e)
    {
      var n := U32();
      if n.Err? {
        return Err(n.error);
      }
      r := Ok(Slice(data, pos, pos + n.value));
      pos := pos + n.value;
    }

    /** One turn of the field loop. */
    method NextField() returns (r: Result<Field, DecodeError>)
      modifies this
      ensures match ReadField(data, old(pos))
              case Ok(Read(f, p)) => r == Ok(f) && pos == p
              case Err(e) => r == Err(e)
    {
      var t := U8();
      if t.Err? {
        return Err(t.error);
      }
      if t.value != NAMED_STRING && t.value != NAMED_BYTE {
        return Err(BadType(t.value));
      }
      var name := Str();
      if name.Err? {
        return Err(name.error);
      }
      if t.value == NAMED_STRING {
        var text := Str();
        if text.Err? {
          return Err(text.error);
        }
        return Ok(Field(name.value, Text(text.value)));
      }
      var num := U8();
      if num.Err? {
        return Err(num.error);
      }
      return Ok(Field(name.value, Num(num.value)));
    }
  }

  /** The field loop. */
  method ReadDict(cursor: Cursor, count: nat) returns (r: Result<map<Bytes, Value>, DecodeError>)
    modifies cursor
    ensures r == ReadFields(cursor.data, old(cursor.pos), count, map[])
  {
    hide ReadField;
    var dict: map<Bytes, Value> := map[];
    for k := 0 to count
      invariant ReadFields(cursor.data, cursor.pos, count - k, dict) == ReadFields(cursor.data, old(cursor.pos), count, map[])
    {
      var f := cursor.NextField();
      if f.Err? {
        return Err(f.error);
      }
      dict := dict[f.value.name := f.value.value];
    }
    r := Ok(dict);
  }

  method DecodeData<J>(json: Json<J>, data: Bytes) returns (r: Result<Message<J>, DecodeError>)
    ensures r == Decode(json, data)
  {
    var cursor := new Cursor(data);
    var t := cursor.U8();
    if t.Err? {
      return Err(t.error);
    }
    if t.value != ARRAY {
      return Err(BadType(t.value));
    }
    var length := cursor.U32();
    if length.Err? {
      return Err(length.error);
    }
    var count := cursor.U32();
    if count.Err? {
      return Err(count.error);
    }
    var dict := ReadDict(cursor, count.value);
    if dict.Err? {
      return Err(dict.error);
    }
    r := Classify(json, dict.value);
  }
}
