/** Encoding and decoding BRPC messages undo each other. */
module BrpcTheorems {
  import opened Common
  import opened Brpc

  /** `e` stands in the data at `pos`. */
  ghost predicate At(data: Bytes, pos: nat, e: Bytes) {
    pos + |e| <= |data| && data[pos..pos + |e|] == e
  }

  lemma AtSplit(data: Bytes, pos: nat, a: Bytes, b: Bytes)
    requires At(data, pos, a + b)
    ensures At(data, pos, a) && At(data, pos + |a|, b)
  {
    assert data[pos..pos + |a|] == data[pos..pos + |a + b|][..|a|];
    assert data[pos + |a|..pos + |a| + |b|] == data[pos..pos + |a + b|][|a|..];
  }

  lemma U32Digits(n: nat)
    requires n < TWO_32
    ensures U32(n)[0] as int * 0x100_0000 + U32(n)[1] as int * 0x1_0000 + U32(n)[2] as int * 0x100 + U32(n)[3] as int == n
  {
    assert n / 0x1_0000 == (n / 0x100) / 0x100;
    assert n / 0x100_0000 == (n / 0x1_0000) / 0x100;
  }

  lemma U32RoundTrip(n: nat, data: Bytes, pos: nat)
    requires n < TWO_32 && At(data, pos, U32(n))
    ensures ReadU32(data, pos) == Ok(Read(n, pos + 4))
  {
    U32Digits(n);
    var b := U32(n);
    assert data[pos..pos + 4] == b;
    assert data[pos] == b[0] && data[pos + 1] == b[1] && data[pos + 2] == b[2] && data[pos + 3] == b[3];
  }

  lemma StrRoundTrip(s: Bytes, data: Bytes, pos: nat)
    requires |s| < TWO_32 && At(data, pos, U32(|s|) + s)
    ensures ReadStr(data, pos) == Ok(Read(s, pos + 4 + |s|))
  {
    AtSplit(data, pos, U32(|s|), s);
    U32RoundTrip(|s|, data, pos);
  }

  lemma ByteRoundTrip(v: Byte, data: Bytes, pos: nat)
    requires At(data, pos, [v])
    ensures ReadU8(data, pos) == Ok(Read(v, pos + 1))
  {
    assert data[pos] == data[pos..pos + 1][0];
  }

  lemma NameRoundTrip(t: Byte, name: Bytes, v: Bytes, data: Bytes, pos: nat)
    requires |name| < TWO_32 && At(data, pos, [t] + ((U32(|name|) + name) + v))
    ensures ReadU8(data, pos) == Ok(Read(t, pos + 1))
    ensures ReadStr(data, pos + 1) == Ok(Read(name, pos + 5 + |name|))
    ensures At(data, pos + 5 + |name|, v)
  {
    var n := U32(|name|) + name;
    AtSplit(data, pos, [t], n + v);
    AtSplit(data, pos + 1, n, v);
    ByteRoundTrip(t, data, pos);
    StrRoundTrip(name, data, pos + 1);
  }

  lemma TextFieldRoundTrip(name: Bytes, t: Bytes, data: Bytes, pos: nat)
    requires |name| < TWO_32 && |t| < TWO_32
    requires At(data, pos, [NAMED_STRING] + ((U32(|name|) + name) + (U32(|t|) + t)))
    ensures ReadField(data, pos) == Ok(Read(Field(name, Text(t)), pos + 9 + |name| + |t|))
  {
    hide U32, At, ReadStr;
    NameRoundTrip(NAMED_STRING, name, U32(|t|) + t, data, pos);
    StrRoundTrip(t, data, pos + 5 + |name|);
  }

  lemma ByteFieldRoundTrip(name: Bytes, v: Byte, data: Bytes, pos: nat)
    requires |name| < TWO_32
    requires At(data, pos, [NAMED_BYTE] + ((U32(|name|) + name) + [v]))
    ensures ReadField(data, pos) == Ok(Read(Field(name, Num(v)), pos + 6 + |name|))
  {
    hide U32, At, ReadStr;
    NameRoundTrip(NAMED_BYTE, name, [v], data, pos);
    ByteRoundTrip(v, data, pos + 5 + |name|);
  }

  /** A field is read back wherever its encoding stands in the data. */
  lemma FieldRoundTrip(f: Field, data: Bytes, pos: nat)
    requires EncodeField(f).Some? && At(data, pos, EncodeField(f).value)
    ensures ReadField(data, pos) == Ok(Read(f, pos + |EncodeField(f).value|))
    ensures EncodeField(f).value[0] == if f.value.Text? then 14 else 10
  {
    hide U32, ReadField, At;
    var n := U32(|f.name|) + f.name;
    match f.value
    case Text(t) =>
      assert EncodeField(f).value == [NAMED_STRING] + (n + (U32(|t|) + t));
      TextFieldRoundTrip(f.name, t, data, pos);
    case Num(v) =>
      assert EncodeField(f).value == [NAMED_BYTE] + (n + [v]);
      ByteFieldRoundTrip(f.name, v, data, pos);
  }

  /** The dictionary the fields build up. */
  function Insert(dict: map<Bytes, Value>, fs: seq<Field>): map<Bytes, Value>
    decreases |fs|
  {
    if fs == [] then dict else Insert(dict[fs[0].name := fs[0].value], fs[1..])
  }

  lemma FirstField(fs: seq<Field>, data: Bytes, pos: nat) returns (next: nat)
    requires fs != [] && EncodeFields(fs).Some? && At(data, pos, EncodeFields(fs).value)
    ensures ReadField(data, pos) == Ok(Read(fs[0], next))
    ensures EncodeFields(fs[1..]).Some? && At(data, next, EncodeFields(fs[1..]).value)
  {
    hide EncodeField, ReadField;
    var a, b := EncodeField(fs[0]).value, EncodeFields(fs[1..]).value;
    assert EncodeFields(fs).value == a + b;
    AtSplit(data, pos, a, b);
    FieldRoundTrip(fs[0], data, pos);
    next := pos + |a|;
  }

  lemma ReadFieldsStep(data: Bytes, pos: nat, count: nat, dict: map<Bytes, Value>, f: Field, next: nat)
    requires ReadField(data, pos) == Ok(Read(f, next))
    ensures ReadFields(data, pos, count + 1, dict) == ReadFields(data, next, count, dict[f.name := f.value])
  {
  }

  lemma {:induction false} FieldsRoundTrip(fs: seq<Field>, data: Bytes, pos: nat, dict: map<Bytes, Value>)
    requires EncodeFields(fs).Some? && At(data, pos, EncodeFields(fs).value)
    ensures ReadFields(data, pos, |fs|, dict) == Ok(Insert(dict, fs))
    decreases |fs|
  {
    hide EncodeField, ReadField, At;
    if fs == [] {
    } else {
      var next := FirstField(fs, data, pos);
      var rest, grown := fs[1..], dict[fs[0].name := fs[0].value];
      ReadFieldsStep(data, pos, |rest|, dict, fs[0], next);
      FieldsRoundTrip(rest, data, next, grown);
      assert Insert(dict, fs) == Insert(grown, rest);
    }
  }

  /** The stored byte length and field count are exact: the header announces the bytes that follow it and
      the number of fields they hold, and reading that many fields gives back those fields. */
  lemma HeaderIsExact(fs: seq<Field>)
    requires |fs| < TWO_32 && EncodeArray(fs).Some?
    ensures var data := EncodeArray(fs).value;
            && |data| >= 9 && data[0] == 5
            && ReadU32(data, 1) == Ok(Read(|data| - 9, 5)) && ReadU32(data, 5) == Ok(Read(|fs|, 9))
            && ReadFields(data, 9, |fs|, map[]) == Ok(Insert(map[], fs))
  {
    var body := EncodeFields(fs).value;
    var data := EncodeArray(fs).value;
    assert At(data, 1, U32(|body|)) && At(data, 5, U32(|fs|)) && At(data, 9, body);
    U32RoundTrip(|body|, data, 1);
    U32RoundTrip(|fs|, data, 5);
    FieldsRoundTrip(fs, data, 9, map[]);
  }

  lemma InsertThree(a: Field, b: Field, c: Field)
    ensures Insert(map[], [a, b, c]) == map[][a.name := a.value][b.name := b.value][c.name := c.value]
  {
    assert [a, b, c][1..] == [b, c] && [b, c][1..] == [c] && [c][1..] == [];
    var m0: map<Bytes, Value> := map[];
    var m1 := m0[a.name := a.value];
    var m2 := m1[b.name := b.value];
    assert Insert(m0, [a, b, c]) == Insert(m1, [b, c]);
    assert Insert(m1, [b, c]) == Insert(m2, [c]);
  }

  /** The text of the null value reads as null, and no other value prints like it. */
  lemma LoadOfDumps<J(!new)>(json: Json<J>, v: J)
    requires Lawful(json)
    ensures Load(json, Text(json.dumps(v))) == Ok(v)
  {
    assert json.loads(json.dumps(v)) == Some(v);
    assert json.loads(json.dumps(json.none)) == Some(json.none);
  }

  lemma ClassifySuccess<J(!new)>(json: Json<J>, id: Bytes, result: J)
    requires Lawful(json)
    ensures Classify(json, Insert(map[], [Field(ID, Text(id)), Field(OK, Num(1)), Field(RESULT, Text(json.dumps(result)))]))
         == Ok(SuccessMsg(Text(id), result))
  {
    InsertThree(Field(ID, Text(id)), Field(OK, Num(1)), Field(RESULT, Text(json.dumps(result))));
    LoadOfDumps(json, result);
  }

  lemma ClassifyFailure<J>(json: Json<J>, id: Bytes, code: Bytes, msg: Bytes)
    ensures Classify(json, Insert(map[], [Field(ID, Text(id)), Field(OK, Num(0)), Field(CODE, Text(code)), Field(MSG, Text(msg))]))
         == Ok(FailureMsg(Text(id), Text(code), Text(msg)))
  {
    var front := [Field(ID, Text(id)), Field(OK, Num(0)), Field(CODE, Text(code))];
    InsertThree(front[0], front[1], front[2]);
    InsertLast(front, Field(MSG, Text(msg)));
    assert front + [Field(MSG, Text(msg))]
        == [Field(ID, Text(id)), Field(OK, Num(0)), Field(CODE, Text(code)), Field(MSG, Text(msg))];
  }

  lemma ParamsLoad<J(!new)>(json: Json<J>, params: Option<J>)
    requires Lawful(json)
    ensures Load(json, Text(ParamsText(json, params))) == Ok(OrNone(json, params))
  {
    if params.Some? {
      LoadOfDumps(json, params.value);
    }
  }

  lemma ClassifyRequest<J(!new)>(json: Json<J>, id: Bytes, name: Bytes, params: Option<J>)
    requires Lawful(json)
    ensures Classify(json, Insert(map[], [Field(ID, Text(id)), Field(METHOD, Text(name)), Field(PARAMS, Text(ParamsText(json, params)))]))
         == Ok(RequestMsg(Text(id), Text(name), OrNone(json, params)))
  {
    InsertThree(Field(ID, Text(id)), Field(METHOD, Text(name)), Field(PARAMS, Text(ParamsText(json, params))));
    ParamsLoad(json, params);
  }

  lemma ClassifyNotification<J(!new)>(json: Json<J>, name: Bytes, params: Option<J>)
    requires Lawful(json)
    ensures Classify(json, Insert(map[], [Field(METHOD, Text(name)), Field(PARAMS, Text(ParamsText(json, params)))]))
         == Ok(NotificationMsg(Text(name), OrNone(json, params)))
  {
    var a, b := Field(METHOD, Text(name)), Field(PARAMS, Text(ParamsText(json, params)));
    InsertLast([], a);
    InsertLast([a], b);
    assert [] + [a] == [a] && [a] + [b] == [a, b];
    ParamsLoad(json, params);
  }

  lemma ClassifyFields<J(!new)>(json: Json<J>, p: Payload<J>)
    requires Lawful(json)
    ensures Classify(json, Insert(map[], Fields(json, p))) == Ok(Meaning(json, p))
  {
    match p
    case Success(id, result) => ClassifySuccess(json, Str(id), OrNone(json, result));
    case Failure(id, code, msg) => ClassifyFailure(json, Str(id), code, msg);
    case Request(id, name, params) => ClassifyRequest(json, Str(id), name, params);
    case Notification(name, params) => ClassifyNotification(json, name, params);
  }

  lemma {:induction false} InsertOnto(dict: map<Bytes, Value>, fs: seq<Field>, f: Field)
    ensures Insert(dict, fs + [f]) == Insert(dict, fs)[f.name := f.value]
    decreases |fs|
  {
    if fs == [] {
      assert (fs + [f])[1..] == [];
    } else {
      assert (fs + [f])[1..] == fs[1..] + [f];
      InsertOnto(dict[fs[0].name := fs[0].value], fs[1..], f);
    }
  }

  lemma InsertLast(fs: seq<Field>, f: Field)
    ensures Insert(map[], fs + [f]) == Insert(map[], fs)[f.name := f.value]
  {
    InsertOnto(map[], fs, f);
  }

  /** Decoding an encoded success response, error response, request or notification gives back the
      message, whenever its lengths fit the format. */
  lemma MessageRoundTrip<J(!new)>(json: Json<J>, p: Payload<J>)
    requires Lawful(json) && Encode(json, p).Some?
    ensures Decode(json, Encode(json, p).value) == Ok(Meaning(json, p))
  {
    HeaderIsExact(Fields(json, p));
    ClassifyFields(json, p);
  }

  // ------------------------------------------------------------------
  // Messages from other encoders
  // ------------------------------------------------------------------

  /** What decoding makes of any array of fields, in any order and with any names: the last value of each name counts. */
  lemma DecodeOfFields<J>(json: Json<J>, fs: seq<Field>)
    requires |fs| < TWO_32 && EncodeArray(fs).Some?
    ensures Decode(json, EncodeArray(fs).value) == Classify(json, Insert(map[], fs))
  {
    HeaderIsExact(fs);
  }

  /** Fields left out: a result or params read as null, an error's code and message as empty; an id alone lacks
      its method, and no id and no method is no message. */
  lemma FieldsLeftOut<J>(json: Json<J>, id: Bytes, name: Bytes)
    ensures var f, m := Field(ID, Text(id)), Field(METHOD, Text(name));
            && Classify(json, Insert(map[], [f, Field(OK, Num(1))])) == Ok(SuccessMsg(Text(id), json.none))
            && Classify(json, Insert(map[], [f, Field(OK, Num(0))])) == Ok(FailureMsg(Text(id), Text([]), Text([])))
            && Classify(json, Insert(map[], [f, m])) == Ok(RequestMsg(Text(id), Text(name), json.none))
            && Classify(json, Insert(map[], [f])) == Err(MissingMethod)
            && Classify(json, Insert(map[], [m])) == Ok(NotificationMsg(Text(name), json.none))
            && Classify(json, Insert(map[], [])) == Err(UnknownKind)
  {
    var f, m := Field(ID, Text(id)), Field(METHOD, Text(name));
    InsertTwo(f, Field(OK, Num(1)));
    InsertTwo(f, Field(OK, Num(0)));
    InsertTwo(f, m);
    InsertOne(f);
    InsertOne(m);
    hide Insert;
  }

  lemma InsertOne(a: Field)
    ensures Insert(map[], [a]) == map[][a.name := a.value]
  {
    InsertLast([], a);
    assert [] + [a] == [a];
  }

  lemma InsertTwo(a: Field, b: Field)
    ensures Insert(map[], [a, b]) == map[][a.name := a.value][b.name := b.value]
  {
    InsertOne(a);
    InsertLast([a], b);
    assert [a] + [b] == [a, b];
  }

  /** A text that claims more bytes than there are is what is left of the data, and reading on fails. */
  lemma ShortTextIsCut(data: Bytes, pos: nat)
    requires ReadU32(data, pos).Ok? && pos + 4 + ReadU32(data, pos).value.item > |data|
    ensures ReadStr(data, pos).Ok? && ReadStr(data, pos).value.item == data[pos + 4..]
    ensures ReadField(data, ReadStr(data, pos).value.pos) == Err(ShortData)
  {
  }

  // ------------------------------------------------------------------
  // The names on the wire
  // ------------------------------------------------------------------

  function Names(fs: seq<Field>): (names: seq<string>)
    ensures |names| == |fs|
  {
    seq(|fs|, i requires 0 <= i < |fs| => Chars(fs[i].name))
  }

  /** The field names of the four kinds of messages, in the order they are sent, and the text of what is left out. */
  lemma NamesOnTheWire<J(!new)>(json: Json<J>, p: Payload<J>)
    requires Lawful(json)
    ensures Names(Fields(json, p)) == match p
                                      case Success(_, _) => ["id", "ok", "result"]
                                      case Failure(_, _, _) => ["id", "ok", "code", "msg"]
                                      case Request(_, _, _) => ["id", "method", "params"]
                                      case Notification(_, _) => ["method", "params"]
    ensures Chars(json.dumps(json.none)) == "null" && Chars(ParamsText(json, None)) == "null"
  {
    NameTexts();
    hide Chars, ID, OK, RESULT, CODE, MSG, METHOD, PARAMS;
  }

  lemma NameTexts()
    ensures Chars(ID) == "id" && Chars(OK) == "ok" && Chars(RESULT) == "result" && Chars(CODE) == "code"
    ensures Chars(MSG) == "msg" && Chars(METHOD) == "method" && Chars(PARAMS) == "params" && Chars(NULL) == "null"
  {
  }
}
