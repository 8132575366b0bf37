/** The records frames are written as and read from, field by field, and what becomes of every other line. */
module FrameForms {
  import opened Text
  import opened OutputBound
  import opened FrameCodec

  const VERSION := Str("2.0")

  function Id(id: RpcId): Json {
    match id case IdNumber(n) => Whole(n) case IdText(s) => Str(s)
  }

  /**
   Every record names the version. A request names its method, and an id and parameters where it has them; a response
   its id, and a result or an error. An error that answers nothing has a null id.
   */
  lemma RecordOf(id: RpcId, name: string, v: Json, code: int, message: string)
    ensures FromMessage(Call(Some(id), name, Some(v)))
         == Obj(map["jsonrpc" := VERSION, "id" := Id(id), "method" := Str(name), "params" := v])
    ensures FromMessage(Call(Some(id), name, None))
      == Obj(map["jsonrpc" := VERSION, "id" := Id(id), "method" := Str(name)])
    ensures FromMessage(Call(None, name, Some(v)))
      == Obj(map["jsonrpc" := VERSION, "method" := Str(name), "params" := v])
    ensures FromMessage(Call(None, name, None)) == Obj(map["jsonrpc" := VERSION, "method" := Str(name)])
    ensures FromMessage(Success(id, v)) == Obj(map["jsonrpc" := VERSION, "id" := Id(id), "result" := v])
    ensures FromMessage(Failure(Some(id), code, message, Some(v)))
         == Obj(map["jsonrpc" := VERSION, "id" := Id(id),
                    "error" := Obj(map["code" := Whole(code), "message" := Str(message), "data" := v])])
    ensures FromMessage(Failure(None, code, message, None))
         == Obj(map["jsonrpc" := VERSION, "id" := Null,
                    "error" := Obj(map["code" := Whole(code), "message" := Str(message)])])
  {
    var version := map["jsonrpc" := VERSION];
    assert version["method" := Str(name)]["id" := Id(id)]["params" := v]
        == map["jsonrpc" := VERSION, "id" := Id(id), "method" := Str(name), "params" := v];
    assert version["method" := Str(name)]["params" := v]
      == map["jsonrpc" := VERSION, "method" := Str(name), "params" := v];
  }

  predicate Has(v: Json, name: string) {
    v.Obj? && name in v.fields
  }

  predicate HasId(v: Json) {
    Has(v, "id") && (v.fields["id"].Whole? || v.fields["id"].Str?)
  }

  predicate IsErrorRecord(v: Json) {
    && Has(v, "code") && v.fields["code"].Whole? && Has(v, "message") && v.fields["message"].Str?
  }

  /**
   A record is a message exactly when it names the version and is an error, with an id, a null one or none; or a request
   without a result, with an id or none; or a result with an id.
   */
  lemma IsMessageRecord(v: Json)
    ensures ToJsonRpcMessage(v).Some? <==>
              && Has(v, "jsonrpc") && v.fields["jsonrpc"] == VERSION
              && (if Has(v, "error") then
                    IsErrorRecord(v.fields["error"]) && (!Has(v, "id") || v.fields["id"] == Null || HasId(v))
                  else if Has(v, "method") then
                    v.fields["method"].Str? && !Has(v, "result") && (!Has(v, "id") || HasId(v))
                  else HasId(v) && Has(v, "result"))
  {
  }

  /** A line's value names a stream. */
  predicate Names(v: Json, s: nat) {
    Has(v, "s") && v.fields["s"] == Whole(s)
  }

  /** A line that is no record, or names no stream, is malformed and names none. */
  lemma NamesNone(c: Codec, line: Text)
    requires c.parse(line) == None || forall s: nat :: !Names(c.parse(line).value, s)
    ensures DecodeFrame(c, line) == Malformed(None)
  {
    if c.parse(line).Some? {
      var v := c.parse(line).value;
      if Has(v, "s") && v.fields["s"].Whole? && v.fields["s"].n >= 0 {
        assert Names(v, v.fields["s"].n);
      }
    }
  }

  /**
   A line that names a stream is a frame of it when its message is one within the bound of a mebibyte; it is told apart
   when the message is over the bound, and is malformed otherwise. The stream is named in each case.
   */
  lemma NamesOne(c: Codec, line: Text, s: nat)
    requires c.parse(line).Some? && Names(c.parse(line).value, s)
    ensures var v := c.parse(line).value;
            var oversize := Has(v, "m") && ByteLength(c.stringify(v.fields["m"])) > 0x10_0000;
            var message := if Has(v, "m") then ToJsonRpcMessage(v.fields["m"]) else None;
            DecodeFrame(c, line) == if oversize then OversizeMessage(s)
                                    else if message.Some? then Ok(Frame(s, message.value))
                                    else Malformed(Some(s))
  {
    hide ToJsonRpcMessage, ByteLength;
  }

  /** A frame is written exactly when its message is within that bound. */
  lemma WrittenWithin(c: Codec, f: Frame)
    ensures EncodeFrame(c, f).Some? <==> ByteLength(c.stringify(FromMessage(f.m))) <= 0x10_0000
    ensures EncodeFrame(c, f).Some? ==>
              EncodeFrame(c, f).value == c.stringify(Obj(map["s" := Whole(f.s), "m" := FromMessage(f.m)])) + [LF]
  {
    hide ByteLength, FromMessage;
  }
}
