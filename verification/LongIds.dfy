/**
 A request that arrives under an id so long that no answer fits: the error under one id is longer than the
 request under it, so there are ids for which the one is within the bound and the other is not.
 */
module LongIds {
  import opened Text
  import opened OutputBound
  import opened Multiplexer
  import opened Wire
  import FrameCodec
  import LawfulCodec

  // Sizes of what the plain codec writes.

  lemma Adds(a: Text, b: Text)
    requires LawfulCodec.OneLine(a)
    ensures ByteLength(a + b) == ByteLength(a) + ByteLength(b)
  {
    BytesJoin(a, b);
  }

  lemma OneUnit(c: CodeUnit)
    requires c < 0x80
    ensures ByteLength([c]) == 1
  {
    var t := [c];
    assert t[1..] == [];
  }

  lemma TwoBytes(c: CodeUnit)
    requires 0x80 <= c <= 0x7FF
    ensures ByteLength([c]) == 2
  {
    var t := [c];
    assert t[1..] == [];
  }

  /** An ASCII text takes four bytes a character. */
  lemma {:induction false} AsciiBytes(s: string)
    requires forall k :: 0 <= k < |s| ==> s[k] as int < 0x80
    ensures ByteLength(LawfulCodec.Characters(s)) == 4 * |s|
    decreases |s|
  {
    if s != [] {
      var first := LawfulCodec.Character(s[0]);
      TwoBytes(0x100);
      TwoBytes(0x100 + s[0] as int);
      Adds([0x100], [0x100 + s[0] as int]);
      assert first == [0x100] + [0x100 + s[0] as int];
      hide ByteLength;
      AsciiBytes(s[1..]);
      Adds(first, LawfulCodec.Characters(s[1..]));
    }
  }

  lemma StringBytes(s: string)
    requires forall k :: 0 <= k < |s| ==> s[k] as int < 0x80
    ensures ByteLength(LawfulCodec.Write(FrameCodec.Str(s))) == 4 * |s| + 2
    ensures ByteLength(LawfulCodec.Characters(s) + [LawfulCodec.END]) == 4 * |s| + 1
  {
    hide ByteLength, LawfulCodec.Characters;
    AsciiBytes(s);
    LawfulCodec.StringIsOneLine(s);
    LawfulCodec.CharactersAreLarge(s);
    OneUnit(LawfulCodec.END);
    OneUnit(0x53);
    Adds(LawfulCodec.Characters(s), [LawfulCodec.END]);
    Adds(LawfulCodec.STRING, LawfulCodec.Characters(s) + [LawfulCodec.END]);
  }

  /** The bytes of a record's fields, those of `keys` only. */
  ghost function FieldsBytes(v: FrameCodec.Json, keys: set<string>): nat
    requires v.Obj? && keys <= v.fields.Keys
  {
    ByteLength(LawfulCodec.WriteFields(v, keys))
  }

  ghost function FieldBytes(v: FrameCodec.Json, k: string): nat
    requires v.Obj? && k in v.fields
  {
    1 + ByteLength(LawfulCodec.Characters(k) + [LawfulCodec.END]) + ByteLength(LawfulCodec.Write(v.fields[k]))
  }

  lemma PickedFirst(v: FrameCodec.Json, keys: set<string>)
    requires v.Obj? && keys <= v.fields.Keys && keys != {}
    ensures var k := LawfulCodec.Pick(keys); FieldsBytes(v, keys) == FieldBytes(v, k) + FieldsBytes(v, keys - {k})
  {
    hide ByteLength, LawfulCodec.Characters, LawfulCodec.Write, LawfulCodec.WriteFields, LawfulCodec.Pick;
    var k := LawfulCodec.Pick(keys);
    var name, value := LawfulCodec.Characters(k) + [LawfulCodec.END], LawfulCodec.Write(v.fields[k]);
    var more := LawfulCodec.WriteFields(v, keys - {k});
    LawfulCodec.FieldsAre(v, keys);
    LawfulCodec.StringIsOneLine(k);
    LawfulCodec.WritesOneLine(v.fields[k]);
    OneUnit(0x2C);
    Adds(LawfulCodec.MORE, name + (value + more));
    Adds(name, value + more);
    Adds(value, more);
  }

  /** In whatever order they are written, the fields' bytes add up. */
  lemma {:induction false} TakeField(v: FrameCodec.Json, keys: set<string>, k: string)
    requires v.Obj? && keys <= v.fields.Keys && k in keys
    ensures FieldsBytes(v, keys) == FieldBytes(v, k) + FieldsBytes(v, keys - {k})
    decreases |keys|
  {
    hide FieldsBytes, FieldBytes, LawfulCodec.Pick;
    var first := LawfulCodec.Pick(keys);
    PickedFirst(v, keys);
    if first != k {
      TakeField(v, keys - {first}, k);
      TakeField(v, keys - {k}, first);
      assert keys - {first} - {k} == keys - {k} - {first};
    }
  }

  lemma RecordBytes(v: FrameCodec.Json)
    requires v.Obj?
    ensures ByteLength(LawfulCodec.Write(v)) == 1 + FieldsBytes(v, v.fields.Keys)
    ensures FieldsBytes(v, {}) == 1
  {
    hide ByteLength, LawfulCodec.Write, LawfulCodec.WriteFields;
    LawfulCodec.WrittenIs(v);
    LawfulCodec.FieldsAre(v, {});
    OneUnit(LawfulCodec.END);
    OneUnit(0x4F);
    Adds([LawfulCodec.MarkOf(v)], LawfulCodec.AfterMark(v));
  }

  /** Three fields: three sizes, and the record's two marks. */
  lemma ThreeFields(v: FrameCodec.Json, a: string, b: string, c: string)
    requires v.Obj? && v.fields.Keys == {a, b, c} && a != b && b != c && a != c
    ensures ByteLength(LawfulCodec.Write(v)) == 2 + FieldBytes(v, a) + FieldBytes(v, b) + FieldBytes(v, c)
  {
    hide ByteLength, LawfulCodec.Write, FieldsBytes, FieldBytes;
    var keys := v.fields.Keys;
    RecordBytes(v);
    TakeField(v, keys, a);
    TakeField(v, keys - {a}, b);
    TakeField(v, keys - {a} - {b}, c);
    assert keys - {a} - {b} - {c} == {};
  }

  /** A record is longer than any field of it. */
  lemma OneField(v: FrameCodec.Json, a: string)
    requires v.Obj? && a in v.fields
    ensures ByteLength(LawfulCodec.Write(v)) > FieldBytes(v, a)
  {
    hide ByteLength, LawfulCodec.Write, FieldBytes;
    RecordBytes(v);
    TakeField(v, v.fields.Keys, a);
  }

  // The request and the error under one id.

  predicate Ascii(s: string) {
    forall k :: 0 <= k < |s| ==> s[k] as int < 0x80
  }

  function CallUnder(id: string, name: string): Message<Payload> {
    Request(Name(id), name, None)
  }

  function ErrorUnder(id: string, error: Payload): Message<Payload> {
    Failure(Some(Name(id)), error)
  }

  ghost function Size(m: Message<Payload>): nat
    requires WellFormed(m)
  {
    ByteLength(LawfulCodec.Write(FrameCodec.FromMessage(ToRpc(m))))
  }

  lemma CallBytes(id: string, name: string)
    requires Ascii(id) && Ascii(name)
    ensures Size(CallUnder(id, name)) == 86 + 4 * |name| + 4 * |id|
  {
    hide ByteLength, LawfulCodec.Characters, LawfulCodec.Write;
    var v := FrameCodec.FromMessage(ToRpc(CallUnder(id, name)));
    assert v.fields
      == map["jsonrpc" := FrameCodec.Str("2.0"), "method" := FrameCodec.Str(name), "id" := FrameCodec.Str(id)];
    assert v.fields.Keys == {"jsonrpc", "method", "id"};
    ThreeFields(v, "jsonrpc", "method", "id");
    StringBytes("jsonrpc"); StringBytes("method"); StringBytes("id");
    StringBytes("2.0"); StringBytes(name); StringBytes(id);
  }

  lemma ErrorBytes(id: string, error: Payload)
    requires Ascii(id) && error.Problem? && Ascii(error.message)
    ensures Size(ErrorUnder(id, error)) > 86 + 4 * |error.message| + 4 * |id|
  {
    hide ByteLength, LawfulCodec.Characters, LawfulCodec.Write;
    var v := FrameCodec.FromMessage(ToRpc(ErrorUnder(id, error)));
    assert v.fields.Keys == {"jsonrpc", "id", "error"};
    ThreeFields(v, "jsonrpc", "id", "error");
    var e := v.fields["error"];
    assert v.fields["id"] == FrameCodec.Str(id) && e.fields["message"] == FrameCodec.Str(error.message);
    OneField(e, "message");
    StringBytes("jsonrpc"); StringBytes("id"); StringBytes("error"); StringBytes("2.0"); StringBytes("message");
    StringBytes(error.message); StringBytes(id);
  }

  /** The longest id under which a request for `name` is within the bound. */
  function LongestId(name: string): string {
    if 86 + 4 * |name| > FrameCodec.MAX_MESSAGE_BYTES then ""
    else seq((FrameCodec.MAX_MESSAGE_BYTES - 86 - 4 * |name|) / 4, _ => 'a')
  }

  ghost predicate Fits(m: Message<Payload>)
    requires WellFormed(m)
  {
    FitsBound(LawfulCodec.Plain())(Frame(1, m))
  }

  lemma FitsBySize(m: Message<Payload>)
    requires WellFormed(m)
    ensures Fits(m) <==> Size(m) <= FrameCodec.MAX_MESSAGE_BYTES
  {
    hide ByteLength, FrameCodec.FromMessage, LawfulCodec.Write;
  }

  /** Under that id the request fits, and an error with a longer text than the request's name does not. */
  lemma RequestFitsErrorDoesNot(name: string, error: Payload)
    requires Ascii(name) && 86 + 4 * |name| <= FrameCodec.MAX_MESSAGE_BYTES
    requires error.Problem? && Ascii(error.message) && |error.message| > |name|
    ensures Fits(CallUnder(LongestId(name), name)) && !Fits(ErrorUnder(LongestId(name), error))
  {
    hide Size, Fits;
    var id := LongestId(name);
    CallBytes(id, name);
    ErrorBytes(id, error);
    FitsBySize(CallUnder(id, name));
    FitsBySize(ErrorUnder(id, error));
  }

  const INTERNAL_ERROR := -32603
  const FAILED := "The Machine operation failed."
  const TOO_LARGE := "The Machine's answer exceeds" + " the frame byte bound" + " of this protocol."

  function Internal(message: string): Payload {
    Problem(INTERNAL_ERROR, message, Some(FrameCodec.Obj(map["code" := FrameCodec.Str("internal")])))
  }

  lemma Messages()
    ensures Ascii(FAILED) && Ascii(TOO_LARGE) && Ascii("fs.stat") && |FAILED| > 7 && |TOO_LARGE| > 7
  {
    hide Ascii;
    FailedIsAscii();
    TooLargeIsAscii();
  }

  lemma FailedIsAscii()
    ensures Ascii(FAILED) && Ascii("fs.stat")
  {
  }

  lemma TooLargeIsAscii()
    ensures Ascii(TOO_LARGE)
  {
    PartsAreAscii();
    hide Ascii;
    AsciiJoins("The Machine's answer exceeds", " the frame byte bound");
    AsciiJoins("The Machine's answer exceeds" + " the frame byte bound", " of this protocol.");
  }

  lemma PartsAreAscii()
    ensures Ascii("The Machine's answer exceeds") && Ascii(" the frame byte bound") && Ascii(" of this protocol.")
  {
  }

  lemma AsciiJoins(a: string, b: string)
    requires Ascii(a) && Ascii(b)
    ensures Ascii(a + b)
  {
  }

  /** The request is one line that the codec reads back as it was. */
  lemma RequestArrives(name: string)
    requires Ascii(name) && 86 + 4 * |name| <= FrameCodec.MAX_MESSAGE_BYTES
    ensures var c, request := LawfulCodec.Plain(), ToFrame(Frame(1, CallUnder(LongestId(name), name)));
            var line := c.stringify(FrameCodec.Wrapper(1, FrameCodec.FromMessage(request.m)));
            && FrameCodec.EncodeFrame(c, request) == Some(line + [LF])
            && FrameCodec.DecodeFrame(c, line) == FrameCodec.Ok(request)
  {
    hide Fits, Size, FrameCodec.EncodeFrame, FrameCodec.DecodeFrame, FrameCodec.Lawful, LongestId,
         FrameCodec.FromMessage;
    var c, call := LawfulCodec.Plain(), CallUnder(LongestId(name), name);
    LongestFits(name);
    CallBytes(LongestId(name), name);
    FitsBySize(call);
    FitsMeansWritten(call);
    LawfulCodec.PlainIsLawful();
    FrameCodec.FrameRoundTrip(c, ToFrame(Frame(1, call)));
  }

  lemma LongestFits(name: string)
    requires 86 + 4 * |name| <= FrameCodec.MAX_MESSAGE_BYTES
    ensures 86 + 4 * |name| + 4 * |LongestId(name)| <= FrameCodec.MAX_MESSAGE_BYTES && Ascii(LongestId(name))
  {
  }

  /** An endpoint that opens stream 1 for a request takes its id for the answer. */
  lemma TakesTheId(capError: Payload, id: string, name: string)
    ensures var m := NewMux(true, MAX_CONCURRENT_STREAMS, capError).HandleFrame(Frame(1, CallUnder(id, name))).mux;
            m.IsOpen(1) && forall error :: Refusal(m, 1, error) == ErrorUnder(id, error)
  {
    var m := NewMux(true, MAX_CONCURRENT_STREAMS, capError).HandleFrame(Frame(1, CallUnder(id, name))).mux;
    assert m.streams == map[1 := NewStream.(replyId := Some(Name(id)))];
  }

  /**
   The daemon opens stream 1 for a request that arrived as one line and was read back as it was. Its operation
   fails, and that answer is never written, nor is its refusal, however deep the stack.
   */
  lemma LongIdRunsAway(capError: Payload, depth: nat)
    ensures var c, id, name := LawfulCodec.Plain(), LongestId("fs.stat"), "fs.stat";
            var request := ToFrame(Frame(1, CallUnder(id, name)));
            var line := c.stringify(FrameCodec.Wrapper(1, FrameCodec.FromMessage(request.m)));
            var m := NewMux(true, MAX_CONCURRENT_STREAMS, capError).HandleFrame(FromFrame(request)).mux;
            && FrameCodec.EncodeFrame(c, request) == Some(line + [LF])
            && FrameCodec.DecodeFrame(c, line) == FrameCodec.Ok(request) && m.IsOpen(1)
            && WriteFrame(m, FitsBound(c), 1, ErrorUnder(id, Internal(FAILED)), Internal(TOO_LARGE), depth) == None
  {
    hide Fits, FrameCodec.EncodeFrame, FrameCodec.DecodeFrame, LongestId, Mux.HandleFrame, FitsBound, WriteFrame;
    hide ToFrame, FromFrame, FrameCodec.FromMessage;
    var c, id, name := LawfulCodec.Plain(), LongestId("fs.stat"), "fs.stat";
    Messages();
    RequestArrives(name);
    RequestFitsErrorDoesNot(name, Internal(FAILED));
    RequestFitsErrorDoesNot(name, Internal(TOO_LARGE));
    SameFrame(CallUnder(id, name));
    TakesTheId(capError, id, name);
    var m := NewMux(true, MAX_CONCURRENT_STREAMS, capError).HandleFrame(Frame(1, CallUnder(id, name))).mux;
    FitsMeansWritten(ErrorUnder(id, Internal(FAILED)));
    FitsMeansWritten(ErrorUnder(id, Internal(TOO_LARGE)));
    RefusedForever(m, FitsBound(c), 1, ErrorUnder(id, Internal(FAILED)), Internal(TOO_LARGE), depth);
  }

  lemma SameFrame(m: Message<Payload>)
    requires WellFormed(m)
    ensures FromFrame(ToFrame(Frame(1, m))) == Frame(1, m)
  {
    SameMessages(m, ToRpc(m));
  }

  lemma FitsMeansWritten(m: Message<Payload>)
    requires WellFormed(m)
    ensures Fits(m) <==> FrameCodec.EncodeFrame(LawfulCodec.Plain(), ToFrame(Frame(1, m))).Some?
    ensures Fits(m) <==> FitsBound(LawfulCodec.Plain())(Frame(1, m))
  {
  }
}
