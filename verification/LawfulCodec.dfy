/**
 A codec that keeps the laws asked of one, so that what is proved of every lawful codec is about something.
 It is no JSON: each value is written with a mark before it and one after it, and read back by what was written.
 */
module LawfulCodec {
  import opened Text
  import opened Decimal
  import opened OutputBound
  import opened FrameCodec

  // Marks; none is a newline, a digit or part of a character.

  const NULL: Text := [0x4E]
  const YES: Text := [0x54]
  const NO: Text := [0x46]
  const WHOLE: Text := [0x57]
  const NEGATIVE: Text := [0x58]
  const FRACTION: Text := [0x52]
  const STRING: Text := [0x53]
  const ARRAY: Text := [0x41]
  const OBJECT: Text := [0x4F]
  const MORE: Text := [0x2C]
  const END: CodeUnit := 0x22

  /** A character as two code units, both past every mark. */
  function Character(c: char): Text {
    [0x100 + c as int / 0x1000, 0x100 + c as int % 0x1000]
  }

  function Characters(s: string): Text {
    if s == [] then [] else Character(s[0]) + Characters(s[1..])
  }

  ghost function Pick(keys: set<string>): (k: string)
    requires keys != {}
    ensures k in keys
  {
    var k :| k in keys; k
  }

  ghost function Write(v: Json): Text
    decreases v, 1, 0
  {
    match v
    case Null => NULL
    case Bool(b) => if b then YES else NO
    case Whole(n) => if n < 0 then NEGATIVE + (Digits(-n) + [END]) else WHOLE + (Digits(n) + [END])
    case Fraction(s) => FRACTION + (Characters(s) + [END])
    case Str(s) => STRING + (Characters(s) + [END])
    case Arr(items) => ARRAY + WriteItems(v, 0)
    case Obj(fields) => OBJECT + WriteFields(v, fields.Keys)
  }

  ghost function WriteItems(v: Json, from: nat): Text
    requires v.Arr? && from <= |v.items|
    decreases v, 0, |v.items| - from
  {
    if from == |v.items| then [END] else MORE + (Write(v.items[from]) + WriteItems(v, from + 1))
  }

  ghost function WriteFields(v: Json, keys: set<string>): Text
    requires v.Obj? && keys <= v.fields.Keys
    decreases v, 0, |keys|
  {
    if keys == {} then [END]
    else
      var k := Pick(keys);
      MORE + ((Characters(k) + [END]) + (Write(v.fields[k]) + WriteFields(v, keys - {k})))
  }

  // What is written is written by one value.

  lemma Cancel(a: Text, b: Text, r: Text, r': Text)
    requires |a| == |b| && a + r == b + r'
    ensures a == b && r == r'
  {
    assert a == (a + r)[..|a|] && b == (b + r')[..|b|] && r == (a + r)[|a|..] && r' == (b + r')[|b|..];
  }

  lemma EndsAt(a: Text, r: Text)
    requires END !in a
    ensures IndexFrom((a + [END]) + r, END, 0) == |a|
  {
    var s := (a + [END]) + r;
    assert s[|a|] == END && forall k :: 0 <= k < |a| ==> s[k] == a[k];
  }

  lemma Terminated(a: Text, b: Text, r: Text, r': Text)
    requires END !in a && END !in b && (a + [END]) + r == (b + [END]) + r'
    ensures a == b && r == r'
  {
    hide IndexFrom;
    EndsAt(a, r);
    EndsAt(b, r');
    Cancel(a + [END], b + [END], r, r');
    Cancel(a, b, [END], [END]);
  }

  lemma {:induction false} CharactersAreLarge(s: string)
    ensures forall k :: 0 <= k < |Characters(s)| ==> 0x100 <= Characters(s)[k] < 0x1210
    ensures |Characters(s)| == 2 * |s|
    decreases |s|
  {
    if s != [] {
      CharactersAreLarge(s[1..]);
    }
  }

  lemma {:induction false} SameCharacters(s: string, t: string)
    requires Characters(s) == Characters(t)
    ensures s == t
    decreases |s|
  {
    CharactersAreLarge(s);
    CharactersAreLarge(t);
    if s != [] {
      Cancel(Character(s[0]), Character(t[0]), Characters(s[1..]), Characters(t[1..]));
      assert Character(s[0])[0] == Character(t[0])[0] && Character(s[0])[1] == Character(t[0])[1];
      assert s[0] as int == t[0] as int;
      SameCharacters(s[1..], t[1..]);
      assert s == [s[0]] + s[1..] && t == [t[0]] + t[1..];
    }
  }

  lemma SameString(s: string, t: string, r: Text, r': Text)
    requires (Characters(s) + [END]) + r == (Characters(t) + [END]) + r'
    ensures s == t && r == r'
  {
    hide Characters;
    CharactersAreLarge(s);
    CharactersAreLarge(t);
    Terminated(Characters(s), Characters(t), r, r');
    SameCharacters(s, t);
  }

  lemma SameNumber(m: nat, n: nat, r: Text, r': Text)
    requires (Digits(m) + [END]) + r == (Digits(n) + [END]) + r'
    ensures m == n && r == r'
  {
    hide Digits;
    Terminated(Digits(m), Digits(n), r, r');
    ValueOfDigits(m);
    ValueOfDigits(n);
  }

  /** The mark a value begins with, and what follows it. */
  function MarkOf(v: Json): CodeUnit {
    match v
    case Null => 0x4E
    case Bool(b) => if b then 0x54 else 0x46
    case Whole(n) => if n < 0 then 0x58 else 0x57
    case Fraction(_) => 0x52
    case Str(_) => 0x53
    case Arr(_) => 0x41
    case Obj(_) => 0x4F
  }

  ghost function AfterMark(v: Json): Text {
    match v
    case Null => []
    case Bool(_) => []
    case Whole(n) => Digits(if n < 0 then -n else n) + [END]
    case Fraction(s) => Characters(s) + [END]
    case Str(s) => Characters(s) + [END]
    case Arr(_) => WriteItems(v, 0)
    case Obj(fields) => WriteFields(v, fields.Keys)
  }

  lemma WrittenIs(v: Json)
    ensures Write(v) == [MarkOf(v)] + AfterMark(v)
  {
    hide Digits, Characters, WriteItems, WriteFields;
  }

  lemma Assoc(a: Text, b: Text, c: Text)
    ensures (a + b) + c == a + (b + c)
  {
  }

  /** No value's text begins another's: what is written can be read back. */
  lemma {:induction false} SameValue(v: Json, w: Json, r: Text, r': Text)
    requires Write(v) + r == Write(w) + r'
    ensures v == w && r == r'
    decreases v, 1, 0
  {
    hide Write, WriteItems, WriteFields, Digits, Characters;
    WrittenIs(v);
    WrittenIs(w);
    Assoc([MarkOf(v)], AfterMark(v), r);
    Assoc([MarkOf(w)], AfterMark(w), r');
    Cancel([MarkOf(v)], [MarkOf(w)], AfterMark(v) + r, AfterMark(w) + r');
    assert [MarkOf(v)][0] == [MarkOf(w)][0];
    match v
    case Null => Cancel([], [], r, r');
    case Bool(_) => Cancel([], [], r, r');
    case Whole(n) => SameNumber(if n < 0 then -n else n, if w.n < 0 then -w.n else w.n, r, r');
    case Fraction(s) => SameString(s, w.decimal, r, r');
    case Str(s) => SameString(s, w.s, r, r');
    case Arr(items) => SameItems(v, w, 0, r, r');
    case Obj(fields) =>
      SameFields(v, w, fields.Keys, w.fields.Keys, r, r');
  }

  lemma ItemsAre(v: Json, from: nat)
    requires v.Arr? && from <= |v.items|
    ensures WriteItems(v, from) == if from == |v.items| then [END]
      else MORE + (Write(v.items[from]) + WriteItems(v, from + 1))
  {
    hide Write;
  }

  lemma {:induction false} SameItems(v: Json, w: Json, from: nat, r: Text, r': Text)
    requires v.Arr? && w.Arr? && from <= |v.items| && from <= |w.items| && v.items[..from] == w.items[..from]
    requires WriteItems(v, from) + r == WriteItems(w, from) + r'
    ensures v == w && r == r'
    decreases v, 0, |v.items| - from
  {
    hide Write, WriteItems;
    ItemsAre(v, from);
    ItemsAre(w, from);
    var first, first' := (WriteItems(v, from) + r)[0], (WriteItems(w, from) + r')[0];
    if from == |v.items| {
      assert from == |w.items| by { assert first == END; }
      assert v.items == v.items[..from] && w.items == w.items[..from];
      Cancel([END], [END], r, r');
    } else {
      assert from < |w.items| by { assert first == MORE[0]; }
      var a, b := Write(v.items[from]), Write(w.items[from]);
      var more, more' := WriteItems(v, from + 1), WriteItems(w, from + 1);
      Assoc(MORE, a + more, r);
      Assoc(MORE, b + more', r');
      Cancel(MORE, MORE, (a + more) + r, (b + more') + r');
      Assoc(a, more, r);
      Assoc(b, more', r');
      SameValue(v.items[from], w.items[from], more + r, more' + r');
      assert v.items[..from + 1] == v.items[..from] + [v.items[from]];
      assert w.items[..from + 1] == w.items[..from] + [w.items[from]];
      SameItems(v, w, from + 1, r, r');
    }
  }

  lemma FieldsAre(v: Json, keys: set<string>)
    requires v.Obj? && keys <= v.fields.Keys
    ensures keys == {} ==> WriteFields(v, keys) == [END]
    ensures keys != {} ==>
      var k := Pick(keys);
      WriteFields(v, keys) == MORE + ((Characters(k) + [END]) + (Write(v.fields[k]) + WriteFields(v, keys - {k})))
  {
    hide Write, Characters, Pick;
  }

  lemma {:induction false} SameFields(v: Json, w: Json, keys: set<string>, keys': set<string>, r: Text, r': Text)
    requires v.Obj? && w.Obj? && keys <= v.fields.Keys && keys' <= w.fields.Keys
    requires WriteFields(v, keys) + r == WriteFields(w, keys') + r'
    ensures keys == keys' && r == r' && forall k :: k in keys ==> v.fields[k] == w.fields[k]
    decreases v, 0, |keys|
  {
    hide Write, WriteFields, Characters, Pick;
    FieldsAre(v, keys);
    FieldsAre(w, keys');
    var first, first' := (WriteFields(v, keys) + r)[0], (WriteFields(w, keys') + r')[0];
    if keys == {} {
      assert keys' == {} by { assert first == END; }
      Cancel([END], [END], r, r');
    } else {
      assert keys' != {} by { assert first == MORE[0]; }
      var k, k' := Pick(keys), Pick(keys');
      var name, name' := Characters(k) + [END], Characters(k') + [END];
      var a, b := Write(v.fields[k]), Write(w.fields[k']);
      var more, more' := WriteFields(v, keys - {k}), WriteFields(w, keys' - {k'});
      Assoc(MORE, name + (a + more), r);
      Assoc(MORE, name' + (b + more'), r');
      Cancel(MORE, MORE, (name + (a + more)) + r, (name' + (b + more')) + r');
      Assoc(name, a + more, r);
      Assoc(name', b + more', r');
      SameString(k, k', (a + more) + r, (b + more') + r');
      Assoc(a, more, r);
      Assoc(b, more', r');
      SameValue(v.fields[k], w.fields[k'], more + r, more' + r');
      SameFields(v, w, keys - {k}, keys' - {k'}, r, r');
      assert keys == (keys - {k}) + {k} && keys' == (keys' - {k}) + {k};
    }
  }

  // It keeps the laws.

  ghost function Read(t: Text): Option<Json> {
    if exists v :: Write(v) == t then var v :| Write(v) == t; Some(v) else None
  }

  ghost function Plain(): Codec {
    Codec(Write, Read, s => true)
  }

  lemma ReadsBack(v: Json)
    ensures Read(Write(v)) == Some(v)
  {
    hide Write;
    var w := Read(Write(v)).value;
    assert Write(v) + [] == Write(w) + [];
    SameValue(v, w, [], []);
  }

  /** No newline, and no half of a surrogate pair. */
  predicate OneLine(t: Text) {
    forall k :: 0 <= k < |t| ==> t[k] != LF && !High(t[k])
  }

  lemma {:induction false} DigitsAreOneLine(n: nat)
    ensures OneLine(Digits(n))
  {
    assert AllDigits(Digits(n));
  }

  lemma StringIsOneLine(s: string)
    ensures OneLine(Characters(s) + [END])
  {
    CharactersAreLarge(s);
    hide Characters;
  }

  lemma {:induction false} WritesOneLine(v: Json)
    ensures OneLine(Write(v))
    decreases v, 1, 0
  {
    hide Write, WriteItems, WriteFields, Digits, Characters;
    WrittenIs(v);
    match v
    case Null =>
    case Bool(_) =>
    case Whole(n) => DigitsAreOneLine(if n < 0 then -n else n);
    case Fraction(s) => StringIsOneLine(s);
    case Str(s) => StringIsOneLine(s);
    case Arr(items) => ItemsAreOneLine(v, 0);
    case Obj(fields) => FieldsAreOneLine(v, fields.Keys);
  }

  lemma {:induction false} ItemsAreOneLine(v: Json, from: nat)
    requires v.Arr? && from <= |v.items|
    ensures OneLine(WriteItems(v, from))
    decreases v, 0, |v.items| - from
  {
    hide Write, WriteItems;
    ItemsAre(v, from);
    if from < |v.items| {
      WritesOneLine(v.items[from]);
      ItemsAreOneLine(v, from + 1);
    }
  }

  lemma {:induction false} FieldsAreOneLine(v: Json, keys: set<string>)
    requires v.Obj? && keys <= v.fields.Keys
    ensures OneLine(WriteFields(v, keys))
    decreases v, 0, |keys|
  {
    hide Write, WriteFields, Characters, Pick;
    FieldsAre(v, keys);
    if keys != {} {
      StringIsOneLine(Pick(keys));
      WritesOneLine(v.fields[Pick(keys)]);
      FieldsAreOneLine(v, keys - {Pick(keys)});
    }
  }

  // Sizes.

  lemma {:induction false} ThreeBytesEach(t: Text)
    ensures ByteLength(t) <= 3 * |t|
    decreases |t|
  {
    if t != [] {
      if Joins(t[..1], t[1..]) { ThreeBytesEach(t[2..]); } else { ThreeBytesEach(t[1..]); }
    }
  }

  lemma BytesAdd(a: Text, b: Text)
    ensures ByteLength(a + b) <= ByteLength(a) + ByteLength(b)
  {
    BytesJoin(a, b);
  }

  function Power(k: nat): nat { if k == 0 then 1 else 10 * Power(k - 1) }

  lemma {:induction false} DigitsAreFew(n: nat, k: nat)
    requires k > 0 && n < Power(k)
    ensures |Digits(n)| <= k
    decreases k
  {
    if n >= 10 {
      DigitsAreFew(n / 10, k - 1);
    }
  }

  lemma SafeIsSmall()
    ensures SAFE_INTEGERS < Power(16)
  {
    assert Power(4) == 10_000;
    assert Power(8) == 10_000 * 10_000;
    assert Power(12) == 10_000 * 10_000 * 10_000;
    assert Power(16) == 10_000 * 10_000 * 10_000 * 10_000;
  }

  /** One field: its name and value, and the mark before them. */
  ghost function FieldText(name: string, v: Json): Text {
    MORE + ((Characters(name) + [END]) + Write(v))
  }

  lemma FieldSize(name: string, v: Json)
    requires |name| == 1
    ensures ByteLength(FieldText(name, v)) <= ByteLength(Write(v)) + 12
  {
    hide Write;
    CharactersAreLarge(name);
    hide Characters;
    var before := MORE + (Characters(name) + [END]);
    assert FieldText(name, v) == before + Write(v);
    ThreeBytesEach(before);
    BytesAdd(before, Write(v));
  }

  lemma WholeSize(s: nat)
    requires s < SAFE_INTEGERS
    ensures ByteLength(Write(Whole(s))) <= 54
  {
    SafeIsSmall();
    DigitsAreFew(s, 16);
    hide Digits, Power;
    ThreeBytesEach(Write(Whole(s)));
  }

  /** Two fields in either order, the object's mark and its end. */
  lemma TwoFields(v: Json, a: string, b: string)
    requires v.Obj? && v.fields.Keys == {a, b} && a != b && Pick(v.fields.Keys) == a
    ensures Write(v) == OBJECT + (FieldText(a, v.fields[a]) + (FieldText(b, v.fields[b]) + [END]))
  {
    hide Characters, WriteFields;
    var keys := v.fields.Keys;
    WrittenIs(v);
    FieldsAre(v, keys);
    assert keys - {a} == {b};
    FieldsAre(v, {b});
    assert {b} - {b} == {};
    FieldsAre(v, {});
    var first, second := Characters(a) + [END], Characters(b) + [END];
    var x, y := Write(v.fields[a]), Write(v.fields[b]);
    hide Write;
    assert MORE + (second + (y + [END])) == FieldText(b, v.fields[b]) + [END];
    assert MORE + (first + (x + WriteFields(v, {b}))) == FieldText(a, v.fields[a]) + WriteFields(v, {b});
  }

  lemma TwoFieldsSize(v: Json, a: string, b: string)
    requires v.Obj? && v.fields.Keys == {a, b} && a != b && Pick(v.fields.Keys) == a && |a| == |b| == 1
    ensures ByteLength(Write(v)) <= ByteLength(Write(v.fields[a])) + ByteLength(Write(v.fields[b])) + 30
  {
    hide Write, FieldText, ByteLength;
    TwoFields(v, a, b);
    FieldSize(a, v.fields[a]);
    FieldSize(b, v.fields[b]);
    var x, y := FieldText(a, v.fields[a]), FieldText(b, v.fields[b]);
    ThreeBytesEach(OBJECT);
    ThreeBytesEach([END]);
    BytesAdd(y, [END]);
    BytesAdd(x, y + [END]);
    BytesAdd(OBJECT, x + (y + [END]));
  }

  lemma WrapperSize(s: nat, m: Json)
    requires s < SAFE_INTEGERS
    ensures ByteLength(Write(Wrapper(s, m))) <= ByteLength(Write(m)) + 512
  {
    hide Write, ByteLength;
    var v := Wrapper(s, m);
    assert v.fields.Keys == {"s", "m"};
    WholeSize(s);
    if Pick(v.fields.Keys) == "s" { TwoFieldsSize(v, "s", "m"); } else { TwoFieldsSize(v, "m", "s"); }
  }

  /** There is a lawful codec. */
  lemma PlainIsLawful()
    ensures Lawful(Plain())
  {
    hide Write, Read, ByteLength, IsValue;
    var c := Plain();
    forall v | IsValue(c, v) ensures c.parse(c.stringify(v)) == Some(v) && LF !in c.stringify(v) {
      ReadsBack(v);
      WritesOneLine(v);
    }
    forall s: nat, m | s < SAFE_INTEGERS && IsValue(c, m)
      ensures ByteLength(c.stringify(Wrapper(s, m))) <= ByteLength(c.stringify(m)) + 512
    {
      WrapperSize(s, m);
    }
  }
}
