/** canonicalJson of shared/crypto.js: values, the printer, and what a value means. */
module Json {
  import opened Common
  import opened Texts

  datatype Field = Field(key: Text, val: Value)

  /** Values as canonicalJson tells them apart. NonFinite stands for NaN and the infinities, which
      JSON.stringify prints as null. An object's fields come in insertion order. */
  datatype Value =
    | Undefined
    | Null
    | Bool(b: bool)
    | Num(n: int)
    | NonFinite
    | Str(s: Text)
    | Arr(elems: seq<Value>)
    | Obj(fields: seq<Field>)

  function KeyOf(): Field -> Text {
    (f: Field) => f.key
  }

  /** No object has two fields of the same name, at any depth. */
  ghost predicate Proper(v: Value) {
    match v
    case Arr(elems) => forall i | 0 <= i < |elems| :: Proper(elems[i])
    case Obj(fields) => DistinctKeys(fields, KeyOf()) && forall f | f in fields :: Proper(f.val)
    case _ => true
  }

  // ---------------------------------------------------------------- strings and numbers

  const QUOTE := 34
  const BACKSLASH := 92
  const COMMA := 44
  const COLON := 58
  const OPEN_ARRAY := 91
  const CLOSE_ARRAY := 93
  const OPEN_OBJECT := 123
  const CLOSE_OBJECT := 125
  const MINUS := 45
  const NULL_TEXT: Text := [110, 117, 108, 108]
  const TRUE_TEXT: Text := [116, 114, 117, 101]
  const FALSE_TEXT: Text := [102, 97, 108, 115, 101]

  predicate IsHighSurrogate(c: int) { 0xD800 <= c < 0xDC00 }
  predicate IsLowSurrogate(c: int) { 0xDC00 <= c < 0xE000 }

  function HexDigit(v: int): int
    requires 0 <= v < 16
  {
    if v < 10 then 48 + v else 87 + v
  }

  function UnicodeEscape(c: int): Text
    requires 0 <= c < 0x10000
  {
    [BACKSLASH, 117, HexDigit(c / 4096), HexDigit(c / 256 % 16), HexDigit(c / 16 % 16), HexDigit(c % 16)]
  }

  /** One code unit that is not half of a surrogate pair, as JSON.stringify writes it. */
  function EscapeUnit(c: int): Text {
    if c == QUOTE then [BACKSLASH, QUOTE]
    else if c == BACKSLASH then [BACKSLASH, BACKSLASH]
    else if c == 8 then [BACKSLASH, 98]
    else if c == 12 then [BACKSLASH, 102]
    else if c == 10 then [BACKSLASH, 110]
    else if c == 13 then [BACKSLASH, 114]
    else if c == 9 then [BACKSLASH, 116]
    else if 0 <= c < 32 || IsHighSurrogate(c) || IsLowSurrogate(c) then UnicodeEscape(c)
    else [c]
  }

  function EscapeChars(s: Text): Text {
    if s == [] then []
    else if |s| > 1 && IsHighSurrogate(s[0]) && IsLowSurrogate(s[1]) then [s[0], s[1]] + EscapeChars(s[2..])
    else EscapeUnit(s[0]) + EscapeChars(s[1..])
  }

  function Quoted(s: Text): Text {
    [QUOTE] + EscapeChars(s) + [QUOTE]
  }

  function Digits(n: nat): Text {
    if n < 10 then [48 + n] else Digits(n / 10) + [48 + n % 10]
  }

  function Decimal(n: int): Text {
    if n < 0 then [MINUS] + Digits(-n) else Digits(n)
  }

  // ---------------------------------------------------------------- the printer

  ghost predicate Within(fields: seq<Field>, whole: Value) {
    forall f | f in fields :: f.val < whole
  }

  ghost predicate ElemsWithin(elems: seq<Value>, whole: Value) {
    forall i | 0 <= i < |elems| :: elems[i] < whole
  }

  function Visible(fields: seq<Field>): seq<Field> {
    if fields == [] then []
    else if fields[0].val.Undefined? then Visible(fields[1..])
    else [fields[0]] + Visible(fields[1..])
  }

  lemma {:induction false} VisibleElements(fields: seq<Field>)
    ensures forall f :: f in Visible(fields) <==> f in fields && !f.val.Undefined?
  {
    if fields != [] {
      VisibleElements(fields[1..]);
      assert fields == [fields[0]] + fields[1..];
    }
  }

  /** The fields in the order they are printed: sorted by key, the undefined ones left out. */
  function Printed(fields: seq<Field>): seq<Field> {
    Visible(Sort(fields, KeyOf()))
  }

  lemma PrintedElements(fields: seq<Field>)
    ensures forall f :: f in Printed(fields) <==> f in fields && !f.val.Undefined?
  {
    SortElements(fields, KeyOf());
    VisibleElements(Sort(fields, KeyOf()));
  }

  /** canonicalJson; None is the exception it throws. */
  function Canonical(v: Value): Option<Text>
    decreases v, 1
  {
    match v
    case Undefined => None
    case Null => Some(NULL_TEXT)
    case Bool(b) => Some(if b then TRUE_TEXT else FALSE_TEXT)
    case Num(n) => Some(Decimal(n))
    case NonFinite => Some(NULL_TEXT)
    case Str(s) => Some(Quoted(s))
    case Arr(elems) =>
      var body := CanonicalElems(elems, v);
      if body.None? then None else Some([OPEN_ARRAY] + body.value + [CLOSE_ARRAY])
    case Obj(fields) =>
      PrintedElements(fields);
      var body := CanonicalFields(Printed(fields), v);
      if body.None? then None else Some([OPEN_OBJECT] + body.value + [CLOSE_OBJECT])
  }

  function CanonicalElems(elems: seq<Value>, ghost whole: Value): Option<Text>
    requires ElemsWithin(elems, whole)
    decreases whole, 0, |elems|
  {
    if elems == [] then Some([]) else
    var first := Canonical(elems[0]);
    var rest := CanonicalElems(elems[1..], whole);
    if first.None? || rest.None? then None
    else if |elems| == 1 then first
    else Some(first.value + [COMMA] + rest.value)
  }

  function CanonicalFields(fields: seq<Field>, ghost whole: Value): Option<Text>
    requires Within(fields, whole)
    decreases whole, 0, |fields|
  {
    if fields == [] then Some([]) else
    var first := Canonical(fields[0].val);
    var rest := CanonicalFields(fields[1..], whole);
    if first.None? || rest.None? then None
    else
      var member := Quoted(fields[0].key) + [COLON] + first.value;
      if |fields| == 1 then Some(member) else Some(member + [COMMA] + rest.value)
  }

  // ---------------------------------------------------------------- meaning

  datatype Datum =
    | DNull
    | DBool(b: bool)
    | DNum(n: int)
    | DStr(s: Text)
    | DArr(elems: seq<Datum>)
    | DObj(fields: map<Text, Datum>)

  /** What a value says once key order, undefined fields and non-finite numbers are disregarded. */
  function Meaning(v: Value): Datum
    decreases v, 1
  {
    match v
    case Undefined => DNull
    case Null => DNull
    case Bool(b) => DBool(b)
    case Num(n) => DNum(n)
    case NonFinite => DNull
    case Str(s) => DStr(s)
    case Arr(elems) => DArr(MeaningElems(elems, v))
    case Obj(fields) => PrintedElements(fields); DObj(MeaningFields(Printed(fields), v))
  }

  function MeaningElems(elems: seq<Value>, ghost whole: Value): (r: seq<Datum>)
    requires ElemsWithin(elems, whole)
    ensures |r| == |elems|
    decreases whole, 0, |elems|
  {
    if elems == [] then [] else [Meaning(elems[0])] + MeaningElems(elems[1..], whole)
  }

  function MeaningFields(fields: seq<Field>, ghost whole: Value): map<Text, Datum>
    requires Within(fields, whole)
    decreases whole, 0, |fields|
  {
    if fields == [] then map[]
    else map[fields[0].key := Meaning(fields[0].val)] + MeaningFields(fields[1..], whole)
  }

  /** MeaningFields maps exactly the keys of its fields, each to the meaning of its value. */
  lemma {:induction false} MeaningFieldsAt(fields: seq<Field>, whole: Value)
    requires Within(fields, whole) && DistinctKeys(fields, KeyOf())
    ensures forall k :: k in MeaningFields(fields, whole) <==> exists f :: f in fields && f.key == k
    ensures forall f | f in fields ::
      f.key in MeaningFields(fields, whole) && MeaningFields(fields, whole)[f.key] == Meaning(f.val)
  {
    if fields != [] {
      var head, tail := fields[0], fields[1..];
      MeaningFieldsAt(tail, whole);
      assert forall f :: f in fields <==> f == head || f in tail;
      forall f | f in tail ensures f.key != head.key {
        assert KeyOf()(f) != KeyOf()(head);
      }
      var all, rest := MeaningFields(fields, whole), MeaningFields(tail, whole);
      assert all == map[head.key := Meaning(head.val)] + rest;
      hide MeaningFields, Meaning;
      assert head.key !in rest;
    }
  }

  // ---------------------------------------------------------------- the parser

  function DigitValue(c: int): Option<int> {
    if 48 <= c <= 57 then Some(c - 48)
    else if 97 <= c <= 102 then Some(c - 87)
    else if 65 <= c <= 70 then Some(c - 55)
    else None
  }

  /** The four hexadecimal digits after \u. */
  function ParseHex4(s: Text): Option<int> {
    if |s| < 4 then None else
    var a, b, c, d := DigitValue(s[0]), DigitValue(s[1]), DigitValue(s[2]), DigitValue(s[3]);
    if a.None? || b.None? || c.None? || d.None? then None
    else Some(a.value * 4096 + b.value * 256 + c.value * 16 + d.value)
  }

  function ShortEscape(c: int): Option<int> {
    if c == QUOTE || c == BACKSLASH || c == 47 then Some(c)
    else if c == 98 then Some(8)
    else if c == 102 then Some(12)
    else if c == 110 then Some(10)
    else if c == 114 then Some(13)
    else if c == 116 then Some(9)
    else None
  }

  /** The characters of a string up to its closing quote (section 7 of RFC 8259), and what follows it. */
  function ParseChars(s: Text): (r: Option<(Text, Text)>)
    ensures r.Some? ==> |r.value.1| < |s|
  {
    if s == [] then None
    else if s[0] == QUOTE then Some(([], s[1..]))
    else if s[0] == BACKSLASH then
      if |s| < 2 then None
      else if s[1] == 117 then
        var unit := ParseHex4(s[2..]);
        if unit.None? then None else Prepend(unit.value, ParseChars(s[6..]))
      else
        var unit := ShortEscape(s[1]);
        if unit.None? then None else Prepend(unit.value, ParseChars(s[2..]))
    else if 0 <= s[0] < 32 then None
    else Prepend(s[0], ParseChars(s[1..]))
  }

  function Prepend(c: int, r: Option<(Text, Text)>): Option<(Text, Text)> {
    if r.None? then None else Some(([c] + r.value.0, r.value.1))
  }

  predicate IsDigit(c: int) { 48 <= c <= 57 }

  function ParseDigits(s: Text, acc: nat): (r: (nat, Text))
    ensures |r.1| <= |s|
  {
    if s != [] && IsDigit(s[0]) then ParseDigits(s[1..], acc * 10 + (s[0] - 48)) else (acc, s)
  }

  function ParseNumber(s: Text): (r: Option<(Datum, Text)>)
    ensures r.Some? ==> |r.value.1| < |s|
  {
    if s == [] then None
    else if s[0] == MINUS then
      if |s| < 2 || !IsDigit(s[1]) then None
      else var (n, rest) := ParseDigits(s[1..], 0); var m: int := n; Some((DNum(-m), rest))
    else if IsDigit(s[0]) then
      var (n, rest) := ParseDigits(s[1..], s[0] - 48);
      Some((DNum(n), rest))
    else None
  }

  function ParseValue(s: Text): (r: Option<(Datum, Text)>)
    ensures r.Some? ==> |r.value.1| < |s|
    decreases |s|, 1
  {
    if s == [] then None
    else if NULL_TEXT <= s then Some((DNull, s[4..]))
    else if TRUE_TEXT <= s then Some((DBool(true), s[4..]))
    else if FALSE_TEXT <= s then Some((DBool(false), s[5..]))
    else if s[0] == QUOTE then
      var r := ParseChars(s[1..]);
      if r.None? then None else Some((DStr(r.value.0), r.value.1))
    else if s[0] == OPEN_ARRAY then
      if |s| > 1 && s[1] == CLOSE_ARRAY then Some((DArr([]), s[2..])) else
      var r := ParseElems(s[1..]);
      if r.None? then None else Some((DArr(r.value.0), r.value.1))
    else if s[0] == OPEN_OBJECT then
      if |s| > 1 && s[1] == CLOSE_OBJECT then Some((DObj(map[]), s[2..])) else
      var r := ParseFields(s[1..]);
      if r.None? then None else Some((DObj(r.value.0), r.value.1))
    else ParseNumber(s)
  }

  /** One or more elements, commas between them, up to the closing bracket. */
  function ParseElems(s: Text): (r: Option<(seq<Datum>, Text)>)
    ensures r.Some? ==> |r.value.1| < |s|
    decreases |s|, 2
  {
    var first := ParseValue(s);
    if first.None? then None else
    var (d, rest) := first.value;
    if rest == [] then None
    else if rest[0] == CLOSE_ARRAY then Some(([d], rest[1..]))
    else if rest[0] == COMMA then
      var more := ParseElems(rest[1..]);
      if more.None? then None else Some(([d] + more.value.0, more.value.1))
    else None
  }

  /** One or more members, up to the closing brace. A later member overrides an earlier one. */
  function ParseFields(s: Text): (r: Option<(map<Text, Datum>, Text)>)
    ensures r.Some? ==> |r.value.1| < |s|
    decreases |s|, 2
  {
    if s == [] || s[0] != QUOTE then None else
    var name := ParseChars(s[1..]);
    if name.None? || name.value.1 == [] || name.value.1[0] != COLON then None else
    var first := ParseValue(name.value.1[1..]);
    if first.None? then None else
    var (d, rest) := first.value;
    if rest == [] then None
    else if rest[0] == CLOSE_OBJECT then Some((map[name.value.0 := d], rest[1..]))
    else if rest[0] == COMMA then
      var more := ParseFields(rest[1..]);
      if more.None? then None else Some((map[name.value.0 := d] + more.value.0, more.value.1))
    else None
  }
}
