/** canonicalTx of shared/crypto.js: keys are sorted by rebuilding every object, then JSON.stringify prints it. */
module CanonicalTx {
  // JSON.stringify has its own mind about three things: it lists keys that look like array indices first, it
  // prints an undefined array slot as null, and a key __proto__ never becomes a field of the rebuilt object.
  // Where none of these occurs the text is canonicalJson's.

  import opened Common
  import opened Texts
  import opened Json
  import opened JsonProofs

  const PROTO: Text := [95, 95, 112, 114, 111, 116, 111, 95, 95]

  // ---------------------------------------------------------------- _sortObjectKeys

  function SortKeys(v: Value): Value
    decreases v, 1
  {
    match v
    case Arr(elems) => Arr(SortElems(elems, v))
    case Obj(fields) =>
      SortElements(fields, KeyOf());
      Obj(Rebuilt(Sort(fields, KeyOf()), v))
    case _ => v
  }

  function SortElems(elems: seq<Value>, ghost whole: Value): seq<Value>
    requires ElemsWithin(elems, whole)
    decreases whole, 0, |elems|
  {
    if elems == [] then [] else [SortKeys(elems[0])] + SortElems(elems[1..], whole)
  }

  /** The object that assigning the fields one by one leaves. */
  function Rebuilt(fields: seq<Field>, ghost whole: Value): seq<Field>
    requires Within(fields, whole)
    decreases whole, 0, |fields|
  {
    if fields == [] then []
    else if fields[0].key == PROTO then Rebuilt(fields[1..], whole)
    else [Field(fields[0].key, SortKeys(fields[0].val))] + Rebuilt(fields[1..], whole)
  }

  // ---------------------------------------------------------------- JSON.stringify

  function IndexValue(key: Text): nat {
    if key == [] then 0 else IndexValue(key[..|key| - 1]) * 10 + if IsDigit(key[|key| - 1]) then key[|key| - 1] - 48 else 0
  }

  /** The key is the decimal form of an array index. */
  predicate IsIndex(key: Text) {
    key != [] && (forall i | 0 <= i < |key| :: IsDigit(key[i])) && (|key| == 1 || key[0] != 48) && IndexValue(key) < 0xFFFF_FFFF
  }

  function InsertByIndex(f: Field, fields: seq<Field>): seq<Field> {
    if fields == [] then [f]
    else if IndexValue(fields[0].key) < IndexValue(f.key) then [fields[0]] + InsertByIndex(f, fields[1..])
    else [f] + fields
  }

  function Indexed(fields: seq<Field>): seq<Field> {
    if fields == [] then []
    else if IsIndex(fields[0].key) then InsertByIndex(fields[0], Indexed(fields[1..]))
    else Indexed(fields[1..])
  }

  function Named(fields: seq<Field>): seq<Field> {
    if fields == [] then []
    else (if IsIndex(fields[0].key) then [] else [fields[0]]) + Named(fields[1..])
  }

  /** The order in which an object lists its own keys. */
  function Enumerated(fields: seq<Field>): seq<Field> {
    Indexed(fields) + Named(fields)
  }

  lemma {:induction false} InsertedElements(f: Field, fields: seq<Field>)
    ensures forall g | g in InsertByIndex(f, fields) :: g == f || g in fields
  {
    if fields != [] {
      InsertedElements(f, fields[1..]);
    }
  }

  lemma {:induction false} EnumeratedElements(fields: seq<Field>)
    ensures forall f | f in Enumerated(fields) :: f in fields
  {
    if fields != [] {
      EnumeratedElements(fields[1..]);
      forall f | f in Enumerated(fields) ensures f in fields {
        if f in Indexed(fields) && IsIndex(fields[0].key) {
          InsertedElements(fields[0], Indexed(fields[1..]));
        }
        assert f == fields[0] || f in Enumerated(fields[1..]);
      }
    }
  }

  function Join(texts: seq<Text>): Text {
    if texts == [] then []
    else if |texts| == 1 then texts[0]
    else texts[0] + [COMMA] + Join(texts[1..])
  }

  /** JSON.stringify; None stands for its undefined. */
  function Stringify(v: Value): Option<Text>
    decreases v, 1
  {
    match v
    case Undefined => None
    case Null => Some(NULL_TEXT)
    case Bool(b) => Some(if b then TRUE_TEXT else FALSE_TEXT)
    case Num(n) => Some(Decimal(n))
    case NonFinite => Some(NULL_TEXT)
    case Str(s) => Some(Quoted(s))
    case Arr(elems) => Some([OPEN_ARRAY] + Join(Slots(elems, v)) + [CLOSE_ARRAY])
    case Obj(fields) =>
      EnumeratedElements(fields);
      Some([OPEN_OBJECT] + Join(Members(Enumerated(fields), v)) + [CLOSE_OBJECT])
  }

  function Slots(elems: seq<Value>, ghost whole: Value): seq<Text>
    requires ElemsWithin(elems, whole)
    decreases whole, 0, |elems|
  {
    if elems == [] then [] else
    var first := Stringify(elems[0]);
    [if first.None? then NULL_TEXT else first.value] + Slots(elems[1..], whole)
  }

  function Members(fields: seq<Field>, ghost whole: Value): seq<Text>
    requires Within(fields, whole)
    decreases whole, 0, |fields|
  {
    if fields == [] then [] else
    var first := Stringify(fields[0].val);
    (if first.None? then [] else [Quoted(fields[0].key) + [COLON] + first.value]) + Members(fields[1..], whole)
  }

  const DATA: Text := [100, 97, 116, 97]
  const TIMESTAMP: Text := [116, 105, 109, 101, 115, 116, 97, 109, 112]
  const TX_TYPE: Text := [116, 120, 95, 116, 121, 112, 101]

  /** The three fields that a transaction's identifier covers. */
  function Covered(data: Value, timestamp: Value, txType: Value): Value {
    Obj([Field(DATA, data), Field(TIMESTAMP, timestamp), Field(TX_TYPE, txType)])
  }

  function TxText(data: Value, timestamp: Value, txType: Value): Option<Text> {
    Stringify(SortKeys(Covered(data, timestamp, txType)))
  }

  /** Undefined in an array slot anywhere: canonicalJson throws and JSON.stringify never does. */
  lemma UndefinedSlot(data: Value, timestamp: Value, txType: Value)
    requires Misplaced(data) && !data.Undefined?
    ensures Canonical(Covered(data, timestamp, txType)).None? && TxText(data, timestamp, txType).Some?
  {
    var fields := [Field(DATA, data), Field(TIMESTAMP, timestamp), Field(TX_TYPE, txType)];
    assert fields[0] in fields;
    ThrowsIffMisplaced(Obj(fields));
  }
}
