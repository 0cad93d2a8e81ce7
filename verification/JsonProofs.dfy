/** Proofs about canonicalJson: the round trip, injectivity, and independence of key order. */
module JsonProofs {
  import opened Common
  import opened Texts
  import opened Json

  // ---------------------------------------------------------------- strings

  lemma HexDigitRoundTrip(v: int)
    requires 0 <= v < 16
    ensures DigitValue(HexDigit(v)) == Some(v)
  {}

  lemma FourNibbles(c: int)
    requires 0 <= c < 0x10000
    ensures c / 4096 * 4096 + c / 256 % 16 * 256 + c / 16 % 16 * 16 + c % 16 == c
    ensures 0 <= c / 4096 < 16
  {
    assert c / 256 == c / 4096 * 16 + c / 256 % 16;
    assert c / 16 == c / 256 * 16 + c / 16 % 16;
  }

  lemma UnicodeEscapeParses(c: int, tail: Text)
    requires 0 <= c < 0x10000
    ensures ParseChars(UnicodeEscape(c) + tail) == Prepend(c, ParseChars(tail))
  {
    var s := UnicodeEscape(c) + tail;
    FourNibbles(c);
    HexDigitRoundTrip(c / 4096);
    HexDigitRoundTrip(c / 256 % 16);
    HexDigitRoundTrip(c / 16 % 16);
    HexDigitRoundTrip(c % 16);
    var digits := s[2..];
    assert digits[0] == HexDigit(c / 4096) && digits[1] == HexDigit(c / 256 % 16);
    assert digits[2] == HexDigit(c / 16 % 16) && digits[3] == HexDigit(c % 16);
    assert ParseHex4(digits) == Some(c);
    assert s[6..] == tail;
  }

  lemma RawUnitParses(c: int, tail: Text)
    requires c != QUOTE && c != BACKSLASH && !(0 <= c < 32)
    ensures ParseChars([c] + tail) == Prepend(c, ParseChars(tail))
  {
    assert ([c] + tail)[1..] == tail;
  }

  lemma ShortEscapeParses(letter: int, tail: Text)
    requires letter != 117 && ShortEscape(letter).Some?
    ensures ParseChars([BACKSLASH, letter] + tail) == Prepend(ShortEscape(letter).value, ParseChars(tail))
  {
    var s := [BACKSLASH, letter] + tail;
    assert s[0] == BACKSLASH && s[1] == letter && s[2..] == tail;
  }

  lemma EscapeUnitParses(c: int, tail: Text)
    ensures ParseChars(EscapeUnit(c) + tail) == Prepend(c, ParseChars(tail))
  {
    hide ParseChars;
    var e := EscapeUnit(c);
    if |e| == 1 {
      RawUnitParses(c, tail);
    } else if |e| == 2 {
      assert e == [BACKSLASH, e[1]];
      ShortEscapeParses(e[1], tail);
    } else {
      UnicodeEscapeParses(c, tail);
    }
  }

  lemma ClosingQuoteParses(tail: Text)
    ensures ParseChars([QUOTE] + tail) == Some(([], tail))
  {
    assert ([QUOTE] + tail)[1..] == tail;
  }

  lemma {:induction false} CharsRoundTrip(s: Text, tail: Text)
    ensures ParseChars(EscapeChars(s) + [QUOTE] + tail) == Some((s, tail))
    decreases |s|
  {
    hide ParseChars, EscapeUnit;
    if s == [] {
      ClosingQuoteParses(tail);
      assert EscapeChars(s) + [QUOTE] + tail == [QUOTE] + tail;
    } else if |s| > 1 && IsHighSurrogate(s[0]) && IsLowSurrogate(s[1]) {
      var more := EscapeChars(s[2..]) + [QUOTE] + tail;
      assert EscapeChars(s) + [QUOTE] + tail == [s[0]] + ([s[1]] + more);
      CharsRoundTrip(s[2..], tail);
      RawUnitParses(s[1], more);
      RawUnitParses(s[0], [s[1]] + more);
      hide EscapeChars;
      assert s == [s[0]] + ([s[1]] + s[2..]);
    } else {
      var more := EscapeChars(s[1..]) + [QUOTE] + tail;
      assert EscapeChars(s) + [QUOTE] + tail == EscapeUnit(s[0]) + more;
      CharsRoundTrip(s[1..], tail);
      EscapeUnitParses(s[0], more);
      hide EscapeChars;
      assert s == [s[0]] + s[1..];
    }
  }

  lemma QuotedParses(s: Text, tail: Text)
    ensures (Quoted(s) + tail)[0] == QUOTE
    ensures ParseChars((Quoted(s) + tail)[1..]) == Some((s, tail))
  {
    CharsRoundTrip(s, tail);
    assert (Quoted(s) + tail)[1..] == EscapeChars(s) + [QUOTE] + tail;
  }

  // ---------------------------------------------------------------- numbers

  ghost predicate Delimited(rest: Text) {
    rest == [] || rest[0] == COMMA || rest[0] == CLOSE_ARRAY || rest[0] == CLOSE_OBJECT
  }

  lemma {:induction false} DigitsParse(n: nat, tail: Text)
    ensures IsDigit(Digits(n)[0])
    ensures ParseDigits(Digits(n) + tail, 0) == ParseDigits(tail, n)
    decreases n
  {
    if n < 10 {
      assert ([48 + n] + tail)[1..] == tail;
    } else {
      var last := [48 + n % 10];
      DigitsParse(n / 10, last + tail);
      assert Digits(n) + tail == Digits(n / 10) + (last + tail);
      assert (last + tail)[1..] == tail;
      assert n / 10 * 10 + n % 10 == n;
    }
  }

  lemma DecimalParses(n: int, rest: Text)
    requires Delimited(rest)
    ensures ParseNumber(Decimal(n) + rest) == Some((DNum(n), rest))
  {
    var m: nat := if n < 0 then -n else n;
    var s := Digits(m) + rest;
    DigitsParse(m, rest);
    assert ParseDigits(s, 0) == (m, rest);
    assert s[0] == Digits(m)[0];
    if n < 0 {
      assert Decimal(n) + rest == [MINUS] + s;
      assert ([MINUS] + s)[1..] == s;
    }
  }

  // ---------------------------------------------------------------- the round trip

  /** What each kind of text starts with. */
  lemma CanonicalStart(v: Value, t: Text)
    requires Canonical(v) == Some(t)
    ensures t != [] && t[0] != CLOSE_ARRAY
  {
    if v.Num? {
      DigitsParse(if v.n < 0 then -v.n else v.n, []);
    }
  }

  ghost predicate Parses(v: Value, t: Text, rest: Text) {
    ParseValue(t + rest) == Some((Meaning(v), rest))
  }

  lemma ScalarRoundTrip(v: Value, t: Text, rest: Text)
    requires !v.Arr? && !v.Obj? && Canonical(v) == Some(t) && Delimited(rest)
    ensures Parses(v, t, rest)
  {
    var s := t + rest;
    match v
    case Undefined =>
    case Null => assert s[..4] == NULL_TEXT && s[4..] == rest;
    case NonFinite => assert s[..4] == NULL_TEXT && s[4..] == rest;
    case Bool(b) => assert s[0] == t[0] && s[..|t|] == t && s[|t|..] == rest;
    case Num(n) =>
      DecimalParses(n, rest);
      DigitsParse(if n < 0 then -n else n, []);
      assert s[0] == t[0];
    case Str(x) =>
      QuotedParses(x, rest);
  }

  /** An opening bracket or brace decides what ParseValue does next. */
  lemma OpenDispatch(s: Text)
    requires s != []
    ensures s[0] == OPEN_ARRAY ==> (ParseValue(s) ==
      if |s| > 1 && s[1] == CLOSE_ARRAY then Some((DArr([]), s[2..]))
      else if ParseElems(s[1..]).None? then None
      else Some((DArr(ParseElems(s[1..]).value.0), ParseElems(s[1..]).value.1)))
    ensures s[0] == OPEN_OBJECT ==> (ParseValue(s) ==
      if |s| > 1 && s[1] == CLOSE_OBJECT then Some((DObj(map[]), s[2..]))
      else if ParseFields(s[1..]).None? then None
      else Some((DObj(ParseFields(s[1..]).value.0), ParseFields(s[1..]).value.1)))
  {
    hide ParseElems, ParseFields, ParseChars, ParseNumber;
  }

  lemma ArrayParses(body: Text, d: seq<Datum>, rest: Text)
    requires if d == [] then body == [] else
      body != [] && body[0] != CLOSE_ARRAY && ParseElems(body + [CLOSE_ARRAY] + rest) == Some((d, rest))
    ensures ParseValue([OPEN_ARRAY] + body + [CLOSE_ARRAY] + rest) == Some((DArr(d), rest))
  {
    hide ParseElems, ParseValue;
    var s := [OPEN_ARRAY] + body + [CLOSE_ARRAY] + rest;
    OpenDispatch(s);
    assert s[1..] == body + [CLOSE_ARRAY] + rest;
    assert d == [] ==> s[2..] == rest;
  }

  lemma ObjectParses(body: Text, d: map<Text, Datum>, rest: Text)
    requires if body == [] then d == map[] else
      body[0] == QUOTE && ParseFields(body + [CLOSE_OBJECT] + rest) == Some((d, rest))
    ensures ParseValue([OPEN_OBJECT] + body + [CLOSE_OBJECT] + rest) == Some((DObj(d), rest))
  {
    hide ParseFields, ParseValue;
    var s := [OPEN_OBJECT] + body + [CLOSE_OBJECT] + rest;
    OpenDispatch(s);
    assert s[1..] == body + [CLOSE_OBJECT] + rest;
    assert body == [] ==> s[2..] == rest;
  }

  /** A parser recovers the meaning of every value from its text, whatever delimited text follows. */
  lemma {:induction false} RoundTrip(v: Value, t: Text, rest: Text)
    requires Canonical(v) == Some(t) && Delimited(rest)
    ensures Parses(v, t, rest)
    decreases v, 1
  {
    hide ParseValue, ParseElems, ParseFields;
    match v {
      case Arr(elems) =>
        var body := CanonicalElems(elems, v).value;
        if elems != [] {
          ElemsRoundTrip(elems, v, body, rest);
          ElemsStart(elems, v, body);
        }
        ArrayParses(body, MeaningElems(elems, v), rest);
      case Obj(fields) =>
        PrintedElements(fields);
        var printed := Printed(fields);
        var body := CanonicalFields(printed, v).value;
        if printed != [] {
          FieldsRoundTrip(printed, v, body, rest);
        }
        ObjectParses(body, MeaningFields(printed, v), rest);
      case _ => ScalarRoundTrip(v, t, rest);
    }
  }

  lemma ElemsStart(elems: seq<Value>, whole: Value, body: Text)
    requires ElemsWithin(elems, whole) && elems != [] && CanonicalElems(elems, whole) == Some(body)
    ensures body != [] && body[0] != CLOSE_ARRAY
  {
    CanonicalStart(elems[0], Canonical(elems[0]).value);
  }

  /** One turn of ParseElems: the last element, or one with more to follow. */
  lemma ParseElemsStep(first: Text, d: Datum, after: Text)
    requires after != [] && ParseValue(first + after) == Some((d, after))
    ensures after[0] == CLOSE_ARRAY ==> ParseElems(first + after) == Some(([d], after[1..]))
    ensures after[0] == COMMA && ParseElems(after[1..]).Some? ==>
      ParseElems(first + after) == Some(([d] + ParseElems(after[1..]).value.0, ParseElems(after[1..]).value.1))
  {
    hide ParseValue;
  }

  /** What follows the first of a list of elements or members, up to the end of the text. */
  function After(last: bool, more: Text, close: int, rest: Text): Text {
    if last then [close] + rest else [COMMA] + (more + [close] + rest)
  }

  lemma AfterTail(last: bool, more: Text, close: int, rest: Text)
    ensures After(last, more, close, rest)[1..] == if last then rest else more + [close] + rest
  {}

  lemma Regroup(first: Text, last: bool, more: Text, close: int, rest: Text)
    ensures (first + if last then [] else [COMMA] + more) + [close] + rest == first + After(last, more, close, rest)
  {}

  lemma ElemsText(elems: seq<Value>, whole: Value, body: Text)
    requires ElemsWithin(elems, whole) && elems != [] && CanonicalElems(elems, whole) == Some(body)
    ensures elems[0] < whole && ElemsWithin(elems[1..], whole)
    ensures Canonical(elems[0]).Some? && CanonicalElems(elems[1..], whole).Some?
    ensures body == Canonical(elems[0]).value
      + if |elems| == 1 then [] else [COMMA] + CanonicalElems(elems[1..], whole).value
    ensures MeaningElems(elems, whole) == [Meaning(elems[0])] + MeaningElems(elems[1..], whole)
    ensures |elems| == 1 ==> MeaningElems(elems, whole) == [Meaning(elems[0])]
  {
    hide Meaning;
  }

  lemma {:induction false} ElemsRoundTrip(elems: seq<Value>, whole: Value, body: Text, rest: Text)
    requires ElemsWithin(elems, whole) && elems != []
    requires CanonicalElems(elems, whole) == Some(body)
    ensures ParseElems(body + [CLOSE_ARRAY] + rest) == Some((MeaningElems(elems, whole), rest))
    decreases whole, 0, |elems|
  {
    ElemsText(elems, whole, body);
    var last, first, more := |elems| == 1, Canonical(elems[0]).value, CanonicalElems(elems[1..], whole).value;
    var after := After(last, more, CLOSE_ARRAY, rest);
    assert after != [] && (after[0] == if last then CLOSE_ARRAY else COMMA);
    Regroup(first, last, more, CLOSE_ARRAY, rest);
    AfterTail(last, more, CLOSE_ARRAY, rest);
    hide ParseValue, ParseElems, Canonical, CanonicalElems, Meaning, MeaningElems, ElemsWithin, After;
    RoundTrip(elems[0], first, after);
    if !last {
      ElemsRoundTrip(elems[1..], whole, more, rest);
    }
    ParseElemsStep(first, Meaning(elems[0]), after);
  }

  /** One turn of ParseFields. */
  lemma ParseFieldsStep(name: Text, first: Text, d: Datum, after: Text)
    requires after != [] && ParseValue(first + after) == Some((d, after))
    ensures var s := Quoted(name) + ([COLON] + (first + after));
      && (after[0] == CLOSE_OBJECT ==> ParseFields(s) == Some((map[name := d], after[1..])))
      && (after[0] == COMMA && ParseFields(after[1..]).Some? ==>
            ParseFields(s) == Some((map[name := d] + ParseFields(after[1..]).value.0, ParseFields(after[1..]).value.1)))
  {
    QuotedParses(name, [COLON] + (first + after));
    assert ([COLON] + (first + after))[1..] == first + after;
    hide ParseValue, ParseChars, Quoted;
  }

  /** The text of a nonempty list of members, taken apart. */
  lemma FieldsText(fields: seq<Field>, whole: Value, body: Text)
    requires Within(fields, whole) && fields != [] && CanonicalFields(fields, whole) == Some(body)
    ensures fields[0].val < whole && Within(fields[1..], whole)
    ensures Canonical(fields[0].val).Some? && CanonicalFields(fields[1..], whole).Some?
    ensures body == Quoted(fields[0].key) + [COLON] + Canonical(fields[0].val).value
      + if |fields| == 1 then [] else [COMMA] + CanonicalFields(fields[1..], whole).value
    ensures body != [] && body[0] == QUOTE
    ensures MeaningFields(fields, whole) == map[fields[0].key := Meaning(fields[0].val)] + MeaningFields(fields[1..], whole)
    ensures |fields| == 1 ==> MeaningFields(fields, whole) == map[fields[0].key := Meaning(fields[0].val)]
  {
    hide EscapeChars, Meaning;
  }

  lemma MemberText(name: Text, first: Text, last: bool, more: Text, rest: Text)
    ensures (Quoted(name) + [COLON] + first + if last then [] else [COMMA] + more) + [CLOSE_OBJECT] + rest
         == Quoted(name) + ([COLON] + (first + After(last, more, CLOSE_OBJECT, rest)))
  {
    hide Quoted;
    Regroup(Quoted(name) + [COLON] + first, last, more, CLOSE_OBJECT, rest);
    hide After;
  }

  lemma {:induction false} FieldsRoundTrip(fields: seq<Field>, whole: Value, body: Text, rest: Text)
    requires Within(fields, whole) && fields != []
    requires CanonicalFields(fields, whole) == Some(body)
    ensures body != [] && body[0] == QUOTE
    ensures ParseFields(body + [CLOSE_OBJECT] + rest) == Some((MeaningFields(fields, whole), rest))
    decreases whole, 0, |fields|
  {
    FieldsText(fields, whole, body);
    var last, name := |fields| == 1, fields[0].key;
    var first, more := Canonical(fields[0].val).value, CanonicalFields(fields[1..], whole).value;
    var after := After(last, more, CLOSE_OBJECT, rest);
    assert after != [] && (after[0] == if last then CLOSE_OBJECT else COMMA);
    MemberText(name, first, last, more, rest);
    AfterTail(last, more, CLOSE_OBJECT, rest);
    hide ParseValue, ParseFields, Quoted, Canonical, CanonicalFields, Meaning, MeaningFields, Within, After;
    RoundTrip(fields[0].val, first, after);
    if !last {
      FieldsRoundTrip(fields[1..], whole, more, rest);
    }
    ParseFieldsStep(name, first, Meaning(fields[0].val), after);
  }

  // ---------------------------------------------------------------- equal texts, equal meanings

  lemma {:induction false} VisibleSorted(fields: seq<Field>)
    requires StrictlySorted(fields, KeyOf())
    ensures StrictlySorted(Visible(fields), KeyOf())
  {
    if fields != [] {
      SortedTail(fields, KeyOf());
      VisibleSorted(fields[1..]);
      VisibleElements(fields[1..]);
    }
  }

  lemma PrintedSorted(fields: seq<Field>)
    requires DistinctKeys(fields, KeyOf())
    ensures StrictlySorted(Printed(fields), KeyOf())
  {
    SortSorted(fields, KeyOf());
    VisibleSorted(Sort(fields, KeyOf()));
  }

  lemma SortedDistinct(fields: seq<Field>)
    requires StrictlySorted(fields, KeyOf())
    ensures DistinctKeys(fields, KeyOf())
  {
    forall i, j | 0 <= i < j < |fields| ensures KeyOf()(fields[i]) != KeyOf()(fields[j]) {
      LessAsymmetric(KeyOf()(fields[i]), KeyOf()(fields[j]));
    }
  }

  lemma HeadKeyIsLeast(fields: seq<Field>)
    requires StrictlySorted(fields, KeyOf()) && fields != []
    ensures forall f | f in fields[1..] :: Less(fields[0].key, f.key) && f.key != fields[0].key
  {
    forall f | f in fields[1..] ensures Less(fields[0].key, f.key) && f.key != fields[0].key {
      var i :| 0 < i < |fields| && fields[i] == f;
      assert Less(KeyOf()(fields[0]), KeyOf()(fields[i]));
      LessAsymmetric(fields[0].key, f.key);
    }
  }

  lemma MapHead(m: map<Text, Datum>, rest: map<Text, Datum>, key: Text, d: Datum)
    requires m == map[key := d] + rest && key !in rest
    ensures key in m && m[key] == d && rest == m - {key}
  {}

  /** The first of a sorted list of fields carries the least of its keys, and the rest carry the rest. */
  lemma HeadIsLeast(fields: seq<Field>, whole: Value)
    requires StrictlySorted(fields, KeyOf()) && fields != [] && Within(fields, whole)
    ensures fields[0].key in MeaningFields(fields, whole)
    ensures MeaningFields(fields, whole)[fields[0].key] == Meaning(fields[0].val)
    ensures forall k | k in MeaningFields(fields, whole) :: k == fields[0].key || Less(fields[0].key, k)
    ensures MeaningFields(fields[1..], whole) == MeaningFields(fields, whole) - {fields[0].key}
  {
    var head, tail := fields[0], fields[1..];
    var m, rest := MeaningFields(fields, whole), MeaningFields(tail, whole);
    assert m == map[head.key := Meaning(head.val)] + rest;
    SortedTail(fields, KeyOf());
    SortedDistinct(tail);
    HeadKeyIsLeast(fields);
    MeaningFieldsAt(tail, whole);
    hide Meaning, MeaningFields, Less, StrictlySorted;
    MapHead(m, rest, head.key, Meaning(head.val));
  }

  ghost predicate Printable(v: Value) {
    Proper(v) && Canonical(v).Some?
  }

  lemma {:induction false} SameMeaningSameText(v: Value, w: Value)
    requires Printable(v) && Printable(w) && Meaning(v) == Meaning(w)
    ensures Canonical(v) == Canonical(w)
    decreases v, 1
  {
    match v {
      case Arr(elems) =>
        SameElemsText(elems, w.elems, v, w);
      case Obj(fields) =>
        PrintedElements(fields);
        PrintedElements(w.fields);
        PrintedSorted(fields);
        PrintedSorted(w.fields);
        SameFieldsText(Printed(fields), Printed(w.fields), v, w);
      case _ =>
    }
  }

  lemma {:induction false} SameElemsText(xs: seq<Value>, ys: seq<Value>, v: Value, w: Value)
    requires ElemsWithin(xs, v) && ElemsWithin(ys, w)
    requires (forall i | 0 <= i < |xs| :: Proper(xs[i])) && (forall i | 0 <= i < |ys| :: Proper(ys[i]))
    requires CanonicalElems(xs, v).Some? && CanonicalElems(ys, w).Some?
    requires MeaningElems(xs, v) == MeaningElems(ys, w)
    ensures CanonicalElems(xs, v) == CanonicalElems(ys, w)
    decreases v, 0, |xs|
  {
    if xs != [] {
      ElemsText(xs, v, CanonicalElems(xs, v).value);
      ElemsText(ys, w, CanonicalElems(ys, w).value);
      assert |xs| == |MeaningElems(xs, v)| == |ys|;
      assert MeaningElems(xs[1..], v) == MeaningElems(xs, v)[1..] == MeaningElems(ys[1..], w);
      SameMeaningSameText(xs[0], ys[0]);
      SameElemsText(xs[1..], ys[1..], v, w);
    }
  }

  lemma {:induction false} SameFieldsText(fs: seq<Field>, gs: seq<Field>, v: Value, w: Value)
    requires Within(fs, v) && Within(gs, w)
    requires StrictlySorted(fs, KeyOf()) && StrictlySorted(gs, KeyOf())
    requires (forall f | f in fs :: Proper(f.val)) && (forall f | f in gs :: Proper(f.val))
    requires CanonicalFields(fs, v).Some? && CanonicalFields(gs, w).Some?
    requires MeaningFields(fs, v) == MeaningFields(gs, w)
    ensures CanonicalFields(fs, v) == CanonicalFields(gs, w)
    decreases v, 0, |fs|
  {
    if fs != [] && gs != [] {
      HeadIsLeast(fs, v);
      HeadIsLeast(gs, w);
      LessAsymmetric(fs[0].key, gs[0].key);
      FieldsText(fs, v, CanonicalFields(fs, v).value);
      FieldsText(gs, w, CanonicalFields(gs, w).value);
      SortedTail(fs, KeyOf());
      SortedTail(gs, KeyOf());
      hide Canonical, CanonicalFields, Meaning, MeaningFields;
      SameMeaningSameText(fs[0].val, gs[0].val);
      SameFieldsText(fs[1..], gs[1..], v, w);
      EmptyFields(fs[1..], gs[1..], v, w);
    } else {
      EmptyFields(fs, gs, v, w);
    }
  }

  lemma EmptyFields(fs: seq<Field>, gs: seq<Field>, v: Value, w: Value)
    requires Within(fs, v) && Within(gs, w) && MeaningFields(fs, v) == MeaningFields(gs, w)
    ensures fs == [] <==> gs == []
  {
    if fs != [] {
      assert fs[0].key in MeaningFields(fs, v);
    }
    if gs != [] {
      assert gs[0].key in MeaningFields(gs, w);
    }
  }

  /** Two values have the same text exactly when they mean the same: what is hashed and signed
      neither confuses values nor depends on how a value was put together. */
  lemma TextIffMeaning(v: Value, w: Value)
    requires Printable(v) && Printable(w)
    ensures Canonical(v) == Canonical(w) <==> Meaning(v) == Meaning(w)
  {
    if Canonical(v) == Canonical(w) {
      RoundTrip(v, Canonical(v).value, []);
      RoundTrip(w, Canonical(w).value, []);
    }
    if Meaning(v) == Meaning(w) {
      SameMeaningSameText(v, w);
    }
  }

  // ---------------------------------------------------------------- key order and exceptions

  lemma {:induction false} FieldsTextNeedsNoWhole(fields: seq<Field>, v: Value, w: Value)
    requires Within(fields, v) && Within(fields, w)
    ensures CanonicalFields(fields, v) == CanonicalFields(fields, w)
  {
    if fields != [] {
      FieldsTextNeedsNoWhole(fields[1..], v, w);
    }
  }

  /** The order in which an object's fields were set is never visible, not even in whether it throws. */
  lemma KeyOrderInvisible(fs: seq<Field>, gs: seq<Field>)
    requires DistinctKeys(fs, KeyOf()) && DistinctKeys(gs, KeyOf()) && SameElements(fs, gs)
    ensures Canonical(Obj(fs)) == Canonical(Obj(gs))
  {
    SortForgetsOrder(fs, gs, KeyOf());
    PrintedElements(fs);
    PrintedElements(gs);
    FieldsTextNeedsNoWhole(Printed(fs), Obj(fs), Obj(gs));
  }

  /** Undefined where JSON has no place for it: as the value itself or in an array slot, anywhere
      below fields that are not themselves left out. */
  ghost predicate Misplaced(v: Value) {
    match v
    case Undefined => true
    case Arr(elems) => exists i | 0 <= i < |elems| :: Misplaced(elems[i])
    case Obj(fields) => exists f | f in fields :: !f.val.Undefined? && Misplaced(f.val)
    case _ => false
  }

  /** canonicalJson throws on exactly the values in which undefined is misplaced. */
  lemma {:induction false} ThrowsIffMisplaced(v: Value)
    ensures Canonical(v).None? <==> Misplaced(v)
    decreases v, 1
  {
    match v {
      case Arr(elems) =>
        ElemsThrow(elems, v);
      case Obj(fields) =>
        PrintedElements(fields);
        FieldsThrow(Printed(fields), v);
      case _ =>
    }
  }

  lemma {:induction false} ElemsThrow(elems: seq<Value>, whole: Value)
    requires ElemsWithin(elems, whole)
    ensures CanonicalElems(elems, whole).None? <==> exists i | 0 <= i < |elems| :: Misplaced(elems[i])
    decreases whole, 0, |elems|
  {
    if elems != [] {
      ThrowsIffMisplaced(elems[0]);
      ElemsThrow(elems[1..], whole);
      assert forall i | 0 < i < |elems| :: elems[i] == elems[1..][i - 1];
      hide Misplaced, Canonical;
      assert (exists i | 0 <= i < |elems| :: Misplaced(elems[i])) <==>
        Misplaced(elems[0]) || exists i | 0 <= i < |elems[1..]| :: Misplaced(elems[1..][i]) by {
        if i :| 0 <= i < |elems[1..]| && Misplaced(elems[1..][i]) {
          assert Misplaced(elems[i + 1]);
        }
      }
    }
  }

  lemma {:induction false} FieldsThrow(fields: seq<Field>, whole: Value)
    requires Within(fields, whole)
    ensures CanonicalFields(fields, whole).None? <==> exists f | f in fields :: Misplaced(f.val)
    decreases whole, 0, |fields|
  {
    if fields != [] {
      ThrowsIffMisplaced(fields[0].val);
      FieldsThrow(fields[1..], whole);
      assert forall f :: f in fields <==> f == fields[0] || f in fields[1..];
      hide Misplaced, Canonical;
    }
  }
}
