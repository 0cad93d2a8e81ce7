/** What the text of a transaction covers: everything but the fields named __proto__ (shared/crypto.js). */
module TxMeaning {
  // Stringifying a rebuilt value is proved injective up to them by parsing the text, and complete because
  // the order in which an object lists its keys is a function of the key set.

  import opened Common
  import opened Texts
  import opened Json
  import opened JsonProofs
  import opened CanonicalTx

  // ---------------------------------------------------------------- values without __proto__

  function WithoutProto(v: Value): Value
    decreases v, 1
  {
    match v
    case Arr(elems) => Arr(ElemsWithout(elems, v))
    case Obj(fields) => Obj(FieldsWithout(fields, v))
    case _ => v
  }

  function ElemsWithout(elems: seq<Value>, ghost whole: Value): seq<Value>
    requires ElemsWithin(elems, whole)
    decreases whole, 0, |elems|
  {
    if elems == [] then [] else [WithoutProto(elems[0])] + ElemsWithout(elems[1..], whole)
  }

  function FieldsWithout(fields: seq<Field>, ghost whole: Value): seq<Field>
    requires Within(fields, whole)
    decreases whole, 0, |fields|
  {
    if fields == [] then []
    else if fields[0].key == PROTO then FieldsWithout(fields[1..], whole)
    else [Field(fields[0].key, WithoutProto(fields[0].val))] + FieldsWithout(fields[1..], whole)
  }

  // ---------------------------------------------------------------- the order of an object's keys

  lemma {:induction false} NumeralIsDigits(key: Text)
    requires key != [] && (forall i | 0 <= i < |key| :: IsDigit(key[i])) && (|key| == 1 || key[0] != 48)
    ensures key == Digits(IndexValue(key)) && (key[0] != 48 ==> IndexValue(key) >= 1)
  {
    var n := |key| - 1;
    var before, last := key[..n], key[n];
    assert key == before + [last] && IsDigit(last);
    if n == 0 {
      assert before == [];
      assert IndexValue(key) == last - 48;
    } else {
      assert before[0] == key[0];
      NumeralIsDigits(before);
      var m := IndexValue(before);
      assert IndexValue(key) == m * 10 + (last - 48);
      assert (m * 10 + (last - 48)) / 10 == m && (m * 10 + (last - 48)) % 10 == last - 48;
    }
  }

  lemma IndexInjective(a: Text, b: Text)
    requires IsIndex(a) && IsIndex(b) && IndexValue(a) == IndexValue(b)
    ensures a == b
  {
    NumeralIsDigits(a);
    NumeralIsDigits(b);
  }

  /** One key is listed ahead of another: indices by value, then the rest as they were inserted, sorted. */
  predicate Ahead(a: Text, b: Text) {
    if IsIndex(a) && IsIndex(b) then IndexValue(a) < IndexValue(b)
    else IsIndex(a) || (!IsIndex(b) && Less(a, b))
  }

  lemma AheadAsymmetric(a: Text, b: Text)
    ensures !(Ahead(a, b) && Ahead(b, a))
  {
    LessAsymmetric(a, b);
  }

  ghost predicate Listed(fields: seq<Field>) {
    forall i, j | 0 <= i < j < |fields| :: Ahead(fields[i].key, fields[j].key)
  }

  ghost predicate AllIndex(fields: seq<Field>) {
    forall f | f in fields :: IsIndex(f.key)
  }

  lemma {:induction false} InsertedBoth(f: Field, fields: seq<Field>)
    ensures forall g :: g in InsertByIndex(f, fields) <==> g == f || g in fields
  {
    if fields != [] {
      InsertedBoth(f, fields[1..]);
      assert forall g :: g in fields <==> g == fields[0] || g in fields[1..];
    }
  }

  lemma {:induction false} InsertListed(f: Field, fields: seq<Field>)
    requires Listed(fields) && AllIndex(fields) && IsIndex(f.key) && forall g | g in fields :: g.key != f.key
    ensures Listed(InsertByIndex(f, fields)) && AllIndex(InsertByIndex(f, fields))
  {
    InsertedBoth(f, fields);
    if fields != [] {
      var head, tail := fields[0], fields[1..];
      assert head in fields && forall g | g in tail :: g in fields;
      if IndexValue(head.key) < IndexValue(f.key) {
        InsertListed(f, tail);
        InsertedBoth(f, tail);
        HeadAhead(fields);
        hide IsIndex, IndexValue, Less;
        ConsListed(head, InsertByIndex(f, tail));
      } else {
        if IndexValue(head.key) == IndexValue(f.key) {
          IndexInjective(head.key, f.key);
        }
        HeadAhead(fields);
        forall g | g in fields ensures Ahead(f.key, g.key) {
          assert g == head || Ahead(head.key, g.key);
        }
        hide IsIndex, IndexValue, Less;
        ConsListed(f, fields);
      }
    }
  }

  lemma HeadAhead(fields: seq<Field>)
    requires Listed(fields) && fields != []
    ensures Listed(fields[1..]) && forall g | g in fields[1..] :: Ahead(fields[0].key, g.key)
  {
    hide Ahead;
    forall g | g in fields[1..] ensures Ahead(fields[0].key, g.key) {
      var i :| 0 < i < |fields| && fields[i] == g;
    }
  }

  lemma ConsListed(head: Field, tail: seq<Field>)
    requires Listed(tail) && forall g | g in tail :: Ahead(head.key, g.key)
    ensures Listed([head] + tail)
  {
    hide Ahead;
  }

  /** The indexed keys of a sorted object are listed by value, the others as they stand. */
  lemma {:induction false} PartsListed(fields: seq<Field>)
    requires StrictlySorted(fields, KeyOf())
    ensures Listed(Indexed(fields)) && AllIndex(Indexed(fields))
    ensures Listed(Named(fields)) && forall f | f in Named(fields) :: !IsIndex(f.key)
    ensures forall f :: f in Enumerated(fields) <==> f in fields
    ensures forall f | f in Indexed(fields) || f in Named(fields) :: f in fields
  {
    if fields != [] {
      var head, tail := fields[0], fields[1..];
      SortedTail(fields, KeyOf());
      HeadKeyIsLeast(fields);
      PartsListed(tail);
      assert forall f :: f in fields <==> f == head || f in tail;
      hide StrictlySorted, Less, IndexValue, IsIndex;
      if IsIndex(head.key) {
        InsertListed(head, Indexed(tail));
        InsertedBoth(head, Indexed(tail));
        assert Named(fields) == [] + Named(tail) == Named(tail);
      } else {
        NamedAhead(head, Named(tail));
        ConsListed(head, Named(tail));
      }
    }
  }

  lemma NamedAhead(head: Field, named: seq<Field>)
    requires !IsIndex(head.key) && forall f | f in named :: !IsIndex(f.key) && Less(head.key, f.key)
    ensures forall f | f in named :: Ahead(head.key, f.key)
  {
    hide IsIndex, Less;
  }

  lemma EnumeratedListed(fields: seq<Field>)
    requires StrictlySorted(fields, KeyOf())
    ensures Listed(Enumerated(fields)) && forall f :: f in Enumerated(fields) <==> f in fields
  {
    PartsListed(fields);
    hide Indexed, Named, StrictlySorted, IndexValue, Less, IsIndex;
    PartsApart(Indexed(fields), Named(fields));
  }

  lemma PartsApart(a: seq<Field>, b: seq<Field>)
    requires Listed(a) && Listed(b) && AllIndex(a) && forall f | f in b :: !IsIndex(f.key)
    ensures Listed(a + b)
  {
    hide IsIndex, IndexValue, Less;
    var ab: seq<Field> := a + b;
    forall i, j | 0 <= i < j < |ab| ensures Ahead(ab[i].key, ab[j].key) {
      if j < |a| {
        assert ab[i] == a[i] && ab[j] == a[j];
      } else if i < |a| {
        assert ab[i] == a[i] && a[i] in a && ab[j] == b[j - |a|] && b[j - |a|] in b;
      } else {
        assert ab[i] == b[i - |a|] && ab[j] == b[j - |a|];
      }
    }
  }

  lemma {:induction false} VisibleListed(fields: seq<Field>)
    requires Listed(fields)
    ensures Listed(Visible(fields))
  {
    if fields != [] {
      HeadAhead(fields);
      VisibleListed(fields[1..]);
      VisibleElements(fields[1..]);
      hide Ahead;
      if !fields[0].val.Undefined? {
        ConsListed(fields[0], Visible(fields[1..]));
      }
    }
  }

  lemma ListedDistinct(fields: seq<Field>)
    requires Listed(fields)
    ensures DistinctKeys(fields, KeyOf())
  {
    hide Ahead;
    forall i, j | 0 <= i < j < |fields| ensures KeyOf()(fields[i]) != KeyOf()(fields[j]) {
      AheadAsymmetric(fields[i].key, fields[j].key);
    }
  }

  // ---------------------------------------------------------------- parsing what JSON.stringify prints

  /** Every object's fields are sorted, at any depth. */
  ghost predicate Tidy(v: Value) {
    match v
    case Arr(elems) => forall i | 0 <= i < |elems| :: Tidy(elems[i])
    case Obj(fields) => StrictlySorted(fields, KeyOf()) && forall f | f in fields :: Tidy(f.val)
    case _ => true
  }

  lemma {:induction false} MembersVisible(fields: seq<Field>, whole: Value)
    requires Within(fields, whole)
    ensures Within(Visible(fields), whole) && Members(fields, whole) == Members(Visible(fields), whole)
  {
    VisibleElements(fields);
    if fields != [] {
      MembersVisible(fields[1..], whole);
      hide Stringify;
      if fields[0].val.Undefined? {
        UndefinedText(fields[0].val);
      }
    }
  }

  lemma UndefinedText(v: Value)
    ensures Stringify(v).None? <==> v.Undefined?
  {}

  /** What a tidy object prints, and what it means. */
  function Shown(fields: seq<Field>): seq<Field> {
    Visible(Enumerated(fields))
  }

  lemma ShownMeaning(fields: seq<Field>, whole: Value)
    requires StrictlySorted(fields, KeyOf()) && whole == Obj(fields)
    ensures Within(Shown(fields), whole) && Listed(Shown(fields)) && (forall f | f in Shown(fields) :: f in fields && !f.val.Undefined?)
    ensures Meaning(whole) == DObj(MeaningFields(Shown(fields), whole))
    ensures Stringify(whole) == Some([OPEN_OBJECT] + Join(Members(Shown(fields), whole)) + [CLOSE_OBJECT])
  {
    EnumeratedListed(fields);
    EnumeratedElements(fields);
    VisibleElements(Enumerated(fields));
    VisibleListed(Enumerated(fields));
    MembersVisible(Enumerated(fields), whole);
    PrintedElements(fields);
    SortedDistinct(fields);
    PrintedSorted(fields);
    SortedDistinct(Printed(fields));
    ListedDistinct(Shown(fields));
    hide Enumerated, Printed, Listed, StrictlySorted, DistinctKeys, Members, MeaningFields, Visible;
    SameFieldsSameMeaning(Shown(fields), Printed(fields), whole);
  }

  lemma SameFieldsSameMeaning(fs: seq<Field>, gs: seq<Field>, whole: Value)
    requires Within(fs, whole) && Within(gs, whole) && DistinctKeys(fs, KeyOf()) && DistinctKeys(gs, KeyOf())
    requires forall f :: f in fs <==> f in gs
    ensures MeaningFields(fs, whole) == MeaningFields(gs, whole)
  {
    var m, n := MeaningFields(fs, whole), MeaningFields(gs, whole);
    FewerFieldsMeanNoMore(fs, gs, whole, m, n);
    FewerFieldsMeanNoMore(gs, fs, whole, n, m);
    hide MeaningFields, Meaning, DistinctKeys;
    SameMap(m, n);
  }

  lemma FewerFieldsMeanNoMore(fs: seq<Field>, gs: seq<Field>, whole: Value, m: map<Text, Datum>, n: map<Text, Datum>)
    requires Within(fs, whole) && Within(gs, whole) && DistinctKeys(fs, KeyOf()) && DistinctKeys(gs, KeyOf())
    requires forall f | f in fs :: f in gs
    requires m == MeaningFields(fs, whole) && n == MeaningFields(gs, whole)
    ensures forall k | k in m :: k in n && n[k] == m[k]
  {
    MeaningFieldsAt(fs, whole);
    MeaningFieldsAt(gs, whole);
    hide MeaningFields, Meaning, DistinctKeys, Within;
    forall k | k in m ensures k in n && n[k] == m[k] {
      var f :| f in fs && f.key == k;
    }
  }

  lemma JoinStep(texts: seq<Text>)
    requires texts != []
    ensures Join(texts) == texts[0] + if |texts| == 1 then [] else [COMMA] + Join(texts[1..])
  {}

  /** The text of a slot of an array. */
  function SlotText(v: Value): Text {
    if v.Undefined? then NULL_TEXT else Stringify(v).value
  }

  lemma SlotsStep(elems: seq<Value>, whole: Value)
    requires ElemsWithin(elems, whole) && elems != []
    ensures ElemsWithin(elems[1..], whole) && elems[0] < whole
    ensures Slots(elems, whole) == [SlotText(elems[0])] + Slots(elems[1..], whole) && |Slots(elems, whole)| == |elems|
    ensures MeaningElems(elems, whole) == [Meaning(elems[0])] + MeaningElems(elems[1..], whole)
    ensures |elems| == 1 ==> MeaningElems(elems, whole) == [Meaning(elems[0])]
  {
    SlotsLength(elems, whole);
    UndefinedText(elems[0]);
    hide Meaning, Stringify;
  }

  lemma {:induction false} SlotsLength(elems: seq<Value>, whole: Value)
    requires ElemsWithin(elems, whole)
    ensures |Slots(elems, whole)| == |elems|
  {
    if elems != [] {
      SlotsLength(elems[1..], whole);
    }
  }

  lemma {:induction false} MembersLength(fields: seq<Field>, whole: Value)
    requires Within(fields, whole) && forall f | f in fields :: !f.val.Undefined?
    ensures |Members(fields, whole)| == |fields|
  {
    if fields != [] {
      UndefinedText(fields[0].val);
      hide Stringify;
      MembersLength(fields[1..], whole);
    }
  }

  lemma MembersStep(fields: seq<Field>, whole: Value)
    requires Within(fields, whole) && fields != [] && forall f | f in fields :: !f.val.Undefined?
    ensures Within(fields[1..], whole) && fields[0].val < whole && Stringify(fields[0].val).Some?
    ensures Members(fields, whole) ==
      [Quoted(fields[0].key) + [COLON] + Stringify(fields[0].val).value] + Members(fields[1..], whole)
    ensures |Members(fields, whole)| == |fields|
    ensures MeaningFields(fields, whole) == map[fields[0].key := Meaning(fields[0].val)] + MeaningFields(fields[1..], whole)
    ensures |fields| == 1 ==> MeaningFields(fields, whole) == map[fields[0].key := Meaning(fields[0].val)]
  {
    MembersLength(fields, whole);
    UndefinedText(fields[0].val);
    hide Meaning, Stringify, Quoted;
  }

  lemma StringifyStart(v: Value)
    requires Stringify(v).Some?
    ensures Stringify(v).value != [] && Stringify(v).value[0] != CLOSE_ARRAY
  {
    if v.Num? {
      DigitsParse(if v.n < 0 then -v.n else v.n, []);
    }
  }

  /** The text of every tidy value parses back to its meaning, whatever delimited text follows. */
  lemma {:induction false} StringifyParses(v: Value, rest: Text)
    requires Tidy(v) && !v.Undefined? && Delimited(rest)
    ensures Stringify(v).Some? && ParseValue(Stringify(v).value + rest) == Some((Meaning(v), rest))
    decreases v, 1
  {
    match v {
      case Arr(elems) =>
        if elems != [] {
          SlotsParse(elems, v, rest);
        }
        hide ParseValue, ParseElems, Slots, Join, MeaningElems;
        ArrayParses(Join(Slots(elems, v)), MeaningElems(elems, v), rest) by { hide *; EmptyArray(elems, v); }
      case Obj(fields) =>
        ShownMeaning(fields, v);
        if Shown(fields) != [] {
          MembersParse(Shown(fields), v, rest);
        }
        hide ParseValue, ParseFields, Members, Join, MeaningFields, Stringify, Meaning, Shown;
        ObjectParses(Join(Members(Shown(fields), v)), MeaningFields(Shown(fields), v), rest) by { hide *; EmptyObject(Shown(fields), v); }
      case _ => ScalarParses(v, rest);
    }
  }

  lemma EmptyArray(elems: seq<Value>, v: Value)
    requires ElemsWithin(elems, v)
    ensures elems == [] ==> Join(Slots(elems, v)) == []
    ensures |MeaningElems(elems, v)| == |elems|
  {}

  lemma EmptyObject(fields: seq<Field>, v: Value)
    requires Within(fields, v)
    ensures fields == [] ==> Join(Members(fields, v)) == [] && MeaningFields(fields, v) == map[]
  {}

  lemma ScalarParses(v: Value, rest: Text)
    requires !v.Arr? && !v.Obj? && !v.Undefined? && Delimited(rest)
    ensures Stringify(v).Some? && ParseValue(Stringify(v).value + rest) == Some((Meaning(v), rest))
  {
    hide ParseValue;
    assert Stringify(v) == Canonical(v);
    ScalarRoundTrip(v, Stringify(v).value, rest);
  }

  /** A slot parses; an undefined one as null. */
  lemma {:induction false} SlotParses(v: Value, rest: Text)
    requires Tidy(v) && Delimited(rest)
    ensures ParseValue(SlotText(v) + rest) == Some((Meaning(v), rest)) && SlotText(v) != [] && SlotText(v)[0] != CLOSE_ARRAY
    decreases v, 2
  {
    if v.Undefined? {
      ScalarRoundTrip(Null, NULL_TEXT, rest);
    } else {
      StringifyParses(v, rest);
      StringifyStart(v);
      hide Stringify, ParseValue;
    }
  }

  lemma {:induction false} SlotsParse(elems: seq<Value>, v: Value, rest: Text)
    requires ElemsWithin(elems, v) && elems != [] && (forall i | 0 <= i < |elems| :: Tidy(elems[i]))
    ensures var body := Join(Slots(elems, v));
      body != [] && body[0] != CLOSE_ARRAY && ParseElems(body + [CLOSE_ARRAY] + rest) == Some((MeaningElems(elems, v), rest))
    decreases v, 0, |elems|
  {
    SlotsStep(elems, v);
    JoinStep(Slots(elems, v));
    var last, first, more := |elems| == 1, SlotText(elems[0]), Join(Slots(elems[1..], v));
    var after := After(last, more, CLOSE_ARRAY, rest);
    assert after != [] && (after[0] == if last then CLOSE_ARRAY else COMMA);
    Regroup(first, last, more, CLOSE_ARRAY, rest);
    AfterTail(last, more, CLOSE_ARRAY, rest);
    hide ParseValue, ParseElems, SlotText, Slots, Join, Meaning, MeaningElems, ElemsWithin, After, Tidy;
    SlotParses(elems[0], after);
    if !last {
      SlotsParse(elems[1..], v, rest);
    }
    ParseElemsStep(first, Meaning(elems[0]), after);
  }

  lemma {:induction false} MembersParse(fields: seq<Field>, v: Value, rest: Text)
    requires Within(fields, v) && fields != [] && forall f | f in fields :: !f.val.Undefined? && Tidy(f.val)
    ensures var body := Join(Members(fields, v));
      body != [] && body[0] == QUOTE && ParseFields(body + [CLOSE_OBJECT] + rest) == Some((MeaningFields(fields, v), rest))
    decreases v, 0, |fields|
  {
    assert fields[0] in fields && forall f | f in fields[1..] :: f in fields;
    MembersStep(fields, v);
    JoinStep(Members(fields, v));
    var last, name, first, more := |fields| == 1, fields[0].key, Stringify(fields[0].val).value, Join(Members(fields[1..], v));
    var after := After(last, more, CLOSE_OBJECT, rest);
    assert after != [] && (after[0] == if last then CLOSE_OBJECT else COMMA);
    MemberText(name, first, last, more, rest);
    AfterTail(last, more, CLOSE_OBJECT, rest);
    QuotedStart(name);
    hide ParseValue, ParseFields, Quoted, Stringify, Members, Join, Meaning, MeaningFields, Within, After, Tidy;
    StringifyParses(fields[0].val, after);
    if !last {
      MembersParse(fields[1..], v, rest);
    }
    ParseFieldsStep(name, first, Meaning(fields[0].val), after);
  }

  lemma QuotedStart(name: Text)
    ensures Quoted(name) != [] && Quoted(name)[0] == QUOTE
  {}

  // ---------------------------------------------------------------- one meaning, one text

  /** Tidy values that mean the same print the same: the key set fixes the order of the keys. */
  lemma {:induction false} MeaningFixesText(v: Value, w: Value)
    requires Tidy(v) && Tidy(w) && !v.Undefined? && !w.Undefined? && Meaning(v) == Meaning(w)
    ensures Stringify(v) == Stringify(w)
    decreases v, 1
  {
    match v {
      case Arr(elems) =>
        SlotsFixed(elems, w.elems, v, w);
      case Obj(fields) =>
        ShownMeaning(fields, v);
        ShownMeaning(w.fields, w);
        MembersFixed(Shown(fields), Shown(w.fields), v, w);
      case _ =>
    }
  }

  lemma {:induction false} SlotFixed(v: Value, w: Value)
    requires Tidy(v) && Tidy(w) && Meaning(v) == Meaning(w)
    ensures SlotText(v) == SlotText(w)
    decreases v, 2
  {
    if v.Undefined? || w.Undefined? {
      assert Meaning(v) == DNull;
      NullText(v);
      NullText(w);
    } else {
      MeaningFixesText(v, w);
    }
  }

  lemma NullText(v: Value)
    requires Meaning(v) == DNull
    ensures SlotText(v) == NULL_TEXT
  {}

  lemma {:induction false} SlotsFixed(xs: seq<Value>, ys: seq<Value>, v: Value, w: Value)
    requires ElemsWithin(xs, v) && ElemsWithin(ys, w)
    requires (forall i | 0 <= i < |xs| :: Tidy(xs[i])) && (forall i | 0 <= i < |ys| :: Tidy(ys[i]))
    requires MeaningElems(xs, v) == MeaningElems(ys, w)
    ensures Slots(xs, v) == Slots(ys, w)
    decreases v, 0, |xs|
  {
    assert |xs| == |ys|;
    if xs != [] {
      SlotsStep(xs, v);
      SlotsStep(ys, w);
      hide Slots, SlotText, Meaning, MeaningElems, Tidy;
      SameHead(MeaningElems(xs, v), Meaning(xs[0]), MeaningElems(xs[1..], v), Meaning(ys[0]), MeaningElems(ys[1..], w));
      SlotFixed(xs[0], ys[0]);
      SlotsFixed(xs[1..], ys[1..], v, w);
    }
  }

  lemma SameHead(all: seq<Datum>, a: Datum, as': seq<Datum>, b: Datum, bs: seq<Datum>)
    requires all == [a] + as' && all == [b] + bs
    ensures a == b && as' == bs
  {
    assert all[0] == a && all[1..] == as' && all[0] == b && all[1..] == bs;
  }

  /** The first of a listed object's fields comes ahead of all its other keys. */
  lemma HeadComesFirst(fields: seq<Field>, whole: Value)
    requires Listed(fields) && fields != [] && Within(fields, whole)
    ensures var m := MeaningFields(fields, whole);
      && fields[0].key in m && m[fields[0].key] == Meaning(fields[0].val)
      && (forall k | k in m :: k == fields[0].key || Ahead(fields[0].key, k))
      && MeaningFields(fields[1..], whole) == m - {fields[0].key}
  {
    var head, tail := fields[0], fields[1..];
    var m, rest := MeaningFields(fields, whole), MeaningFields(tail, whole);
    assert m == map[head.key := Meaning(head.val)] + rest;
    HeadAhead(fields);
    ListedDistinct(tail);
    MeaningFieldsAt(tail, whole);
    hide Meaning, MeaningFields, Listed, Ahead, DistinctKeys;
    assert head.key !in rest by {
      if head.key in rest {
        var f :| f in tail && f.key == head.key;
        AheadAsymmetric(head.key, f.key);
      }
    }
    MapHead(m, rest, head.key, Meaning(head.val));
  }

  lemma {:induction false} MembersFixed(fs: seq<Field>, gs: seq<Field>, v: Value, w: Value)
    requires Within(fs, v) && Within(gs, w) && Listed(fs) && Listed(gs)
    requires (forall f | f in fs :: !f.val.Undefined? && Tidy(f.val)) && forall g | g in gs :: !g.val.Undefined? && Tidy(g.val)
    requires MeaningFields(fs, v) == MeaningFields(gs, w)
    ensures Members(fs, v) == Members(gs, w)
    decreases v, 0, |fs|
  {
    EmptyFields(fs, gs, v, w);
    if fs != [] {
      assert fs[0] in fs && (forall f | f in fs[1..] :: f in fs) && gs[0] in gs && forall g | g in gs[1..] :: g in gs;
      HeadAhead(fs);
      HeadAhead(gs);
      MembersStep(fs, v);
      MembersStep(gs, w);
      HeadComesFirst(fs, v);
      HeadComesFirst(gs, w);
      hide Members, Meaning, MeaningFields, Tidy, Listed, Ahead, Stringify, Quoted;
      AheadAsymmetric(fs[0].key, gs[0].key);
      MeaningFixesText(fs[0].val, gs[0].val);
      MembersFixed(fs[1..], gs[1..], v, w);
    }
  }

  // ---------------------------------------------------------------- rebuilding

  lemma {:induction false} RebuiltElements(fields: seq<Field>, whole: Value)
    requires Within(fields, whole)
    ensures forall g :: g in Rebuilt(fields, whole) <==> exists f :: f in fields && f.key != PROTO && g == Field(f.key, SortKeys(f.val))
  {
    if fields != [] {
      RebuiltElements(fields[1..], whole);
      hide SortKeys;
      assert forall f :: f in fields <==> f == fields[0] || f in fields[1..];
    }
  }

  lemma {:induction false} RebuiltSorted(fields: seq<Field>, whole: Value)
    requires Within(fields, whole) && StrictlySorted(fields, KeyOf())
    ensures StrictlySorted(Rebuilt(fields, whole), KeyOf())
  {
    if fields != [] {
      SortedTail(fields, KeyOf());
      HeadKeyIsLeast(fields);
      RebuiltSorted(fields[1..], whole);
      RebuiltElements(fields[1..], whole);
      var head, tail := Field(fields[0].key, SortKeys(fields[0].val)), Rebuilt(fields[1..], whole);
      assert Rebuilt(fields, whole) == if fields[0].key == PROTO then tail else [head] + tail;
      hide SortKeys, Less, Rebuilt;
      assert forall g | g in tail :: Less(head.key, g.key);
    }
  }

  lemma {:induction false} SortElemsAt(elems: seq<Value>, whole: Value)
    requires ElemsWithin(elems, whole)
    ensures |SortElems(elems, whole)| == |elems| && forall i | 0 <= i < |elems| :: SortElems(elems, whole)[i] == SortKeys(elems[i])
  {
    if elems != [] {
      SortElemsAt(elems[1..], whole);
      hide SortKeys;
    }
  }

  lemma {:induction false} ElemsWithoutAt(elems: seq<Value>, whole: Value)
    requires ElemsWithin(elems, whole)
    ensures |ElemsWithout(elems, whole)| == |elems| && forall i | 0 <= i < |elems| :: ElemsWithout(elems, whole)[i] == WithoutProto(elems[i])
  {
    if elems != [] {
      ElemsWithoutAt(elems[1..], whole);
      hide WithoutProto;
    }
  }

  lemma {:induction false} FieldsWithoutElements(fields: seq<Field>, whole: Value)
    requires Within(fields, whole)
    ensures forall g :: g in FieldsWithout(fields, whole) <==> exists f :: f in fields && f.key != PROTO && g == Field(f.key, WithoutProto(f.val))
    ensures DistinctKeys(fields, KeyOf()) ==> DistinctKeys(FieldsWithout(fields, whole), KeyOf())
  {
    if fields != [] {
      FieldsWithoutElements(fields[1..], whole);
      var head, tail := Field(fields[0].key, WithoutProto(fields[0].val)), FieldsWithout(fields[1..], whole);
      assert FieldsWithout(fields, whole) == if fields[0].key == PROTO then tail else [head] + tail;
      hide WithoutProto, FieldsWithout;
      assert forall f :: f in fields <==> f == fields[0] || f in fields[1..];
      if DistinctKeys(fields, KeyOf()) {
        forall f | f in fields[1..] ensures f.key != fields[0].key {
          assert KeyOf()(f) != KeyOf()(fields[0]);
        }
        assert DistinctKeys(fields[1..], KeyOf());
        assert forall g | g in tail :: g.key != head.key;
      }
    }
  }

  lemma {:induction false} SortIsTidy(v: Value)
    requires Proper(v)
    ensures Tidy(SortKeys(v))
    decreases v
  {
    match v {
      case Arr(elems) =>
        SortElemsAt(elems, v);
        forall i | 0 <= i < |elems| ensures Tidy(SortKeys(elems[i])) {
          SortIsTidy(elems[i]);
        }
      case Obj(fields) =>
        RebuiltObject(fields, v);
        forall f | f in fields ensures Tidy(SortKeys(f.val)) {
          SortIsTidy(f.val);
        }
        hide SortKeys;
      case _ =>
    }
  }

  /** Rebuilding drops the __proto__ fields and nothing else. */
  lemma {:induction false} SortMeans(v: Value)
    requires Proper(v)
    ensures Meaning(SortKeys(v)) == Meaning(WithoutProto(v))
    ensures SortKeys(v).Undefined? == WithoutProto(v).Undefined? == v.Undefined?
    decreases v
  {
    match v {
      case Arr(elems) =>
        SortElemsAt(elems, v);
        ElemsWithoutAt(elems, v);
        forall i | 0 <= i < |elems| ensures Meaning(SortKeys(elems[i])) == Meaning(WithoutProto(elems[i])) {
          SortMeans(elems[i]);
        }
        SameElemsMean(SortElems(elems, v), ElemsWithout(elems, v), SortKeys(v), WithoutProto(v));
      case Obj(fields) =>
        forall f | f in fields
          ensures Meaning(SortKeys(f.val)) == Meaning(WithoutProto(f.val)) && SortKeys(f.val).Undefined? == WithoutProto(f.val).Undefined?
        {
          SortMeans(f.val);
        }
        FieldsMean(fields, v);
      case _ =>
    }
  }

  lemma {:induction false} SameElemsMean(xs: seq<Value>, ys: seq<Value>, v: Value, w: Value)
    requires ElemsWithin(xs, v) && ElemsWithin(ys, w) && |xs| == |ys| && forall i | 0 <= i < |xs| :: Meaning(xs[i]) == Meaning(ys[i])
    ensures MeaningElems(xs, v) == MeaningElems(ys, w)
  {
    if xs != [] {
      hide Meaning;
      SameElemsMean(xs[1..], ys[1..], v, w);
    }
  }

  /** Every field has a partner among the others, of the same name, meaning the same. */
  ghost predicate Partnered(fs: seq<Field>, gs: seq<Field>) {
    forall f | f in fs :: exists g :: g in gs && Alike(f, g)
  }

  ghost predicate Alike(f: Field, g: Field) {
    f.key == g.key && f.val.Undefined? == g.val.Undefined? && Meaning(f.val) == Meaning(g.val)
  }

  /** Two lists made field by field from one list are partnered if each pair is alike, either way. */
  lemma PartnersFrom(fields: seq<Field>, fs: seq<Field>, gs: seq<Field>)
    requires forall f | f in fields :: Alike(Field(f.key, SortKeys(f.val)), Field(f.key, WithoutProto(f.val)))
    requires forall g :: g in fs <==> exists f :: f in fields && f.key != PROTO && g == Field(f.key, SortKeys(f.val))
    requires forall g :: g in gs <==> exists f :: f in fields && f.key != PROTO && g == Field(f.key, WithoutProto(f.val))
    ensures Partnered(fs, gs) && Partnered(gs, fs)
  {
    hide SortKeys, WithoutProto, Meaning;
    forall f | f in fs ensures exists g :: g in gs && Alike(f, g) {
      var x :| x in fields && x.key != PROTO && f == Field(x.key, SortKeys(x.val));
      assert Field(x.key, WithoutProto(x.val)) in gs;
    }
    forall g | g in gs ensures exists f :: f in fs && Alike(g, f) {
      var x :| x in fields && x.key != PROTO && g == Field(x.key, WithoutProto(x.val));
      assert Field(x.key, SortKeys(x.val)) in fs;
    }
  }

  lemma FieldsMean(fields: seq<Field>, v: Value)
    requires v == Obj(fields) && Proper(v)
    requires forall f | f in fields :: Alike(Field(f.key, SortKeys(f.val)), Field(f.key, WithoutProto(f.val)))
    ensures Meaning(SortKeys(v)) == Meaning(WithoutProto(v))
  {
    RebuiltObject(fields, v);
    FieldsWithoutElements(fields, v);
    var fs, gs := SortKeys(v).fields, WithoutProto(v).fields;
    assert DistinctKeys(gs, KeyOf()) && gs == FieldsWithout(fields, v) && SortKeys(v) == Obj(fs) && WithoutProto(v) == Obj(gs);
    hide SortKeys, WithoutProto, FieldsWithout, Proper, DistinctKeys, Meaning, Alike, StrictlySorted;
    PartnersFrom(fields, fs, gs);
    assert Partnered(fs, gs) && Partnered(gs, fs);
    ObjectsMean(fs, gs);
  }

  /** A rebuilt object has each of the original's fields but __proto__, rebuilt, once each. */
  lemma RebuiltObject(fields: seq<Field>, v: Value)
    requires v == Obj(fields) && Proper(v)
    ensures SortKeys(v).Obj? && StrictlySorted(SortKeys(v).fields, KeyOf()) && DistinctKeys(SortKeys(v).fields, KeyOf())
    ensures forall g :: g in SortKeys(v).fields <==> exists f :: f in fields && f.key != PROTO && g == Field(f.key, SortKeys(f.val))
  {
    var sorted := Sort(fields, KeyOf());
    SortElements(fields, KeyOf());
    SortSorted(fields, KeyOf());
    assert Within(sorted, v);
    RebuiltSorted(sorted, v);
    RebuiltElements(sorted, v);
    SortedDistinct(Rebuilt(sorted, v));
    assert SortKeys(v) == Obj(Rebuilt(sorted, v));
    hide SortKeys, Rebuilt, Sort;
  }

  /** What an object means: its defined fields, each by its meaning. */
  lemma ObjectMeans(fs: seq<Field>)
    requires DistinctKeys(fs, KeyOf())
    ensures Meaning(Obj(fs)).DObj?
    ensures forall k :: k in Meaning(Obj(fs)).fields <==> exists f :: f in fs && !f.val.Undefined? && f.key == k
    ensures forall f | f in fs && !f.val.Undefined? ::
      f.key in Meaning(Obj(fs)).fields && Meaning(Obj(fs)).fields[f.key] == Meaning(f.val)
  {
    PrintedElements(fs);
    PrintedSorted(fs);
    SortedDistinct(Printed(fs));
    MeaningFieldsAt(Printed(fs), Obj(fs));
    assert Meaning(Obj(fs)) == DObj(MeaningFields(Printed(fs), Obj(fs)));
    hide Printed, MeaningFields, Meaning, DistinctKeys, StrictlySorted;
  }

  /** Objects with the same keys, each meaning the same, mean the same. */
  lemma ObjectsMean(fs: seq<Field>, gs: seq<Field>)
    requires DistinctKeys(fs, KeyOf()) && DistinctKeys(gs, KeyOf()) && Partnered(fs, gs) && Partnered(gs, fs)
    ensures Meaning(Obj(fs)) == Meaning(Obj(gs))
  {
    MeansNoMore(fs, gs);
    MeansNoMore(gs, fs);
    hide *;
    SameMap(Meaning(Obj(fs)).fields, Meaning(Obj(gs)).fields);
  }

  lemma SameMap(m: map<Text, Datum>, n: map<Text, Datum>)
    requires (forall k | k in m :: k in n && n[k] == m[k]) && forall k | k in n :: k in m
    ensures m == n
  {}

  lemma MeansNoMore(fs: seq<Field>, gs: seq<Field>)
    requires DistinctKeys(fs, KeyOf()) && DistinctKeys(gs, KeyOf()) && Partnered(fs, gs)
    ensures Meaning(Obj(fs)).DObj? && Meaning(Obj(gs)).DObj?
    ensures var m, n := Meaning(Obj(fs)).fields, Meaning(Obj(gs)).fields;
      forall k | k in m :: k in n && n[k] == m[k]
  {
    ObjectMeans(fs);
    ObjectMeans(gs);
    var m, n := Meaning(Obj(fs)).fields, Meaning(Obj(gs)).fields;
    hide Meaning, DistinctKeys;
    forall k | k in m ensures k in n && n[k] == m[k] {
      var f :| f in fs && !f.val.Undefined? && f.key == k;
      var g :| g in gs && Alike(f, g);
    }
  }

  // ---------------------------------------------------------------- what a text covers

  /** For all values: rebuilt and stringified, two of them give the same text exactly if they mean the same
      once the __proto__ fields are left out, at every depth. */
  lemma TextCoversAllButProto(v: Value, w: Value)
    requires Proper(v) && Proper(w) && !v.Undefined? && !w.Undefined?
    ensures Stringify(SortKeys(v)) == Stringify(SortKeys(w)) <==> Meaning(WithoutProto(v)) == Meaning(WithoutProto(w))
  {
    SortIsTidy(v);
    SortIsTidy(w);
    SortMeans(v);
    SortMeans(w);
    hide SortKeys, WithoutProto, Stringify, Meaning, Tidy, Proper;
    StringifyParses(SortKeys(v), []);
    StringifyParses(SortKeys(w), []);
    if Meaning(SortKeys(v)) == Meaning(SortKeys(w)) {
      MeaningFixesText(SortKeys(v), SortKeys(w));
    }
  }

  lemma CoveredIsProper(data: Value, timestamp: Value, txType: Value)
    requires Proper(data) && Proper(timestamp) && Proper(txType)
    ensures Proper(Covered(data, timestamp, txType))
  {
    assert DATA[0] != TIMESTAMP[0] && DATA[0] != TX_TYPE[0] && TIMESTAMP[1] != TX_TYPE[1];
  }

  /** The text of a transaction, with any data at all: it is the same for two transactions exactly if their
      three fields mean the same with the __proto__ fields left out. */
  lemma TxTextIff(data1: Value, timestamp1: Value, txType1: Value, data2: Value, timestamp2: Value, txType2: Value)
    requires Proper(data1) && Proper(timestamp1) && Proper(txType1) && Proper(data2) && Proper(timestamp2) && Proper(txType2)
    ensures TxText(data1, timestamp1, txType1) == TxText(data2, timestamp2, txType2)
      <==> Meaning(WithoutProto(Covered(data1, timestamp1, txType1))) == Meaning(WithoutProto(Covered(data2, timestamp2, txType2)))
  {
    CoveredIsProper(data1, timestamp1, txType1);
    CoveredIsProper(data2, timestamp2, txType2);
    TextCoversAllButProto(Covered(data1, timestamp1, txType1), Covered(data2, timestamp2, txType2));
  }

  ghost predicate FreeOfProto(v: Value) {
    match v
    case Arr(elems) => forall i | 0 <= i < |elems| :: FreeOfProto(elems[i])
    case Obj(fields) => forall f | f in fields :: f.key != PROTO && FreeOfProto(f.val)
    case _ => true
  }

  lemma {:induction false} NothingLeftOut(v: Value)
    requires FreeOfProto(v)
    ensures WithoutProto(v) == v
    decreases v, 1
  {
    match v {
      case Arr(elems) =>
        ElemsWithoutAt(elems, v);
        forall i | 0 <= i < |elems| ensures WithoutProto(elems[i]) == elems[i] {
          NothingLeftOut(elems[i]);
        }
        assert ElemsWithout(elems, v) == elems;
      case Obj(fields) =>
        NoFieldLeftOut(fields, v);
      case _ =>
    }
  }

  lemma {:induction false} NoFieldLeftOut(fields: seq<Field>, v: Value)
    requires Within(fields, v) && forall f | f in fields :: f.key != PROTO && FreeOfProto(f.val)
    ensures FieldsWithout(fields, v) == fields
    decreases v, 0, |fields|
  {
    if fields != [] {
      assert fields[0] in fields && forall f | f in fields[1..] :: f in fields;
      NothingLeftOut(fields[0].val);
      NoFieldLeftOut(fields[1..], v);
    }
  }

  /** Transactions without such fields, with undefined slots and index-like keys as they please, have the
      same text exactly if they mean the same. */
  lemma SameTextSameTransaction(data1: Value, timestamp1: Value, txType1: Value, data2: Value, timestamp2: Value, txType2: Value)
    requires Proper(data1) && Proper(timestamp1) && Proper(txType1) && Proper(data2) && Proper(timestamp2) && Proper(txType2)
    requires FreeOfProto(data1) && FreeOfProto(timestamp1) && FreeOfProto(txType1)
    requires FreeOfProto(data2) && FreeOfProto(timestamp2) && FreeOfProto(txType2)
    ensures TxText(data1, timestamp1, txType1) == TxText(data2, timestamp2, txType2)
      <==> Meaning(Covered(data1, timestamp1, txType1)) == Meaning(Covered(data2, timestamp2, txType2))
  {
    TxTextIff(data1, timestamp1, txType1, data2, timestamp2, txType2);
    CoveredFree(data1, timestamp1, txType1);
    CoveredFree(data2, timestamp2, txType2);
    hide *;
    NothingLeftOut(Covered(data1, timestamp1, txType1));
    NothingLeftOut(Covered(data2, timestamp2, txType2));
  }

  lemma CoveredFree(data: Value, timestamp: Value, txType: Value)
    requires FreeOfProto(data) && FreeOfProto(timestamp) && FreeOfProto(txType)
    ensures FreeOfProto(Covered(data, timestamp, txType))
  {
    assert DATA[0] != PROTO[0] && TIMESTAMP[0] != PROTO[0] && TX_TYPE[0] != PROTO[0];
  }

  /** Any object can gain a __proto__ field anywhere among its fields, and the text does not show it. */
  lemma ProtoUnseen(a: seq<Field>, b: seq<Field>, x: Value)
    requires Proper(Obj(a + [Field(PROTO, x)] + b))
    ensures Stringify(SortKeys(Obj(a + [Field(PROTO, x)] + b))) == Stringify(SortKeys(Obj(a + b)))
  {
    var v, w := Obj(a + [Field(PROTO, x)] + b), Obj(a + b);
    ProperWithout(a, Field(PROTO, x), b);
    TextCoversAllButProto(v, w);
    assert WithoutProto(v) == WithoutProto(w) by {
      FieldGone(a, b, x, v, w);
    }
  }

  lemma ProperWithout(a: seq<Field>, f: Field, b: seq<Field>)
    requires Proper(Obj(a + [f] + b))
    ensures Proper(Obj(a + b))
  {
    var afb: seq<Field>, ab: seq<Field> := a + [f] + b, a + b;
    assert DistinctKeys(afb, KeyOf());
    forall i, j | 0 <= i < j < |ab| ensures KeyOf()(ab[i]) != KeyOf()(ab[j]) {
      var i', j' := if i < |a| then i else i + 1, if j < |a| then j else j + 1;
      assert ab[i] == afb[i'] && ab[j] == afb[j'];
      assert KeyOf()(afb[i']) != KeyOf()(afb[j']);
    }
    assert forall g | g in ab :: g in afb;
  }

  lemma FieldGone(a: seq<Field>, b: seq<Field>, x: Value, v: Value, w: Value)
    requires v == Obj(a + [Field(PROTO, x)] + b) && w == Obj(a + b)
    ensures WithoutProto(v) == WithoutProto(w)
  {
    var proto := [Field(PROTO, x)];
    assert Within(a + proto + b, v) && Within(a + b, w);
    assert WithoutProto(v) == Obj(FieldsWithout(a + proto + b, v)) && WithoutProto(w) == Obj(FieldsWithout(a + b, w));
    FieldsWithoutConcat(a + proto, b, v);
    FieldsWithoutConcat(a, proto, v);
    FieldsWithoutConcat(a, b, w);
    assert proto[1..] == [];
    assert FieldsWithout(proto, v) == [];
    hide FieldsWithout, WithoutProto;
    FieldsWithoutWhole(a, v, w);
    FieldsWithoutWhole(b, v, w);
  }

  lemma PartsWithin(a: seq<Field>, b: seq<Field>, whole: Value)
    requires Within(a + b, whole)
    ensures Within(a, whole) && Within(b, whole)
  {
    assert forall f | f in a || f in b :: f in a + b;
  }

  lemma {:induction false} FieldsWithoutConcat(a: seq<Field>, b: seq<Field>, whole: Value)
    requires Within(a + b, whole)
    ensures Within(a, whole) && Within(b, whole) && FieldsWithout(a + b, whole) == FieldsWithout(a, whole) + FieldsWithout(b, whole)
  {
    PartsWithin(a, b, whole);
    if a == [] {
      assert a + b == b;
    } else {
      assert (a + b)[1..] == a[1..] + b;
      FieldsWithoutConcat(a[1..], b, whole);
      var kept := if a[0].key == PROTO then [] else [Field(a[0].key, WithoutProto(a[0].val))];
      assert FieldsWithout(a, whole) == kept + FieldsWithout(a[1..], whole);
      assert FieldsWithout(a + b, whole) == kept + FieldsWithout(a[1..] + b, whole);
      hide *;
      assert FieldsWithout(a + b, whole) == FieldsWithout(a, whole) + FieldsWithout(b, whole);
    }
  }

  lemma {:induction false} FieldsWithoutWhole(fields: seq<Field>, v: Value, w: Value)
    requires Within(fields, v) && Within(fields, w)
    ensures FieldsWithout(fields, v) == FieldsWithout(fields, w)
  {
    if fields != [] {
      hide WithoutProto;
      FieldsWithoutWhole(fields[1..], v, w);
    }
  }
}
