/**
 Where the two printers of shared/crypto.js agree: JSON.stringify over rebuilt objects, which transaction
 identifiers are made from, and canonicalJson, which certificates are signed over.
 */
module Printers {
  import opened Common
  import opened Texts
  import opened Json
  import opened JsonProofs
  import opened CanonicalTx
  import opened TxMeaning

  /** Wherever one printed key sorts before another as text, an object also lists it first. */
  ghost predicate KeysInStep(fields: seq<Field>) {
    forall f, g | f in fields && g in fields && !f.val.Undefined? && !g.val.Undefined? && Less(f.key, g.key) ::
      Ahead(f.key, g.key)
  }

  /** At every depth that is printed: no array slot is undefined, no key is __proto__, and keys are in step. */
  ghost predicate InStep(v: Value) {
    match v
    case Undefined => false
    case Arr(elems) => forall i | 0 <= i < |elems| :: InStep(elems[i])
    case Obj(fields) => KeysInStep(fields) && forall f | f in fields && !f.val.Undefined? :: f.key != PROTO && InStep(f.val)
    case _ => true
  }

  // ---------------------------------------------------------------- equal texts, equal parts

  /** A parser that stops in the same text after different beginnings has read the same. */
  lemma SameSplit(s: Text, a: Text, t: Text, b: Text, d: Datum, e: Datum)
    requires ParseValue(s + a) == Some((d, a)) && ParseValue(t + b) == Some((e, b)) && s + a == t + b
    ensures s == t && a == b
  {
    hide ParseValue;
    assert (s + a)[..|s|] == s && (t + b)[..|t|] == t;
  }

  lemma AfterApart(last: bool, more: Text, last': bool, more': Text, close: int)
    requires close != COMMA && After(last, more, close, []) == After(last', more', close, [])
    ensures last == last' && (!last ==> more == more')
  {
    if !last {
      var s, t := After(last, more, close, []), After(last', more', close, []);
      assert s[1..|s| - 1] == more && t[1..|t| - 1] == more';
    }
  }

  lemma CloseOff(a: Text, b: Text, close: int)
    ensures a + [close] + [] == b + [close] + [] <==> a == b
  {
    if a + [close] + [] == b + [close] + [] {
      assert (a + [close] + [])[..|a|] == a && (b + [close] + [])[..|b|] == b;
    }
  }

  /** A value's canonical text and a rebuilt one's stringified text, each with more behind it. */
  lemma FirstParts(x: Value, s: Text, a: Text, y: Value, t: Text, b: Text)
    requires Canonical(x) == Some(s) && Tidy(y) && t == SlotText(y) && Delimited(a) && Delimited(b) && s + a == t + b
    ensures s == t && a == b
  {
    hide Canonical, Tidy, SlotText;
    RoundTrip(x, s, a);
    SlotParses(y, b);
    SameSplit(s, a, t, b, Meaning(x), Meaning(y));
  }

  // ---------------------------------------------------------------- arrays

  lemma {:induction false} ElemsAgreeIff(xs: seq<Value>, v: Value, ys: seq<Value>, w: Value)
    requires ElemsWithin(xs, v) && ElemsWithin(ys, w) && |xs| == |ys| && forall i | 0 <= i < |ys| :: Tidy(ys[i])
    ensures CanonicalElems(xs, v) == Some(Join(Slots(ys, w))) <==> forall i | 0 <= i < |xs| :: Canonical(xs[i]) == Some(SlotText(ys[i]))
  {
    if xs != [] {
      ElemsAgreeIff(xs[1..], v, ys[1..], w);
      ElemsHead(xs, v, ys, w);
      hide Canonical, CanonicalElems, Slots, Join, SlotText, Tidy, ElemsWithin;
      assert (forall i | 0 <= i < |xs| :: Canonical(xs[i]) == Some(SlotText(ys[i]))) <==>
        (Canonical(xs[0]) == Some(SlotText(ys[0])) &&
         forall i | 0 <= i < |xs[1..]| :: Canonical(xs[1..][i]) == Some(SlotText(ys[1..][i]))) by {
        assert forall i | 0 < i < |xs| :: xs[i] == xs[1..][i - 1] && ys[i] == ys[1..][i - 1];
      }
    }
  }

  lemma ElemsHead(xs: seq<Value>, v: Value, ys: seq<Value>, w: Value)
    requires ElemsWithin(xs, v) && ElemsWithin(ys, w) && |xs| == |ys| && xs != [] && Tidy(ys[0])
    ensures ElemsWithin(xs[1..], v) && ElemsWithin(ys[1..], w)
    ensures CanonicalElems(xs, v) == Some(Join(Slots(ys, w))) <==>
      (Canonical(xs[0]) == Some(SlotText(ys[0])) && CanonicalElems(xs[1..], v) == Some(Join(Slots(ys[1..], w))))
  {
    SlotsStep(ys, w);
    JoinStep(Slots(ys, w));
    NothingMore(xs[1..], v, ys[1..], w);
    if CanonicalElems(xs, v).Some? {
      ElemsText(xs, v, CanonicalElems(xs, v).value);
      hide Canonical, CanonicalElems, Slots, Join, SlotText, Tidy, ElemsWithin;
      SlotsApart(xs[0], Canonical(xs[0]).value, CanonicalElems(xs[1..], v).value, ys[0], Join(Slots(ys[1..], w)), |xs| == 1);
    } else {
      NoElemsText(xs, v);
    }
  }

  /** Two lists of slots read the same exactly if their first slots and what follows do. */
  lemma SlotsApart(x: Value, first: Text, more: Text, y: Value, more': Text, last: bool)
    requires Canonical(x) == Some(first) && Tidy(y) && (last ==> more == more' == [])
    ensures (first + if last then [] else [COMMA] + more) == (SlotText(y) + if last then [] else [COMMA] + more')
      <==> first == SlotText(y) && more == more'
  {
    hide Canonical, Tidy, SlotText;
    var first' := SlotText(y);
    var one, other := first + if last then [] else [COMMA] + more, first' + if last then [] else [COMMA] + more';
    var a, b := After(last, more, CLOSE_ARRAY, []), After(last, more', CLOSE_ARRAY, []);
    Regroup(first, last, more, CLOSE_ARRAY, []);
    Regroup(first', last, more', CLOSE_ARRAY, []);
    CloseOff(one, other, CLOSE_ARRAY);
    assert Delimited(a) && Delimited(b);
    hide After, Delimited;
    if one == other {
      FirstParts(x, first, a, y, first', b);
      AfterApart(last, more, last, more', CLOSE_ARRAY);
    }
  }

  lemma NothingMore(xs: seq<Value>, v: Value, ys: seq<Value>, w: Value)
    requires ElemsWithin(xs, v) && ElemsWithin(ys, w)
    ensures (xs == [] ==> CanonicalElems(xs, v) == Some([])) && (ys == [] ==> Join(Slots(ys, w)) == [])
  {}

  lemma NoElemsText(xs: seq<Value>, v: Value)
    requires ElemsWithin(xs, v) && xs != [] && CanonicalElems(xs, v).None?
    ensures Canonical(xs[0]).None? || CanonicalElems(xs[1..], v).None?
  {}

  // ---------------------------------------------------------------- objects

  /** The same keys, and the same text for each. */
  ghost predicate SameMembers(fs: seq<Field>, gs: seq<Field>) {
    |fs| == |gs| && forall i | 0 <= i < |fs| :: SameMember(fs[i], gs[i])
  }

  ghost predicate SameMember(f: Field, g: Field) {
    f.key == g.key && Canonical(f.val) == Stringify(g.val)
  }

  lemma {:induction false} FieldsAgreeIff(fs: seq<Field>, v: Value, gs: seq<Field>, w: Value)
    requires Within(fs, v) && Within(gs, w) && forall g | g in gs :: Tidy(g.val) && !g.val.Undefined?
    ensures CanonicalFields(fs, v) == Some(Join(Members(gs, w))) <==> SameMembers(fs, gs)
  {
    if fs != [] && gs != [] {
      assert gs[0] in gs && forall g | g in gs[1..] :: g in gs;
      hide *;
      FieldsHead(fs, v, gs, w);
      FieldsAgreeIff(fs[1..], v, gs[1..], w);
      SameMembersHead(fs, gs);
    } else {
      NoneLeft(fs, v, gs, w);
    }
  }

  lemma SameMembersHead(fs: seq<Field>, gs: seq<Field>)
    requires fs != [] && gs != []
    ensures SameMembers(fs, gs) <==> SameMember(fs[0], gs[0]) && SameMembers(fs[1..], gs[1..]) && (|fs| == 1 <==> |gs| == 1)
  {
    hide SameMember;
    if SameMember(fs[0], gs[0]) && SameMembers(fs[1..], gs[1..]) {
      assert forall i | 0 < i < |fs| :: fs[i] == fs[1..][i - 1] && gs[i] == gs[1..][i - 1];
    }
  }

  lemma NoneLeft(fs: seq<Field>, v: Value, gs: seq<Field>, w: Value)
    requires Within(fs, v) && Within(gs, w) && (fs == [] || gs == []) && forall g | g in gs :: !g.val.Undefined?
    ensures CanonicalFields(fs, v) == Some(Join(Members(gs, w))) <==> fs == gs == []
  {
    if fs != [] && CanonicalFields(fs, v).Some? {
      FieldsText(fs, v, CanonicalFields(fs, v).value);
      assert Join(Members([], w)) == [];
    }
    if gs != [] {
      MembersStep(gs, w);
      JoinStep(Members(gs, w));
      assert Join(Members(gs, w)) != [];
    }
  }

  lemma FieldsHead(fs: seq<Field>, v: Value, gs: seq<Field>, w: Value)
    requires Within(fs, v) && Within(gs, w) && fs != [] && gs != [] && Tidy(gs[0].val) && forall g | g in gs :: !g.val.Undefined?
    ensures Within(fs[1..], v) && Within(gs[1..], w)
    ensures CanonicalFields(fs, v) == Some(Join(Members(gs, w))) <==>
      (SameMember(fs[0], gs[0]) && CanonicalFields(fs[1..], v) == Some(Join(Members(gs[1..], w))) && (|fs| == 1 <==> |gs| == 1))
  {
    MembersStep(gs, w);
    JoinStep(Members(gs, w));
    if CanonicalFields(fs, v).Some? {
      FieldsText(fs, v, CanonicalFields(fs, v).value);
      var f, g := fs[0], gs[0];
      var last, first, more := |fs| == 1, Canonical(f.val).value, CanonicalFields(fs[1..], v).value;
      var last', first', more' := |gs| == 1, Stringify(g.val).value, Join(Members(gs[1..], w));
      assert first' == SlotText(g.val);
      MemberText(f.key, first, last, more, []);
      MemberText(g.key, first', last', more', []);
      CloseOff(CanonicalFields(fs, v).value, Join(Members(gs, w)), CLOSE_OBJECT);
      assert (last ==> more == []) && (last' ==> more' == []);
      assert Delimited(After(last, more, CLOSE_OBJECT, [])) && Delimited(After(last', more', CLOSE_OBJECT, []));
      hide Canonical, CanonicalFields, Members, Join, SlotText, Stringify, Tidy, After, Delimited, Quoted;
      if CanonicalFields(fs, v).value == Join(Members(gs, w)) {
        NamesApart(f.key, first + After(last, more, CLOSE_OBJECT, []), g.key, first' + After(last', more', CLOSE_OBJECT, []));
        FirstParts(f.val, first, After(last, more, CLOSE_OBJECT, []), g.val, first', After(last', more', CLOSE_OBJECT, []));
        AfterApart(last, more, last', more', CLOSE_OBJECT);
      }
    } else {
      NoFieldsText(fs, v);
    }
  }

  lemma NoFieldsText(fs: seq<Field>, v: Value)
    requires Within(fs, v) && fs != [] && CanonicalFields(fs, v).None?
    ensures Canonical(fs[0].val).None? || CanonicalFields(fs[1..], v).None?
  {}

  lemma NamesApart(name: Text, a: Text, name': Text, b: Text)
    requires Quoted(name) + ([COLON] + a) == Quoted(name') + ([COLON] + b)
    ensures name == name' && a == b
  {
    QuotedParses(name, [COLON] + a);
    QuotedParses(name', [COLON] + b);
    assert ([COLON] + a)[1..] == a && ([COLON] + b)[1..] == b;
  }

  /** A listed object is determined by its fields. */
  lemma {:induction false} ListedUnique(fs: seq<Field>, gs: seq<Field>)
    requires Listed(fs) && Listed(gs) && forall f :: f in fs <==> f in gs
    ensures fs == gs
  {
    assert |gs| > 0 ==> gs[0] in gs;
    if fs != [] {
      assert fs[0] in fs;
      HeadAhead(fs);
      HeadAhead(gs);
      hide Listed, Ahead;
      AheadAsymmetric(fs[0].key, gs[0].key);
      forall f | f in fs[1..] ensures f != fs[0] {
        AheadAsymmetric(fs[0].key, f.key);
      }
      forall g | g in gs[1..] ensures g != gs[0] {
        AheadAsymmetric(gs[0].key, g.key);
      }
      assert fs[0] == gs[0];
      assert forall f :: f in fs <==> f == fs[0] || f in fs[1..];
      assert forall g :: g in gs <==> g == gs[0] || g in gs[1..];
      ListedUnique(fs[1..], gs[1..]);
      assert fs == [fs[0]] + fs[1..] && gs == [gs[0]] + gs[1..];
    }
  }

  /** gs lists the defined fields of fs, rebuilt, without __proto__. */
  ghost predicate Lists(gs: seq<Field>, fs: seq<Field>) {
    Listed(gs) && forall g :: g in gs <==> exists f :: f in fs && f.key != PROTO && g == Field(f.key, SortKeys(f.val))
  }

  lemma ShownLists(fields: seq<Field>, v: Value)
    requires v == Obj(fields) && Proper(v)
    ensures SortKeys(v).Obj? && Lists(Shown(SortKeys(v).fields), Printed(fields))
    ensures forall g | g in Shown(SortKeys(v).fields) :: Tidy(g.val) && !g.val.Undefined?
  {
    SortIsTidy(v);
    RebuiltObject(fields, v);
    var all := SortKeys(v).fields;
    ShownMeaning(all, SortKeys(v));
    PrintedElements(fields);
    EnumeratedListed(all);
    VisibleElements(Enumerated(all));
    assert forall g :: g in Shown(all) <==> g in all && !g.val.Undefined?;
    forall f | f in fields ensures SortKeys(f.val).Undefined? == f.val.Undefined? {
      SortMeans(f.val);
    }
    hide SortKeys, Printed, Shown, Listed, StrictlySorted, DistinctKeys, Tidy;
  }

  lemma StepsIffSameMembers(fields: seq<Field>, fs: seq<Field>, gs: seq<Field>)
    requires DistinctKeys(fields, KeyOf()) && StrictlySorted(fs, KeyOf()) && Lists(gs, fs)
    requires forall f :: f in fs <==> f in fields && !f.val.Undefined?
    requires forall f | f in fs :: InStep(f.val) <==> Canonical(f.val) == Stringify(SortKeys(f.val))
    ensures SameMembers(fs, gs) <==> (KeysInStep(fields) && forall f | f in fs :: f.key != PROTO && InStep(f.val))
  {
    if SameMembers(fs, gs) {
      SameMembersStep(fields, fs, gs);
    }
    if KeysInStep(fields) && forall f | f in fs :: f.key != PROTO && InStep(f.val) {
      StepsSameMembers(fields, fs, gs);
    }
  }

  lemma SameMembersStep(fields: seq<Field>, fs: seq<Field>, gs: seq<Field>)
    requires StrictlySorted(fs, KeyOf()) && Lists(gs, fs) && SameMembers(fs, gs)
    requires forall f :: f in fs <==> f in fields && !f.val.Undefined?
    requires forall f | f in fs :: InStep(f.val) <==> Canonical(f.val) == Stringify(SortKeys(f.val))
    ensures KeysInStep(fields) && forall f | f in fs :: f.key != PROTO && InStep(f.val)
  {
    hide SortKeys, InStep, Ahead, Less, Canonical, Stringify;
    forall f, g | f in fs && g in fs && Less(f.key, g.key) ensures Ahead(f.key, g.key) {
      var i :| 0 <= i < |fs| && fs[i] == f;
      var j :| 0 <= j < |fs| && fs[j] == g;
      SortedPlaces(fs, i, j);
      assert SameMember(fs[i], gs[i]) && SameMember(fs[j], gs[j]);
    }
    forall f | f in fs ensures f.key != PROTO && InStep(f.val) {
      var i :| 0 <= i < |fs| && fs[i] == f;
      assert SameMember(fs[i], gs[i]) && gs[i] in gs;
      var h :| h in fs && h.key != PROTO && gs[i] == Field(h.key, SortKeys(h.val));
      SortedKeyOnce(fs, f, h);
    }
  }

  lemma SortedPlaces(fs: seq<Field>, i: nat, j: nat)
    requires StrictlySorted(fs, KeyOf()) && i < |fs| && j < |fs| && Less(fs[i].key, fs[j].key)
    ensures i < j
  {
    LessAsymmetric(fs[i].key, fs[j].key);
  }

  lemma SortedKeyOnce(fs: seq<Field>, f: Field, h: Field)
    requires StrictlySorted(fs, KeyOf()) && f in fs && h in fs && f.key == h.key
    ensures f == h
  {
    SortedDistinct(fs);
    var i :| 0 <= i < |fs| && fs[i] == f;
    var j :| 0 <= j < |fs| && fs[j] == h;
    assert KeyOf()(fs[i]) == KeyOf()(fs[j]);
  }

  lemma StepsSameMembers(fields: seq<Field>, fs: seq<Field>, gs: seq<Field>)
    requires StrictlySorted(fs, KeyOf()) && Lists(gs, fs)
    requires forall f :: f in fs <==> f in fields && !f.val.Undefined?
    requires forall f | f in fs :: Canonical(f.val) == Stringify(SortKeys(f.val))
    requires KeysInStep(fields) && forall f | f in fs :: f.key != PROTO
    ensures SameMembers(fs, gs)
  {
    var hs := seq(|fs|, i requires 0 <= i < |fs| => Field(fs[i].key, SortKeys(fs[i].val)));
    hide SortKeys, Ahead, Less, Canonical, Stringify;
    forall i, j | 0 <= i < j < |hs| ensures Ahead(hs[i].key, hs[j].key) {
      assert fs[i] in fs && fs[j] in fs && Less(KeyOf()(fs[i]), KeyOf()(fs[j]));
    }
    forall g ensures g in hs <==> g in gs {
      if g in hs {
        var i :| 0 <= i < |hs| && hs[i] == g;
        assert fs[i] in fs;
      }
      if g in gs {
        var f :| f in fs && f.key != PROTO && g == Field(f.key, SortKeys(f.val));
        var i :| 0 <= i < |fs| && fs[i] == f;
        assert hs[i] == g;
      }
    }
    ListedUnique(hs, gs);
    forall i | 0 <= i < |fs| ensures SameMember(fs[i], gs[i]) {
      assert gs[i] == hs[i] && fs[i] in fs;
    }
  }

  // ---------------------------------------------------------------- agreement

  lemma InnerOf(open: int, a: Text, b: Text, close: int)
    ensures [open] + a + [close] == [open] + b + [close] <==> a == b
  {
    if [open] + a + [close] == [open] + b + [close] {
      assert ([open] + a + [close])[1..|a| + 1] == a && ([open] + b + [close])[1..|b| + 1] == b;
    }
  }

  /** For every value: the two printers give one text exactly if the value is in step. */
  lemma {:induction false} PrintersAgreeIff(v: Value)
    requires Proper(v) && !v.Undefined?
    ensures Canonical(v) == Stringify(SortKeys(v)) <==> InStep(v)
    decreases v
  {
    match v {
      case Arr(elems) =>
        forall i | 0 <= i < |elems| && !elems[i].Undefined?
          ensures InStep(elems[i]) <==> Canonical(elems[i]) == Stringify(SortKeys(elems[i]))
        {
          PrintersAgreeIff(elems[i]);
        }
        ArraysAgreeIff(elems, v);
      case Obj(fields) =>
        forall f | f in fields && !f.val.Undefined? ensures InStep(f.val) <==> Canonical(f.val) == Stringify(SortKeys(f.val)) {
          PrintersAgreeIff(f.val);
        }
        ObjectsAgreeIff(fields, v);
      case _ =>
    }
  }

  lemma ArraysAgreeIff(elems: seq<Value>, v: Value)
    requires v == Arr(elems) && Proper(v)
    requires forall i | 0 <= i < |elems| && !elems[i].Undefined? ::
      InStep(elems[i]) <==> Canonical(elems[i]) == Stringify(SortKeys(elems[i]))
    ensures Canonical(v) == Stringify(SortKeys(v)) <==> forall i | 0 <= i < |elems| :: InStep(elems[i])
  {
    SortIsTidy(v);
    var w := SortKeys(v);
    SortElemsAt(elems, v);
    assert w.Arr? && w.elems == SortElems(elems, v) && forall i | 0 <= i < |elems| :: w.elems[i] == SortKeys(elems[i]);
    ElemsAgreeIff(elems, v, w.elems, w);
    ArrayText(elems, v, w);
    hide Canonical, CanonicalElems, Slots, Join, Tidy, SortKeys, SortElems, Proper;
    forall i | 0 <= i < |elems| ensures Canonical(elems[i]) == Some(SlotText(w.elems[i])) <==> InStep(elems[i]) {
      SlotAgrees(elems[i]);
    }
  }

  lemma SlotAgrees(x: Value)
    requires !x.Undefined? ==> (InStep(x) <==> Canonical(x) == Stringify(SortKeys(x)))
    ensures Canonical(x) == Some(SlotText(SortKeys(x))) <==> InStep(x)
  {
    UndefinedText(SortKeys(x));
    assert SortKeys(x).Undefined? == x.Undefined?;
  }

  lemma ArrayText(elems: seq<Value>, v: Value, w: Value)
    requires v == Arr(elems) && w.Arr?
    ensures Canonical(v) == Stringify(w) <==> CanonicalElems(elems, v) == Some(Join(Slots(w.elems, w)))
  {
    hide CanonicalElems, Slots, Join;
    if CanonicalElems(elems, v).Some? {
      InnerOf(OPEN_ARRAY, CanonicalElems(elems, v).value, Join(Slots(w.elems, w)), CLOSE_ARRAY);
    }
  }

  lemma ObjectsAgreeIff(fields: seq<Field>, v: Value)
    requires v == Obj(fields) && Proper(v)
    requires forall f | f in fields && !f.val.Undefined? :: InStep(f.val) <==> Canonical(f.val) == Stringify(SortKeys(f.val))
    ensures Canonical(v) == Stringify(SortKeys(v)) <==> InStep(v)
  {
    var w := SortKeys(v);
    ShownLists(fields, v);
    PrintedSorted(fields);
    PrintedElements(fields);
    SortIsTidy(v);
    ShownMeaning(w.fields, w);
    hide SortKeys, Printed, Shown, Tidy, Canonical, CanonicalFields, Members, Join, Stringify, KeysInStep, SameMembers, Lists,
      StrictlySorted, Meaning, MeaningFields, Listed;
    FieldsAgreeIff(Printed(fields), v, Shown(w.fields), w);
    StepsIffSameMembers(fields, Printed(fields), Shown(w.fields));
    ObjectText(fields, v, Join(Members(Shown(w.fields), w)));
  }

  lemma ObjectText(fields: seq<Field>, v: Value, body: Text)
    requires v == Obj(fields) && Within(Printed(fields), v)
    ensures Canonical(v) == Some([OPEN_OBJECT] + body + [CLOSE_OBJECT]) <==> CanonicalFields(Printed(fields), v) == Some(body)
  {
    hide CanonicalFields, Printed;
    if CanonicalFields(Printed(fields), v).Some? {
      InnerOf(OPEN_OBJECT, CanonicalFields(Printed(fields), v).value, body, CLOSE_OBJECT);
    }
  }

  /** A transaction's text is canonicalJson of its three fields exactly if what they hold is in step. */
  lemma TxTextIsCanonicalIff(data: Value, timestamp: Value, txType: Value)
    requires Proper(data) && Proper(timestamp) && Proper(txType)
    ensures TxText(data, timestamp, txType) == Canonical(Covered(data, timestamp, txType))
      <==> (PrintsInStep(data) && PrintsInStep(timestamp) && PrintsInStep(txType))
  {
    CoveredIsProper(data, timestamp, txType);
    PrintersAgreeIff(Covered(data, timestamp, txType));
    CoveredInStep(data, timestamp, txType);
  }

  ghost predicate PrintsInStep(v: Value) {
    v.Undefined? || InStep(v)
  }

  lemma CoveredInStep(data: Value, timestamp: Value, txType: Value)
    ensures InStep(Covered(data, timestamp, txType)) <==> (PrintsInStep(data) && PrintsInStep(timestamp) && PrintsInStep(txType))
  {
    var fields := [Field(DATA, data), Field(TIMESTAMP, timestamp), Field(TX_TYPE, txType)];
    assert fields[0] in fields && fields[1] in fields && fields[2] in fields;
    NamedInStep(fields);
    hide IsIndex, Less, KeysInStep;
  }

  lemma NamedInStep(fields: seq<Field>)
    requires forall f | f in fields :: f.key in {DATA, TIMESTAMP, TX_TYPE}
    ensures KeysInStep(fields) && forall f | f in fields :: f.key != PROTO
  {
    forall f | f in fields ensures !IsIndex(f.key) && f.key != PROTO {
      assert !IsDigit(f.key[0]) && f.key[0] != PROTO[0];
    }
    hide IsIndex, Less;
  }

  /** Two printed keys that sort one way as text and the other way as indices: the texts part. */
  lemma IndexKeysSwap(fields: seq<Field>, f: Field, g: Field)
    requires Proper(Obj(fields)) && f in fields && g in fields && !f.val.Undefined? && !g.val.Undefined?
    requires IsIndex(f.key) && IsIndex(g.key) && Less(f.key, g.key) && IndexValue(g.key) < IndexValue(f.key)
    ensures Canonical(Obj(fields)) != Stringify(SortKeys(Obj(fields)))
  {
    PrintersAgreeIff(Obj(fields));
    hide IsIndex, IndexValue, Less, Canonical, Stringify, SortKeys, Proper;
    assert !KeysInStep(fields);
  }

  /** "10" and "9" are two such keys. */
  lemma TenAndNine()
    ensures IsIndex([49, 48]) && IsIndex([57]) && Less([49, 48], [57]) && IndexValue([57]) < IndexValue([49, 48])
  {
    var ten: Text, nine: Text := [49, 48], [57];
    assert ten[..1] == [49] && [49][..0] == [] && nine[..0] == [];
    assert IndexValue([49]) == 1;
  }
}
