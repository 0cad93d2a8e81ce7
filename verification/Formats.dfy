/** What the printers of shared/crypto.js write, letter by letter: literals, numbers, escapes, and the order of keys. */
module Formats {
  import opened Common
  import opened Texts
  import opened Json
  import opened JsonProofs
  import opened CanonicalTx
  import opened TxMeaning
  import opened Printers

  /** The code units of a literal. */
  function Codes(s: string): (t: Text)
    ensures |t| == |s|
  {
    seq(|s|, i requires 0 <= i < |s| => s[i] as int)
  }

  function Commas(texts: seq<Text>): Text {
    if texts == [] then [] else if |texts| == 1 then texts[0] else texts[0] + Codes(",") + Commas(texts[1..])
  }

  lemma {:induction false} JoinIsCommas(texts: seq<Text>)
    ensures Join(texts) == Commas(texts)
  {
    if |texts| > 1 {
      JoinIsCommas(texts[1..]);
      assert Codes(",") == [COMMA];
    }
  }

  // ---------------------------------------------------------------- literals and numbers

  lemma LiteralsPrinted()
    ensures Canonical(Null) == Canonical(NonFinite) == Some(Codes("null"))
    ensures Canonical(Bool(true)) == Some(Codes("true")) && Canonical(Bool(false)) == Some(Codes("false"))
    ensures Canonical(Arr([])) == Some(Codes("[]")) && Canonical(Obj([])) == Some(Codes("{}"))
  {
    assert Codes("null") == NULL_TEXT && Codes("true") == TRUE_TEXT && Codes("false") == FALSE_TEXT;
    assert Codes("[]") == [OPEN_ARRAY] + [] + [CLOSE_ARRAY] && Codes("{}") == [OPEN_OBJECT] + [] + [CLOSE_OBJECT];
    PrintedElements([]);
    assert Printed([]) == [];
  }

  lemma ScalarsPrinted(n: int, s: Text)
    ensures Canonical(Num(n)) == Some(if n < 0 then Codes("-") + Digits(-n) else Digits(n))
    ensures Canonical(Str(s)) == Some(Codes("\"") + EscapeChars(s) + Codes("\""))
  {
    assert Codes("-") == [MINUS] && Codes("\"") == [QUOTE];
  }

  /** A number's text: decimal digits without a leading zero, with that value; and no other numeral has it. */
  lemma {:induction false} DigitsAreNumeral(n: nat)
    ensures var t := Digits(n);
      && t != [] && (forall i | 0 <= i < |t| :: 48 <= t[i] <= 57) && (|t| == 1 || t[0] != 48) && (n > 0 ==> t[0] != 48)
      && IndexValue(t) == n
  {
    var t := Digits(n);
    if n >= 10 {
      DigitsAreNumeral(n / 10);
      assert t[..|t| - 1] == Digits(n / 10);
    } else {
      assert t[..0] == [];
    }
  }

  /** The index-like keys are the numerals below 2^32 - 1. */
  lemma IndexKeysAre(key: Text)
    ensures IsIndex(key) <==> exists n: nat :: n < 4294967295 && key == Digits(n)
  {
    if IsIndex(key) {
      NumeralIsDigits(key);
    }
    if n: nat :| n < 4294967295 && key == Digits(n) {
      DigitsAreNumeral(n);
    }
  }

  // ---------------------------------------------------------------- strings

  predicate IsSurrogate(c: int) {
    0xD800 <= c < 0xE000
  }

  /** No capital letter among the four hexadecimal digits of an escape. */
  predicate LowerHex(e: Text) {
    |e| == 6 ==> forall i | 2 <= i < 6 :: !(65 <= e[i] <= 70)
  }

  lemma SmallDigit(x: int)
    requires DigitValue(x).Some? && !(65 <= x <= 70)
    ensures 0 <= DigitValue(x).value < 16 && HexDigit(DigitValue(x).value) == x
  {}

  lemma HexParts(a: int, b: int, c: int, d: int)
    requires 0 <= a < 16 && 0 <= b < 16 && 0 <= c < 16 && 0 <= d < 16
    ensures var n := a * 4096 + b * 256 + c * 16 + d;
      0 <= n < 0x10000 && n / 4096 == a && n / 256 % 16 == b && n / 16 % 16 == c && n % 16 == d
  {
    var n := a * 4096 + b * 256 + c * 16 + d;
    assert n / 256 == a * 16 + b && n / 16 == (a * 16 + b) * 16 + c;
  }

  lemma HexOf(e: Text)
    requires |e| == 6 && e[0] == BACKSLASH && e[1] == 117 && ParseHex4(e[2..]).Some? && LowerHex(e)
    ensures 0 <= ParseHex4(e[2..]).value < 0x10000 && e == UnicodeEscape(ParseHex4(e[2..]).value)
  {
    var x := e[2..];
    assert x[0] == e[2] && x[1] == e[3] && x[2] == e[4] && x[3] == e[5];
    assert ParseHex4(x).value == DigitValue(x[0]).value * 4096 + DigitValue(x[1]).value * 256 + DigitValue(x[2]).value * 16
                                 + DigitValue(x[3]).value;
    SmallDigit(x[0]);
    SmallDigit(x[1]);
    SmallDigit(x[2]);
    SmallDigit(x[3]);
    hide DigitValue, ParseHex4, HexDigit;
    HexParts(DigitValue(x[0]).value, DigitValue(x[1]).value, DigitValue(x[2]).value, DigitValue(x[3]).value);
  }

  /** What is left of a one-unit string's text once its unit is read is the closing quote. */
  lemma NothingElse(rest: Text)
    requires ParseChars(rest) == Some(([], []))
    ensures |rest| == 1
  {
    FirstUnit(rest);
    hide ParseHex4, ShortEscape;
  }

  lemma FirstUnit(t: Text)
    ensures ParseChars(t).Some? ==> t != [] && (t[0] != QUOTE ==> ParseChars(t).value.0 != [])
  {
    hide ParseHex4, ShortEscape;
  }

  /** How a text for one unit can read: the unit itself, a short escape, or \u and four digits. */
  lemma OneUnit(c: int, t: Text)
    requires ParseChars(t) == Some(([c], []))
    ensures || (|t| == 2 && t[0] == c && c != QUOTE && c != BACKSLASH && !(0 <= c < 32))
            || (|t| == 3 && t[0] == BACKSLASH && t[1] != 117 && ShortEscape(t[1]) == Some(c))
            || (|t| == 7 && t[0] == BACKSLASH && t[1] == 117 && ParseHex4(t[2..]) == Some(c))
  {
    hide *;
    OneStep(t);
    if t[0] != BACKSLASH {
      RestIsQuote(c, t[0], t[1..]);
    } else if t[1] == 117 {
      RestIsQuote(c, ParseHex4(t[2..]).value, t[6..]);
    } else {
      RestIsQuote(c, ShortEscape(t[1]).value, t[2..]);
    }
  }

  /** What a string's text must start with if it is for one unit. */
  lemma OneStep(t: Text)
    requires ParseChars(t).Some? && ParseChars(t).value.0 != []
    ensures t != [] && t[0] != QUOTE && !(0 <= t[0] < 32)
    ensures t[0] != BACKSLASH ==> ParseChars(t) == Prepend(t[0], ParseChars(t[1..]))
    ensures t[0] == BACKSLASH ==> |t| >= 2
    ensures t[0] == BACKSLASH && t[1] == 117 ==>
      |t| >= 6 && ParseHex4(t[2..]).Some? && ParseChars(t) == Prepend(ParseHex4(t[2..]).value, ParseChars(t[6..]))
    ensures t[0] == BACKSLASH && t[1] != 117 ==>
      ShortEscape(t[1]).Some? && ParseChars(t) == Prepend(ShortEscape(t[1]).value, ParseChars(t[2..]))
  {
    hide ShortEscape, DigitValue;
  }

  lemma RestIsQuote(c: int, x: int, rest: Text)
    requires Prepend(x, ParseChars(rest)) == Some(([c], []))
    ensures x == c && |rest| == 1
  {
    hide ParseChars;
    var more := ParseChars(rest).value.0;
    assert ([x] + more)[0] == x && ([x] + more)[1..] == more;
    NothingElse(rest);
  }

  lemma SixUnits(c: int, e: Text)
    requires |e| == 6 && e[0] == BACKSLASH && e[1] == 117 && ParseHex4(e[2..]) == Some(c)
    ensures |EscapeUnit(c)| <= 6 && (LowerHex(e) && |EscapeUnit(c)| == 6 ==> e == EscapeUnit(c))
  {
    hide ParseHex4;
    if LowerHex(e) {
      HexOf(e);
    }
  }

  lemma EscapeIsPlain(c: int)
    ensures WithoutSurrogates(EscapeUnit(c)) && LowerHex(EscapeUnit(c))
  {}

  predicate WithoutSurrogates(e: Text) {
    forall i | 0 <= i < |e| :: !IsSurrogate(e[i])
  }

  /** A unit is written in the one shortest way there is without a lone surrogate and with small hexadecimal
      digits: as itself where it may stand, by a short escape where there is one, by \u otherwise. */
  lemma ShortestEscape(c: int, e: Text)
    requires ParseChars(e + [QUOTE]) == Some(([c], [])) && WithoutSurrogates(e)
    ensures |EscapeUnit(c)| <= |e| && (|e| == |EscapeUnit(c)| && LowerHex(e) ==> e == EscapeUnit(c))
    ensures WithoutSurrogates(EscapeUnit(c)) && LowerHex(EscapeUnit(c))
  {
    hide *;
    OneUnit(c, e + [QUOTE]);
    EscapeIsPlain(c);
    SameStart(c, e, e + [QUOTE]);
  }

  lemma SameStart(c: int, e: Text, t: Text)
    requires t == e + [QUOTE] && WithoutSurrogates(e)
    requires || (|t| == 2 && t[0] == c && c != QUOTE && c != BACKSLASH && !(0 <= c < 32))
             || (|t| == 3 && t[0] == BACKSLASH && t[1] != 117 && ShortEscape(t[1]) == Some(c))
             || (|t| == 7 && t[0] == BACKSLASH && t[1] == 117 && ParseHex4(t[2..]) == Some(c))
    ensures |EscapeUnit(c)| <= |e| && (|e| == |EscapeUnit(c)| && LowerHex(e) ==> e == EscapeUnit(c))
  {
    hide EscapeUnit, ParseHex4, ShortEscape, LowerHex;
    if |t| == 2 {
      AsItself(c, e);
    } else if |t| == 3 {
      TwoUnits(c, e);
    } else {
      SameHex(e, t);
      SixUnits(c, e);
    }
  }

  lemma SameHex(e: Text, t: Text)
    requires |e| == 6 && t == e + [QUOTE]
    ensures ParseHex4(e[2..]) == ParseHex4(t[2..])
  {
    hide DigitValue;
  }

  lemma AsItself(c: int, e: Text)
    requires |e| == 1 && e[0] == c && c != QUOTE && c != BACKSLASH && !(0 <= c < 32) && WithoutSurrogates(e)
    ensures EscapeUnit(c) == e
  {}

  lemma TwoUnits(c: int, e: Text)
    requires |e| == 2 && e[0] == BACKSLASH && ShortEscape(e[1]) == Some(c)
    ensures |EscapeUnit(c)| <= 2 && (|EscapeUnit(c)| == 2 ==> e == EscapeUnit(c))
  {}

  /** A string is written unit by unit, but a surrogate pair as it stands: nothing depends on what is around. */
  lemma {:induction false} EscapesConcat(a: Text, b: Text)
    requires a != [] && b != [] ==> !(IsHighSurrogate(a[|a| - 1]) && IsLowSurrogate(b[0]))
    ensures EscapeChars(a + b) == EscapeChars(a) + EscapeChars(b)
    decreases |a|
  {
    hide EscapeUnit;
    if a == [] {
      assert a + b == b;
    } else if |a| > 1 && IsHighSurrogate(a[0]) && IsLowSurrogate(a[1]) {
      assert (a + b)[2..] == a[2..] + b;
      EscapesConcat(a[2..], b);
    } else {
      assert (a + b)[1..] == a[1..] + b;
      EscapesConcat(a[1..], b);
    }
  }

  lemma EscapesStart(c: int, high: int, low: int)
    requires IsHighSurrogate(high) && IsLowSurrogate(low)
    ensures EscapeChars([]) == [] && EscapeChars([c]) == EscapeUnit(c) && EscapeChars([high, low]) == [high, low]
  {
    assert [c][1..] == [] && [high, low][2..] == [];
  }

  // ---------------------------------------------------------------- arrays and objects

  function Member(key: Text, t: Text): Text {
    Codes("\"") + EscapeChars(key) + Codes("\":") + t
  }

  lemma MemberIs(key: Text, t: Text)
    ensures Quoted(key) + [COLON] + t == Member(key, t)
  {
    hide EscapeChars;
    assert Codes("\"") == [QUOTE] && Codes("\":") == [QUOTE] + [COLON];
  }

  /** The members of an object in canonicalJson and in JSON.stringify. */
  function CanonicalMembers(fs: seq<Field>): seq<Text>
    requires forall f | f in fs :: Canonical(f.val).Some?
  {
    seq(|fs|, i requires 0 <= i < |fs| => Member(fs[i].key, Canonical(fs[i].val).value))
  }

  function StringifyMembers(fs: seq<Field>): seq<Text>
    requires forall f | f in fs :: Stringify(f.val).Some?
  {
    seq(|fs|, i requires 0 <= i < |fs| => Member(fs[i].key, Stringify(fs[i].val).value))
  }

  ghost predicate Ascending(fs: seq<Field>) {
    forall i, j | 0 <= i < j < |fs| :: Precedes(fs[i].key, fs[j].key)
  }

  lemma {:induction false} ElemsPrinted(elems: seq<Value>, whole: Value)
    requires ElemsWithin(elems, whole) && CanonicalElems(elems, whole).Some?
    ensures forall i | 0 <= i < |elems| :: Canonical(elems[i]).Some?
    ensures CanonicalElems(elems, whole).value == Commas(seq(|elems|, i requires 0 <= i < |elems| => Canonical(elems[i]).value))
  {
    if elems != [] {
      ElemsText(elems, whole, CanonicalElems(elems, whole).value);
      ElemsPrinted(elems[1..], whole);
      assert forall i | 0 < i < |elems| :: elems[i] == elems[1..][i - 1];
      var texts := seq(|elems|, i requires 0 <= i < |elems| => Canonical(elems[i]).value);
      var more := seq(|elems[1..]|, i requires 0 <= i < |elems[1..]| => Canonical(elems[1..][i]).value);
      hide Canonical, CanonicalElems;
      assert texts[1..] == more;
      assert Codes(",") == [COMMA];
    }
  }

  /** An array's text: the texts of its elements, in order. */
  lemma ArrayPrinted(elems: seq<Value>)
    requires Canonical(Arr(elems)).Some?
    ensures forall i | 0 <= i < |elems| :: Canonical(elems[i]).Some?
    ensures Canonical(Arr(elems)) ==
      Some(Codes("[") + Commas(seq(|elems|, i requires 0 <= i < |elems| => Canonical(elems[i]).value)) + Codes("]"))
  {
    var v := Arr(elems);
    assert CanonicalElems(elems, v).Some?;
    ElemsPrinted(elems, v);
    assert Codes("[") == [OPEN_ARRAY] && Codes("]") == [CLOSE_ARRAY];
    hide CanonicalElems, Commas;
  }

  lemma {:induction false} FieldsPrinted(fs: seq<Field>, whole: Value)
    requires Within(fs, whole) && CanonicalFields(fs, whole).Some?
    ensures forall f | f in fs :: Canonical(f.val).Some?
    ensures CanonicalFields(fs, whole).value == Commas(CanonicalMembers(fs))
  {
    if fs != [] {
      FieldsText(fs, whole, CanonicalFields(fs, whole).value);
      FieldsPrinted(fs[1..], whole);
      assert forall f | f in fs :: f == fs[0] || f in fs[1..];
      MemberIs(fs[0].key, Canonical(fs[0].val).value);
      hide Canonical, CanonicalFields, Quoted, Member;
      assert CanonicalMembers(fs)[1..] == CanonicalMembers(fs[1..]);
      assert Codes(",") == [COMMA];
    }
  }

  /** An object's text: a member for each defined field, in the order of the keys' code units. */
  lemma ObjectPrinted(fields: seq<Field>) returns (fs: seq<Field>)
    requires DistinctKeys(fields, KeyOf()) && Canonical(Obj(fields)).Some?
    ensures Ascending(fs) && (forall f :: f in fs <==> f in fields && !f.val.Undefined?)
    ensures forall f | f in fs :: Canonical(f.val).Some?
    ensures Canonical(Obj(fields)) == Some(Codes("{") + Commas(CanonicalMembers(fs)) + Codes("}"))
  {
    fs := Printed(fields);
    PrintedElements(fields);
    PrintedSorted(fields);
    assert CanonicalFields(fs, Obj(fields)).Some?;
    FieldsPrinted(fs, Obj(fields));
    assert Codes("{") == [OPEN_OBJECT] && Codes("}") == [CLOSE_OBJECT];
    hide CanonicalFields, Commas, Printed, CanonicalMembers;
    SortedAscending(fs);
  }

  lemma SortedAscending(fs: seq<Field>)
    requires StrictlySorted(fs, KeyOf())
    ensures Ascending(fs)
  {
    forall i, j | 0 <= i < j < |fs| ensures Precedes(fs[i].key, fs[j].key) {
      assert Less(KeyOf()(fs[i]), KeyOf()(fs[j]));
      LessIsPrecedes(fs[i].key, fs[j].key);
    }
  }

  /** In JSON.stringify indices come first, by their numbers, and then the other keys by their code units. */
  ghost predicate IndicesFirst(fs: seq<Field>) {
    forall i, j | 0 <= i < j < |fs| ::
      var a, b := fs[i].key, fs[j].key;
      if IsIndex(b) then IsIndex(a) && IndexValue(a) < IndexValue(b) else IsIndex(a) || Precedes(a, b)
  }

  lemma {:induction false} MembersPrinted(fs: seq<Field>, whole: Value)
    requires Within(fs, whole) && forall f | f in fs :: !f.val.Undefined?
    ensures forall f | f in fs :: Stringify(f.val).Some?
    ensures Members(fs, whole) == StringifyMembers(fs)
  {
    if fs != [] {
      hide Stringify, Members, Quoted, Member, Meaning, MeaningFields, StringifyMembers;
      assert fs[0] in fs && forall f | f in fs[1..] :: f in fs;
      MembersStep(fs, whole);
      MembersPrinted(fs[1..], whole);
      assert forall f | f in fs :: f == fs[0] || f in fs[1..];
      MemberIs(fs[0].key, Stringify(fs[0].val).value);
      FirstMember(fs);
    }
  }

  lemma FirstMember(fs: seq<Field>)
    requires fs != [] && forall f | f in fs :: Stringify(f.val).Some?
    ensures StringifyMembers(fs) == [Member(fs[0].key, Stringify(fs[0].val).value)] + StringifyMembers(fs[1..])
  {
    hide Stringify, Member;
    assert forall f | f in fs[1..] :: f in fs;
  }

  /** The text behind an identifier: of a rebuilt object, a member for each defined field but __proto__. */
  lemma RebuiltPrinted(fields: seq<Field>) returns (fs: seq<Field>)
    requires Proper(Obj(fields))
    ensures IndicesFirst(fs)
    ensures forall g :: g in fs <==> exists f :: f in fields && !f.val.Undefined? && f.key != PROTO && g == Field(f.key, SortKeys(f.val))
    ensures forall f | f in fs :: Stringify(f.val).Some?
    ensures Stringify(SortKeys(Obj(fields))) == Some(Codes("{") + Commas(StringifyMembers(fs)) + Codes("}"))
  {
    var v, w := Obj(fields), SortKeys(Obj(fields));
    ShownLists(fields, v);
    PrintedElements(fields);
    SortIsTidy(v);
    ShownMeaning(w.fields, w);
    fs := Shown(w.fields);
    assert Codes("{") == [OPEN_OBJECT] && Codes("}") == [CLOSE_OBJECT];
    hide SortKeys, Printed, Shown, Stringify, Members, Join, Commas, StringifyMembers, Tidy, Meaning, MeaningFields, Proper;
    MembersPrinted(fs, w);
    JoinIsCommas(Members(fs, w));
    ListedIndicesFirst(fs);
  }

  lemma ListedIndicesFirst(fs: seq<Field>)
    ensures IndicesFirst(fs) <==> Listed(fs)
  {
    hide IsIndex, IndexValue, Less, Precedes;
    forall i, j | 0 <= i < j < |fs|
      ensures Ahead(fs[i].key, fs[j].key) <==>
        var a, b := fs[i].key, fs[j].key;
        if IsIndex(b) then IsIndex(a) && IndexValue(a) < IndexValue(b) else IsIndex(a) || Precedes(a, b)
    {
      LessIsPrecedes(fs[i].key, fs[j].key);
    }
  }

  // ---------------------------------------------------------------- a transaction's text

  lemma {:induction false} PlainEscapes(s: Text)
    requires forall i | 0 <= i < |s| :: 95 <= s[i] <= 122
    ensures EscapeChars(s) == s
  {
    if s != [] {
      PlainEscapes(s[1..]);
      assert s == [s[0]] + s[1..];
    }
  }

  function Labelled(name: string, t: Text): Text {
    Codes("\"") + Codes(name) + Codes("\":") + t
  }

  /** data, timestamp and tx_type, in this order and with nothing between: what is hashed for every transaction. */
  lemma TxTextSpelled(data: Value, timestamp: Value, txType: Value)
    requires Proper(data) && Proper(timestamp) && Proper(txType)
    requires !data.Undefined? && !timestamp.Undefined? && !txType.Undefined?
    ensures Stringify(SortKeys(data)).Some? && Stringify(SortKeys(timestamp)).Some? && Stringify(SortKeys(txType)).Some?
    ensures TxText(data, timestamp, txType) ==
      Some(Codes("{") + Labelled("data", Stringify(SortKeys(data)).value) + Codes(",")
           + Labelled("timestamp", Stringify(SortKeys(timestamp)).value) + Codes(",")
           + Labelled("tx_type", Stringify(SortKeys(txType)).value) + Codes("}"))
  {
    hide SortKeys, Stringify, Proper, Commas, StringifyMembers, EscapeChars, Listed;
    CoveredIsProper(data, timestamp, txType);
    var fields := [Field(DATA, data), Field(TIMESTAMP, timestamp), Field(TX_TYPE, txType)];
    var fs := RebuiltPrinted(fields);
    var d, t, x := SortKeys(data), SortKeys(timestamp), SortKeys(txType);
    ListedIndicesFirst(fs);
    ThreeListed(d, t, x);
    assert DATA[0] != PROTO[0] && TIMESTAMP[0] != PROTO[0] && TX_TYPE[0] != PROTO[0];
    hide IndicesFirst, DATA, TIMESTAMP, TX_TYPE, PROTO;
    SameThree(fields, fs, [Field(DATA, d), Field(TIMESTAMP, t), Field(TX_TYPE, x)]);
    ThreeJoined(d, t, x);
  }

  lemma SameThree(fields: seq<Field>, fs: seq<Field>, three: seq<Field>)
    requires |fields| == |three| == 3 && Listed(fs) && Listed(three)
    requires forall i | 0 <= i < 3 :: !fields[i].val.Undefined? && fields[i].key != PROTO
    requires forall i | 0 <= i < 3 :: three[i] == Field(fields[i].key, SortKeys(fields[i].val))
    requires forall g :: g in fs <==> exists f :: f in fields && !f.val.Undefined? && f.key != PROTO && g == Field(f.key, SortKeys(f.val))
    ensures fs == three
  {
    hide SortKeys, Listed, PROTO;
    forall g ensures g in fs <==> g in three {
      if g in three {
        var i :| 0 <= i < 3 && three[i] == g;
        assert fields[i] in fields;
      }
      if g in fs {
        var f :| f in fields && g == Field(f.key, SortKeys(f.val));
        var i :| 0 <= i < 3 && fields[i] == f;
        assert three[i] == g;
      }
    }
    ListedUnique(fs, three);
  }

  lemma ThreeListed(d: Value, t: Value, x: Value)
    ensures Listed([Field(DATA, d), Field(TIMESTAMP, t), Field(TX_TYPE, x)])
  {
    assert !IsDigit(DATA[0]) && !IsDigit(TIMESTAMP[0]) && !IsDigit(TX_TYPE[0]);
    assert PrecedesAt(DATA, TIMESTAMP, 0) && PrecedesAt(DATA, TX_TYPE, 0) && PrecedesAt(TIMESTAMP, TX_TYPE, 1);
    LessIsPrecedes(DATA, TIMESTAMP);
    LessIsPrecedes(DATA, TX_TYPE);
    LessIsPrecedes(TIMESTAMP, TX_TYPE);
    hide Less, Precedes, PrecedesAt;
  }

  lemma NameIs(key: Text, name: string)
    requires |key| == |name| && forall i | 0 <= i < |key| :: key[i] == name[i] as int && 95 <= key[i] <= 122
    ensures key == Codes(name) && EscapeChars(key) == key
  {
    PlainEscapes(key);
    hide EscapeChars;
  }

  lemma Names()
    ensures DATA == Codes("data") && EscapeChars(DATA) == DATA
    ensures TIMESTAMP == Codes("timestamp") && EscapeChars(TIMESTAMP) == TIMESTAMP
    ensures TX_TYPE == Codes("tx_type") && EscapeChars(TX_TYPE) == TX_TYPE
    ensures PROTO == Codes("__proto__")
  {
    hide EscapeChars, Codes;
    NameIs(DATA, "data");
    NameIs(TIMESTAMP, "timestamp");
    NameIs(TX_TYPE, "tx_type");
    NameIs(PROTO, "__proto__");
  }

  lemma LabelledIs(key: Text, name: string, t: Text)
    requires key == Codes(name) && EscapeChars(key) == key
    ensures Member(key, t) == Labelled(name, t)
  {
    hide EscapeChars, Codes;
  }

  lemma ThreeJoined(d: Value, t: Value, x: Value)
    requires Stringify(d).Some? && Stringify(t).Some? && Stringify(x).Some?
    ensures var fs := [Field(DATA, d), Field(TIMESTAMP, t), Field(TX_TYPE, x)];
      Codes("{") + Commas(StringifyMembers(fs)) + Codes("}") ==
        Codes("{") + Labelled("data", Stringify(d).value) + Codes(",") + Labelled("timestamp", Stringify(t).value) + Codes(",")
        + Labelled("tx_type", Stringify(x).value) + Codes("}")
  {
    hide *;
    ThreeCommas(d, t, x);
    Names();
    LabelledIs(DATA, "data", Stringify(d).value);
    LabelledIs(TIMESTAMP, "timestamp", Stringify(t).value);
    LabelledIs(TX_TYPE, "tx_type", Stringify(x).value);
    Regrouped(Codes("{"), Labelled("data", Stringify(d).value), Codes(","), Labelled("timestamp", Stringify(t).value),
              Labelled("tx_type", Stringify(x).value), Codes("}"));
  }

  lemma ThreeCommas(d: Value, t: Value, x: Value)
    requires Stringify(d).Some? && Stringify(t).Some? && Stringify(x).Some?
    ensures var fs := [Field(DATA, d), Field(TIMESTAMP, t), Field(TX_TYPE, x)];
      Commas(StringifyMembers(fs)) == Member(DATA, Stringify(d).value) + Codes(",")
        + (Member(TIMESTAMP, Stringify(t).value) + Codes(",") + Member(TX_TYPE, Stringify(x).value))
  {
    hide Stringify, Member, DATA, TIMESTAMP, TX_TYPE, Codes;
    var a, b, c := Member(DATA, Stringify(d).value), Member(TIMESTAMP, Stringify(t).value), Member(TX_TYPE, Stringify(x).value);
    assert StringifyMembers([Field(DATA, d), Field(TIMESTAMP, t), Field(TX_TYPE, x)]) == [a, b, c];
    assert [a, b, c][1..] == [b, c] && [b, c][1..] == [c];
    assert Commas([b, c]) == b + Codes(",") + c;
  }

  lemma Regrouped(open: Text, d: Text, comma: Text, t: Text, x: Text, close: Text)
    ensures open + (d + comma + (t + comma + x)) + close == open + d + comma + t + comma + x + close
  {}
}
