/** Signed request bodies of shared/crypto.js: what the signer hashes is what the verifier rebuilds. */
module SignedPayload {
  import opened Common
  import opened Texts
  import opened Json
  import opened JsonProofs

  datatype Built = Payload(fields: seq<Field>) | Missing(field: Text)

  /** obj[key]: the value of a field, or undefined. */
  function Get(fields: seq<Field>, key: Text): Value {
    if fields == [] then Undefined
    else if fields[0].key == key then fields[0].val
    else Get(fields[1..], key)
  }

  /** obj[key] = val: a new key goes last, an old one keeps its place. */
  function Put(fields: seq<Field>, key: Text, val: Value): seq<Field> {
    if fields == [] then [Field(key, val)]
    else if fields[0].key == key then [Field(key, val)] + fields[1..]
    else [fields[0]] + Put(fields[1..], key, val)
  }

  predicate Nullish(v: Value) {
    v.Undefined? || v.Null?
  }

  /** An object built by assignments: no name twice, and nothing undefined was ever stored. */
  ghost predicate Assigned(fields: seq<Field>) {
    DistinctKeys(fields, KeyOf()) && forall f | f in fields :: !f.val.Undefined?
  }

  lemma GetSome(fields: seq<Field>, f: Field)
    requires Assigned(fields)
    ensures f in fields <==> !f.val.Undefined? && Get(fields, f.key) == f.val
  {
    if fields != [] {
      var head, tail := fields[0], fields[1..];
      assert forall g :: g in fields <==> g == head || g in tail;
      assert forall g | g in tail :: KeyOf()(g) != KeyOf()(head);
      GetSome(tail, f);
    }
  }

  lemma {:induction false} PutElements(fields: seq<Field>, key: Text, val: Value)
    ensures forall f | f in Put(fields, key, val) :: f == Field(key, val) || f in fields
  {
    if fields != [] {
      PutElements(fields[1..], key, val);
    }
  }

  lemma {:induction false} PutGets(fields: seq<Field>, key: Text, val: Value)
    ensures forall k :: Get(Put(fields, key, val), k) == if k == key then val else Get(fields, k)
  {
    if fields != [] && fields[0].key != key {
      PutGets(fields[1..], key, val);
    }
  }

  lemma {:induction false} PutAssigns(fields: seq<Field>, key: Text, val: Value)
    requires Assigned(fields) && !val.Undefined?
    ensures Assigned(Put(fields, key, val))
    ensures forall k :: Get(Put(fields, key, val), k) == if k == key then val else Get(fields, k)
  {
    PutGets(fields, key, val);
    hide Get;
    if fields != [] {
      var head, tail := fields[0], fields[1..];
      assert forall g | g in tail :: KeyOf()(g) != KeyOf()(head);
      if head.key != key {
        PutAssigns(tail, key, val);
        PutElements(tail, key, val);
        forall g | g in Put(tail, key, val) ensures KeyOf()(g) != KeyOf()(head) {
          assert g == Field(key, val) || g in tail;
        }
      }
    }
  }

  /** The payload the strip rule asks for: the listed fields that are present, and no others. */
  ghost predicate IsStripped(payload: seq<Field>, data: seq<Field>, listed: set<Text>) {
    && Assigned(payload)
    && forall k :: Get(payload, k) ==
         if k in listed && !Get(data, k).Undefined? && !Get(data, k).Null? then Get(data, k) else Undefined
  }

  function Listed(names: seq<Text>): set<Text> {
    set n | n in names
  }

  method BuildSignedPayload(data: seq<Field>, required: seq<Text>, optional: seq<Text>) returns (r: Built)
    ensures r.Missing? <==> exists f | f in required :: Get(data, f).Undefined? || Get(data, f).Null?
    ensures r.Missing? ==> r.field in required && (Get(data, r.field).Undefined? || Get(data, r.field).Null?)
    ensures r.Payload? ==> IsStripped(r.fields, data, Listed(required + optional))
  {
    var out: seq<Field> := [];
    for i := 0 to |required|
      invariant IsStripped(out, data, Listed(required[..i]))
      invariant forall j | 0 <= j < i :: !Nullish(Get(data, required[j]))
    {
      var f := required[i];
      if Nullish(Get(data, f)) {
        assert f in required;
        return Missing(f);
      }
      PutAssigns(out, f, Get(data, f));
      out := Put(out, f, Get(data, f));
      assert Listed(required[..i + 1]) == Listed(required[..i]) + {f};
    }
    assert required[..|required|] == required;
    for i := 0 to |optional|
      invariant IsStripped(out, data, Listed(required) + Listed(optional[..i]))
    {
      var f := optional[i];
      if !Nullish(Get(data, f)) {
        PutAssigns(out, f, Get(data, f));
        out := Put(out, f, Get(data, f));
      }
      assert Listed(optional[..i + 1]) == Listed(optional[..i]) + {f};
    }
    assert optional[..|optional|] == optional;
    assert Listed(required) + Listed(optional) == Listed(required + optional);
    return Payload(out);
  }

  /** The loop at the head of verifyBodySignature. */
  method RebuildPayload(body: seq<Field>, fields: seq<Text>) returns (payload: seq<Field>)
    ensures IsStripped(payload, body, Listed(fields))
  {
    payload := [];
    for i := 0 to |fields|
      invariant IsStripped(payload, body, Listed(fields[..i]))
    {
      var f := fields[i];
      if !Nullish(Get(body, f)) {
        PutAssigns(payload, f, Get(body, f));
        payload := Put(payload, f, Get(body, f));
      }
      assert Listed(fields[..i + 1]) == Listed(fields[..i]) + {f};
    }
    assert fields[..|fields|] == fields;
  }

  /** Two payloads stripped from objects that agree on the listed fields have the same text. */
  lemma StrippedTextsAgree(p: seq<Field>, q: seq<Field>, data: seq<Field>, body: seq<Field>, listed: set<Text>)
    requires IsStripped(p, data, listed) && IsStripped(q, body, listed)
    requires forall k | k in listed :: Get(data, k) == Get(body, k)
    ensures Canonical(Obj(p)) == Canonical(Obj(q))
  {
    forall f ensures f in p <==> f in q {
      GetSome(p, f);
      GetSome(q, f);
    }
    KeyOrderInvisible(p, q);
  }

  lemma PrintedMeaning(fields: seq<Field>, m: map<Text, Datum>)
    requires Assigned(fields) && Meaning(Obj(fields)) == DObj(m)
    ensures forall k :: k in m <==> exists f :: f in fields && f.key == k
    ensures forall f | f in fields :: f.key in m && m[f.key] == Meaning(f.val)
  {
    var printed, whole := Printed(fields), Obj(fields);
    PrintedElements(fields);
    assert Within(printed, whole) && m == MeaningFields(printed, whole);
    assert DistinctKeys(printed, KeyOf()) by {
      PrintedSorted(fields);
      SortedDistinct(printed);
    }
    assert forall f :: f in printed <==> f in fields;
    hide MeaningFields, Meaning, Printed, DistinctKeys, Within, Assigned;
    MeaningFieldsAt(printed, whole);
  }

  lemma MeaningOfAssigned(fields: seq<Field>, m: map<Text, Datum>)
    requires Assigned(fields) && Meaning(Obj(fields)) == DObj(m)
    ensures forall k :: k in m <==> !Get(fields, k).Undefined?
    ensures forall k | k in m :: m[k] == Meaning(Get(fields, k))
  {
    PrintedMeaning(fields, m);
    hide Meaning, Get;
    forall k
      ensures k in m <==> !Get(fields, k).Undefined?
      ensures k in m ==> m[k] == Meaning(Get(fields, k))
    {
      var f := Field(k, Get(fields, k));
      GetSome(fields, f);
      if k in m {
        var g :| g in fields && g.key == k;
        GetSome(fields, g);
      }
    }
  }

  /** Absent fields and null ones sign alike; a present field signs as what it means. */
  ghost predicate SignsAlike(v: Value, w: Value) {
    if Nullish(v) || Nullish(w) then Nullish(v) && Nullish(w) else Meaning(v) == Meaning(w)
  }

  /** The signed text covers every listed field and nothing else: it is the same for two objects
      exactly when they sign alike on every listed field. */
  lemma TextCoversListedFields(p: seq<Field>, q: seq<Field>, data: seq<Field>, body: seq<Field>, listed: set<Text>)
    requires IsStripped(p, data, listed) && IsStripped(q, body, listed)
    requires Printable(Obj(p)) && Printable(Obj(q))
    ensures Canonical(Obj(p)) == Canonical(Obj(q)) <==> forall k | k in listed :: SignsAlike(Get(data, k), Get(body, k))
  {
    TextIffMeaning(Obj(p), Obj(q));
    var m, n := Meaning(Obj(p)).fields, Meaning(Obj(q)).fields;
    MeaningOfAssigned(p, m);
    MeaningOfAssigned(q, n);
    hide Meaning, Canonical, Printable, Assigned;
    SameMapsIff(m, n, data, body, listed);
  }

  lemma SameMapsIff(m: map<Text, Datum>, n: map<Text, Datum>, data: seq<Field>, body: seq<Field>, listed: set<Text>)
    requires forall k :: k in m <==> k in listed && !Nullish(Get(data, k))
    requires forall k :: k in n <==> k in listed && !Nullish(Get(body, k))
    requires forall k | k in m :: m[k] == Meaning(Get(data, k))
    requires forall k | k in n :: n[k] == Meaning(Get(body, k))
    ensures m == n <==> forall k | k in listed :: SignsAlike(Get(data, k), Get(body, k))
  {
    hide Meaning, Get, Nullish;
    if m == n {
      forall k | k in listed ensures SignsAlike(Get(data, k), Get(body, k)) {
        assert k in m <==> k in n;
      }
    }
    if forall k | k in listed :: SignsAlike(Get(data, k), Get(body, k)) {
      assert forall k :: k in m <==> k in n;
      assert forall k | k in m :: m[k] == n[k];
      assert m == n;
    }
  }

  /** Stand-ins for the hash and the signature scheme. */
  type Shake = Text -> Text
  type Signer = (Text, Text) -> Text
  type Verifier = (Text, Text, Text) -> bool

  function SignBody(fields: seq<Field>, secretKey: Text, shake: Shake, sign: Signer): Option<Text> {
    var text := Canonical(Obj(fields));
    if text.None? then None else Some(sign(shake(text.value), secretKey))
  }

  /** None is the exception canonicalJson throws on a field that holds a misplaced undefined. */
  method VerifyBodySignature(body: seq<Field>, signature: Text, publicKey: Text, fields: seq<Text>,
                             shake: Shake, verify: Verifier)
    returns (ok: Option<bool>)
    ensures forall signed | IsStripped(signed, body, Listed(fields)) ::
      ok == match Canonical(Obj(signed)) case None => None case Some(t) => Some(verify(shake(t), signature, publicKey))
  {
    var payload := RebuildPayload(body, fields);
    var text := Canonical(Obj(payload));
    forall signed | IsStripped(signed, body, Listed(fields)) ensures Canonical(Obj(signed)) == text {
      StrippedTextsAgree(signed, payload, body, body, Listed(fields));
    }
    return if text.None? then None else Some(verify(shake(text.value), signature, publicKey));
  }

  /** Signer and verifier agree: a signature over the payload built from `data` is accepted for every
      body that matches `data` on the signed fields, whatever else the body carries and in whatever
      order the fields are listed. */
  method SignThenVerify(data: seq<Field>, body: seq<Field>, required: seq<Text>, optional: seq<Text>, fields: seq<Text>,
                        secretKey: Text, publicKey: Text, shake: Shake, sign: Signer, verify: Verifier)
    returns (built: Built, signature: Option<Text>, ok: Option<bool>)
    requires Listed(fields) == Listed(required + optional)
    requires forall k | k in fields :: Get(data, k) == Get(body, k)
    requires forall m: Text :: verify(m, sign(m, secretKey), publicKey)
    ensures built.Payload? && signature.Some? ==> ok == Some(true)
    ensures built.Payload? && signature.None? ==> ok == None
  {
    signature, ok := None, None;
    built := BuildSignedPayload(data, required, optional);
    if built.Payload? {
      signature := SignBody(built.fields, secretKey, shake, sign);
      ghost var signed := built.fields;
      var sig := if signature.Some? then signature.value else [];
      StrippedOfBoth(signed, data, body, Listed(fields));
      ok := VerifyBodySignature(body, sig, publicKey, fields, shake, verify);
    }
  }

  lemma StrippedOfBoth(p: seq<Field>, data: seq<Field>, body: seq<Field>, listed: set<Text>)
    requires IsStripped(p, data, listed) && forall k | k in listed :: Get(data, k) == Get(body, k)
    ensures IsStripped(p, body, listed)
  {}
}
