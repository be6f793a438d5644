/** format-yaml-yawn.js: `formatObject`, the recursive pass over the JSON
    value that yawn-yaml parses, meant to apply style rules before the value
    is written back. Objects are sequences of entries in `Object.entries`
    order; a fresh object re-created by assigning those entries in that order
    enumerates them in the same order. */
module FormatYamlYawn {
  import opened Patterns

  datatype Json =
    | JNull
    | JBool(b: bool)
    | JNum(n: int)
    | JStr(s: string)
    | JArr(elems: seq<Json>)
    | JObj(entries: seq<(string, Json)>)

  /** The three "simple string" patterns of the string branch. */
  predicate IsSimpleString(s: string)
  {
    || Joined(s, ':', Path)
    || Joined(s, '/', Path)
    || IsBareWord(s)
  }

  const ProtoKey: string := "__proto__"

  /** `formatted[key] = value` on an object created with `{}`: the key
      "__proto__" reaches the inherited accessor, which changes the prototype
      (object or null values) or does nothing (other values), and creates no
      own entry; any other key is replaced in place or appended. */
  function Assign(es: seq<(string, Json)>, key: string, value: Json): (r: seq<(string, Json)>)
    ensures key == ProtoKey ==> r == es
    ensures key != ProtoKey && (forall j :: 0 <= j < |es| ==> es[j].0 != key) ==> r == es + [(key, value)]
  {
    if key == ProtoKey then es
    else if es == [] then [(key, value)]
    else if es[0].0 == key then [(key, value)] + es[1..]
    else [es[0]] + Assign(es[1..], key, value)
  }

  /** `formatObject(obj)` as written. */
  function FormatObjectAsWritten(v: Json): Json
    decreases v, 1
  {
    match v
    case JArr(xs) => JArr(seq(|xs|, i requires 0 <= i < |xs| => FormatObjectAsWritten(xs[i])))
    case JObj(es) => JObj(CopyEntries(v, es, |es|))
    case JStr(s) => if IsSimpleString(s) then v else v
    case JBool(_) => v
    case _ => v
  }

  /** The `for…of` loop of the object branch after `n` entries. */
  function CopyEntries(v: Json, es: seq<(string, Json)>, n: nat): seq<(string, Json)>
    requires v == JObj(es) && n <= |es|
    decreases v, 0, n
  {
    if n == 0 then []
    else
      var e := es[n - 1];
      assert e in es;
      Assign(CopyEntries(v, es, n - 1), e.0, FormatObjectAsWritten(e.1))
  }

  /** No object anywhere in `v` has a "__proto__" entry. */
  predicate NoProtoKey(v: Json)
    decreases v
  {
    match v
    case JArr(xs) => forall i :: 0 <= i < |xs| ==> NoProtoKey(xs[i])
    case JObj(es) => forall j :: 0 <= j < |es| ==> es[j].0 != ProtoKey && NoProtoKey(es[j].1)
    case _ => true
  }

  /** The keys of an object are distinct, as in every JavaScript object. */
  predicate DistinctKeys(v: Json)
    decreases v
  {
    match v
    case JArr(xs) => forall i :: 0 <= i < |xs| ==> DistinctKeys(xs[i])
    case JObj(es) =>
      && (forall j, k :: 0 <= j < k < |es| ==> es[j].0 != es[k].0)
      && (forall j :: 0 <= j < |es| ==> DistinctKeys(es[j].1))
    case _ => true
  }

  /** Without "__proto__" keys the pass as written returns a structurally
      equal value. */
  lemma {:induction false} AsWrittenIsIdentity(v: Json)
    requires DistinctKeys(v) && NoProtoKey(v)
    ensures FormatObjectAsWritten(v) == v
    decreases v, 1
  {
    match v
    case JArr(xs) =>
      forall i | 0 <= i < |xs| ensures FormatObjectAsWritten(xs[i]) == xs[i] {
        AsWrittenIsIdentity(xs[i]);
      }
      assert seq(|xs|, i requires 0 <= i < |xs| => FormatObjectAsWritten(xs[i])) == xs;
    case JObj(es) =>
      CopyEntriesIsPrefix(v, es, |es|);
      assert es[..|es|] == es;
    case _ =>
  }

  /** The loop has copied the first `n` entries unchanged. */
  lemma {:induction false} CopyEntriesIsPrefix(v: Json, es: seq<(string, Json)>, n: nat)
    requires v == JObj(es) && n <= |es|
    requires DistinctKeys(v) && NoProtoKey(v)
    ensures CopyEntries(v, es, n) == es[..n]
    decreases v, 0, n
  {
    if n > 0 {
      CopyEntriesIsPrefix(v, es, n - 1);
      var e := es[n - 1];
      assert e in es;
      AsWrittenIsIdentity(e.1);
      var done := es[..n - 1];
      assert forall j :: 0 <= j < |done| ==> done[j].0 != e.0;
      assert done + [e] == es[..n];
    }
  }

  /** The entries of an object with distinct keys, no "__proto__" key, and
      values of the same kind. */
  predicate CleanEntries(es: seq<(string, Json)>)
  {
    && (forall j, k :: 0 <= j < k < |es| ==> es[j].0 != es[k].0)
    && (forall j :: 0 <= j < |es| ==> es[j].0 != ProtoKey && DistinctKeys(es[j].1) && NoProtoKey(es[j].1))
  }

  /** An assignment keeps the entries clean, and adds no entry but its own. */
  lemma {:induction false} AssignKeepsClean(es: seq<(string, Json)>, key: string, value: Json)
    requires CleanEntries(es) && DistinctKeys(value) && NoProtoKey(value)
    ensures CleanEntries(Assign(es, key, value))
    ensures forall e :: e in Assign(es, key, value) ==> e == (key, value) || e in es
  {
    if key != ProtoKey && es != [] && es[0].0 != key {
      var tail := es[1..];
      assert CleanEntries(tail) by {
        forall j, k | 0 <= j < k < |tail| ensures tail[j].0 != tail[k].0 {
          assert tail[j] == es[j + 1] && tail[k] == es[k + 1];
        }
        forall j | 0 <= j < |tail|
          ensures tail[j].0 != ProtoKey && DistinctKeys(tail[j].1) && NoProtoKey(tail[j].1)
        {
          assert tail[j] == es[j + 1];
        }
      }
      AssignKeepsClean(tail, key, value);
      var rest := Assign(tail, key, value);
      forall j | 0 <= j < |rest| ensures rest[j].0 != es[0].0 {
        assert rest[j] in rest;
        if rest[j] != (key, value) {
          var i :| 0 <= i < |tail| && tail[i] == rest[j];
          assert es[i + 1] == rest[j];
        }
      }
      assert Assign(es, key, value) == [es[0]] + rest;
    }
  }

  /** Every value the pass as written returns has distinct keys and no
      "__proto__" key. */
  lemma {:induction false} AsWrittenIsClean(v: Json)
    ensures DistinctKeys(FormatObjectAsWritten(v)) && NoProtoKey(FormatObjectAsWritten(v))
    decreases v, 1
  {
    match v
    case JArr(xs) =>
      var ys := seq(|xs|, i requires 0 <= i < |xs| => FormatObjectAsWritten(xs[i]));
      forall i | 0 <= i < |ys| ensures DistinctKeys(ys[i]) && NoProtoKey(ys[i]) {
        AsWrittenIsClean(xs[i]);
      }
    case JObj(es) =>
      CopyEntriesIsClean(v, es, |es|);
    case _ =>
  }

  /** The loop of the object branch builds clean entries. */
  lemma {:induction false} CopyEntriesIsClean(v: Json, es: seq<(string, Json)>, n: nat)
    requires v == JObj(es) && n <= |es|
    ensures CleanEntries(CopyEntries(v, es, n))
    decreases v, 0, n
  {
    if n > 0 {
      CopyEntriesIsClean(v, es, n - 1);
      var e := es[n - 1];
      assert e in es;
      AsWrittenIsClean(e.1);
      AssignKeepsClean(CopyEntries(v, es, n - 1), e.0, FormatObjectAsWritten(e.1));
    }
  }

  /** The pass as written is idempotent on every value, "__proto__" keys
      included: its result has none left to drop. */
  lemma {:induction false} AsWrittenIdempotent(v: Json)
    ensures FormatObjectAsWritten(FormatObjectAsWritten(v)) == FormatObjectAsWritten(v)
  {
    AsWrittenIsClean(v);
    AsWrittenIsIdentity(FormatObjectAsWritten(v));
  }

  /** A "__proto__" entry with a primitive value is dropped. */
  lemma {:induction false} ProtoEntryDropped()
    ensures FormatObjectAsWritten(JObj([(ProtoKey, JStr("x"))])) == JObj([])
  {
    var v := JObj([(ProtoKey, JStr("x"))]);
    assert CopyEntries(v, v.entries, 0) == [];
  }

  /** The copy the pass evidently intends: every entry, own "__proto__" keys
      included, is defined on the fresh object. */
  function FormatObject(v: Json): Json
    decreases v
  {
    match v
    case JArr(xs) => JArr(seq(|xs|, i requires 0 <= i < |xs| => FormatObject(xs[i])))
    case JObj(es) => JObj(seq(|es|, j requires 0 <= j < |es| => (es[j].0, FormatObject(es[j].1))))
    case JStr(s) => if IsSimpleString(s) then v else v
    case JBool(_) => v
    case _ => v
  }

  /** The corrected pass returns a structurally equal copy of every value. */
  lemma {:induction false} FormatObjectIsIdentity(v: Json)
    ensures FormatObject(v) == v
    decreases v
  {
    match v
    case JArr(xs) =>
      forall i | 0 <= i < |xs| ensures FormatObject(xs[i]) == xs[i] {
        FormatObjectIsIdentity(xs[i]);
      }
      assert seq(|xs|, i requires 0 <= i < |xs| => FormatObject(xs[i])) == xs;
    case JObj(es) =>
      forall j | 0 <= j < |es| ensures FormatObject(es[j].1) == es[j].1 {
        assert es[j] in es;
        FormatObjectIsIdentity(es[j].1);
      }
      assert seq(|es|, j requires 0 <= j < |es| => (es[j].0, FormatObject(es[j].1))) == es;
    case _ =>
  }

  /** Applying the pass twice is the same as once. */
  lemma {:induction false} FormatObjectIdempotent(v: Json)
    ensures FormatObject(FormatObject(v)) == FormatObject(v)
  {
    FormatObjectIsIdentity(v);
  }

  /** Without "__proto__" keys the pass as written and the corrected pass agree. */
  lemma {:induction false} AsWrittenAgrees(v: Json)
    requires DistinctKeys(v) && NoProtoKey(v)
    ensures FormatObjectAsWritten(v) == FormatObject(v)
  {
    AsWrittenIsIdentity(v);
    FormatObjectIsIdentity(v);
  }
}
