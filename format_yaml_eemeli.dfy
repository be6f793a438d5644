/** format-yaml-eemeli.js: the recursive `visitNodes` walk over a parsed
    `yaml` document and the callback that sets `type = 'PLAIN'` on nodes whose
    string value looks simple. The in-place update of `node.type` is modelled
    on values: a walk returns the tree with the updated types. */
module FormatYamlEemeli {
  import opened Lines
  import opened Patterns

  /** A JavaScript value as the walk meets it; `Obj` is a node object. */
  datatype Value = Undefined | Null | Bool(b: bool) | Num(n: int) | Str(s: string) | Obj(node: Node)

  /** The node fields the walk and the callback touch: `type`, `items`
      (undefined or an array), `key` and `value`. */
  datatype Node = Node(nodeType: Option<string>, items: Items, key: Value, value: Value)

  /** `node.items`: undefined, or an array (truthy even when empty). */
  datatype Items = Absent | Array(elems: seq<Value>)

  const Plain: string := "PLAIN"

  /** JavaScript truthiness: every object is truthy. */
  predicate Truthy(v: Value)
  {
    match v
    case Undefined => false
    case Null => false
    case Bool(b) => b
    case Num(n) => n != 0
    case Str(s) => s != ""
    case Obj(_) => true
  }

  /** The three patterns of the callback: `./seg/seg` over `[a-zA-Z0-9_.-]`,
      `word:word` over `[a-zA-Z0-9_-]`, or a bare word not starting with a digit. */
  predicate IsPlain(s: string)
  {
    || (|s| >= 2 && s[..2] == "./" && Joined(s[2..], '/', Path))
    || Joined(s, ':', Word)
    || IsBareWord(s)
  }

  /** The callback: `type` becomes PLAIN on a node whose value is a string
      matching IsPlain; nothing else changes. */
  function Mark(n: Node): (r: Node)
    ensures r.items == n.items && r.key == n.key && r.value == n.value
    ensures r.nodeType == (if n.value.Str? && IsPlain(n.value.s) then Some(Plain) else n.nodeType)
  {
    if n.value != Undefined && n.value.Str? && IsPlain(n.value.s) then n.(nodeType := Some(Plain))
    else n
  }

  /** `visitNodes(v, callback)`, returning the tree as the callback leaves it.
      A falsy value returns at once; the callback finds no `value` on a truthy
      primitive and the walk no `items`, `key` or `value`, so such a value is
      left alone too. */
  function Visit(v: Value): (r: Value)
    ensures !v.Obj? ==> r == v
    ensures r.Obj? <==> v.Obj?
    decreases v
  {
    match v
    case Obj(n) =>
      var m := Mark(n);
      if m.items.Array? then
        var xs := n.items.elems;
        Obj(m.(items := Array(seq(|xs|, i requires 0 <= i < |xs| => Visit(xs[i])))))
      else if m.value != Undefined then
        Obj(m)
      else if Truthy(m.key) || Truthy(m.value) then
        Obj(m.(key := Visit(n.key), value := Visit(n.value)))
      else
        Obj(m)
    case _ => v
  }

  /** The tree with every `type` cleared: its shape and contents. */
  function Strip(v: Value): Value
    decreases v
  {
    match v
    case Obj(n) =>
      var items := if n.items.Array? then
        var xs := n.items.elems;
        Array(seq(|xs|, i requires 0 <= i < |xs| => Strip(xs[i])))
      else Absent;
      Obj(Node(None, items, Strip(n.key), Strip(n.value)))
    case _ => v
  }

  /** The walk changes nothing but `type` fields. */
  lemma {:induction false} VisitKeepsShape(v: Value)
    ensures Strip(Visit(v)) == Strip(v)
    decreases v
  {
    match v
    case Obj(n) =>
      var m := Mark(n);
      if m.items.Array? {
        var xs := n.items.elems;
        var ys := seq(|xs|, i requires 0 <= i < |xs| => Visit(xs[i]));
        forall i | 0 <= i < |xs| ensures Strip(ys[i]) == Strip(xs[i]) {
          VisitKeepsShape(xs[i]);
        }
        assert seq(|ys|, i requires 0 <= i < |ys| => Strip(ys[i]))
            == seq(|xs|, i requires 0 <= i < |xs| => Strip(xs[i]));
      } else if m.value == Undefined && (Truthy(m.key) || Truthy(m.value)) {
        VisitKeepsShape(n.key);
        VisitKeepsShape(n.value);
      }
    case _ =>
  }

  /** Walking a second time changes nothing. */
  lemma {:induction false} VisitIdempotent(v: Value)
    ensures Visit(Visit(v)) == Visit(v)
    decreases v
  {
    match v
    case Obj(n) =>
      var m := Mark(n);
      assert Mark(m) == m;
      if m.items.Array? {
        var xs := n.items.elems;
        var ys := seq(|xs|, i requires 0 <= i < |xs| => Visit(xs[i]));
        forall i | 0 <= i < |xs| ensures Visit(ys[i]) == ys[i] {
          VisitIdempotent(xs[i]);
        }
        assert seq(|ys|, i requires 0 <= i < |ys| => Visit(ys[i])) == ys;
      } else if m.value == Undefined && (Truthy(m.key) || Truthy(m.value)) {
        VisitIdempotent(n.key);
        VisitIdempotent(n.value);
        assert Truthy(Visit(n.key)) || Truthy(Visit(n.value));
      }
    case _ =>
  }

  /** A node with no `items` and a defined `value` is not descended into,
      even when it also has a `key`: only the callback runs on it. */
  lemma {:induction false} ValueStopsTheWalk(n: Node)
    requires n.items.Absent? && n.value != Undefined
    ensures Visit(Obj(n)) == Obj(Mark(n))
    ensures n.value.Obj? ==> Visit(Obj(n)).node.value == n.value
  {
  }

  /** The nodes the `yaml` library builds: a collection (with `items`, no
      `key` or `value`), a scalar (a primitive `value`), or a pair, whose
      `key` and `value` are nodes or null (its constructor defaults `value`
      to null, so a pair's `value` is never undefined). */
  predicate YamlShaped(v: Value)
    decreases v
  {
    match v
    case Obj(n) =>
      if n.items.Array? then
        && n.key == Undefined && n.value == Undefined
        && (forall i :: 0 <= i < |n.items.elems| ==> YamlShaped(n.items.elems[i]))
      else if n.key == Undefined && !n.value.Obj? then
        true
      else
        && (n.key.Obj? || n.key == Null) && (n.value.Obj? || n.value == Null)
        && YamlShaped(n.key) && YamlShaped(n.value)
    case _ => true
  }

  /** Every node in the tree whose value is a plain string is marked PLAIN. */
  predicate AllPlainMarked(v: Value)
    decreases v
  {
    match v
    case Obj(n) =>
      && (n.value.Str? && IsPlain(n.value.s) ==> n.nodeType == Some(Plain))
      && (n.items.Array? ==> forall i :: 0 <= i < |n.items.elems| ==> AllPlainMarked(n.items.elems[i]))
      && AllPlainMarked(n.key)
      && AllPlainMarked(n.value)
    case _ => true
  }

  /** The scalar of a one-entry mapping `k: ./a/b`, as the library builds it. */
  function PathScalar(s: string): Value
  {
    Obj(Node(None, Absent, Undefined, Str(s)))
  }

  function OnePairMap(k: string, s: string): Value
  {
    Obj(Node(None, Array([Obj(Node(None, Absent, PathScalar(k), PathScalar(s)))]), Undefined, Undefined))
  }

  /** `./a/b` is a plain path. */
  lemma {:induction false} PathIsPlain()
    ensures IsPlain("./a/b")
  {
    var s := "./a/b";
    assert s[..2] == "./" && s[2..] == "a/b";
    assert "a/b"[..1] == "a" && "a/b"[2..] == "b";
    assert Joined("a/b", '/', Path);
  }

  /** As written, the walk stops at the pair (its `value` is defined), so the
      mapping value is never passed to the callback: the tree comes back
      unchanged. */
  lemma {:induction false} PairIsNotEntered(k: string, s: string)
    ensures YamlShaped(OnePairMap(k, s))
    ensures Visit(OnePairMap(k, s)) == OnePairMap(k, s)
  {
    var pair := Node(None, Absent, PathScalar(k), PathScalar(s));
    var v := OnePairMap(k, s);
    var xs := [Obj(pair)];
    assert YamlShaped(PathScalar(k)) && YamlShaped(PathScalar(s));
    assert YamlShaped(Obj(pair));
    assert Visit(Obj(pair)) == Obj(pair);
    var ys := seq(|xs|, i requires 0 <= i < |xs| => Visit(xs[i]));
    assert ys == xs;
  }

  /** A one-pair mapping whose plain value is unmarked is not fully marked. */
  lemma {:induction false} UnmarkedValue(k: string, s: string)
    requires IsPlain(s)
    ensures !AllPlainMarked(OnePairMap(k, s))
  {
    var pair := Node(None, Absent, PathScalar(k), PathScalar(s));
    assert !AllPlainMarked(PathScalar(s));
    assert !AllPlainMarked(Obj(pair));
    assert OnePairMap(k, s).node.items.elems[0] == Obj(pair);
  }

  /** So a mapping value `./a/b` stays unmarked. */
  lemma {:induction false} MappingValueMissed()
    ensures YamlShaped(OnePairMap("k", "./a/b"))
    ensures IsPlain("./a/b")
    ensures !AllPlainMarked(Visit(OnePairMap("k", "./a/b")))
  {
    PathIsPlain();
    PairIsNotEntered("k", "./a/b");
    UnmarkedValue("k", "./a/b");
  }

  /** The walk the comments describe: items of a collection, key and value of
      a pair (a node whose key or value is a node), and nothing below a scalar. */
  function VisitFixed(v: Value): (r: Value)
    ensures !v.Obj? ==> r == v
    decreases v
  {
    match v
    case Obj(n) =>
      var m := Mark(n);
      if m.items.Array? then
        var xs := n.items.elems;
        Obj(m.(items := Array(seq(|xs|, i requires 0 <= i < |xs| => VisitFixed(xs[i])))))
      else if m.key.Obj? || m.value.Obj? then
        Obj(m.(key := VisitFixed(n.key), value := VisitFixed(n.value)))
      else
        Obj(m)
    case _ => v
  }

  /** The corrected walk marks every plain scalar of a tree the library builds. */
  lemma {:induction false} VisitFixedMarksAll(v: Value)
    requires YamlShaped(v)
    ensures AllPlainMarked(VisitFixed(v))
    decreases v
  {
    match v
    case Obj(n) =>
      var m := Mark(n);
      if m.items.Array? {
        var xs := n.items.elems;
        var ys := seq(|xs|, i requires 0 <= i < |xs| => VisitFixed(xs[i]));
        forall i | 0 <= i < |xs| ensures AllPlainMarked(ys[i]) {
          VisitFixedMarksAll(xs[i]);
        }
      } else if m.key.Obj? || m.value.Obj? {
        VisitFixedMarksAll(n.key);
        VisitFixedMarksAll(n.value);
      }
    case _ =>
  }

  /** The corrected walk also changes nothing but `type` fields. */
  lemma {:induction false} VisitFixedKeepsShape(v: Value)
    ensures Strip(VisitFixed(v)) == Strip(v)
    decreases v
  {
    match v
    case Obj(n) =>
      var m := Mark(n);
      if m.items.Array? {
        var xs := n.items.elems;
        var ys := seq(|xs|, i requires 0 <= i < |xs| => VisitFixed(xs[i]));
        forall i | 0 <= i < |xs| ensures Strip(ys[i]) == Strip(xs[i]) {
          VisitFixedKeepsShape(xs[i]);
        }
        assert seq(|ys|, i requires 0 <= i < |ys| => Strip(ys[i]))
            == seq(|xs|, i requires 0 <= i < |xs| => Strip(xs[i]));
      } else if m.key.Obj? || m.value.Obj? {
        VisitFixedKeepsShape(n.key);
        VisitFixedKeepsShape(n.value);
      }
    case _ =>
  }

  /** No node without `items` has a defined `value` together with a node as
      its key or value: the trees on which the scalar test of the walk as
      written never catches a pair. */
  predicate NoDefinedPair(v: Value)
    decreases v
  {
    match v
    case Obj(n) =>
      && (n.items.Absent? && n.value != Undefined ==> !n.key.Obj? && !n.value.Obj?)
      && (n.items.Array? ==> forall i :: 0 <= i < |n.items.elems| ==> NoDefinedPair(n.items.elems[i]))
      && NoDefinedPair(n.key)
      && NoDefinedPair(n.value)
    case _ => true
  }

  /** On such trees the walk as written visits every item of a collection and
      the key and value of every pair, just as the corrected walk does. */
  lemma {:induction false} VisitAgreesWithoutPairs(v: Value)
    requires NoDefinedPair(v)
    ensures Visit(v) == VisitFixed(v)
    decreases v
  {
    match v
    case Obj(n) =>
      var m := Mark(n);
      if m.items.Array? {
        var xs := n.items.elems;
        forall i | 0 <= i < |xs| ensures Visit(xs[i]) == VisitFixed(xs[i]) {
          VisitAgreesWithoutPairs(xs[i]);
        }
        assert seq(|xs|, i requires 0 <= i < |xs| => Visit(xs[i]))
            == seq(|xs|, i requires 0 <= i < |xs| => VisitFixed(xs[i]));
      } else if m.value == Undefined && (Truthy(m.key) || Truthy(m.value)) {
        VisitAgreesWithoutPairs(n.key);
        VisitAgreesWithoutPairs(n.value);
      }
    case _ =>
  }

  /** So the walk as written marks every plain scalar of a library-shaped
      tree in which no pair has a defined value. */
  lemma {:induction false} VisitMarksPairFree(v: Value)
    requires YamlShaped(v) && NoDefinedPair(v)
    ensures AllPlainMarked(Visit(v))
  {
    VisitAgreesWithoutPairs(v);
    VisitFixedMarksAll(v);
  }

  /** The digit exclusion belongs to the bare-word pattern only: a port
      mapping such as `80:80` is plain. */
  lemma {:induction false} PortPairIsPlain()
    ensures IsPlain("80:80")
  {
    var s := "80:80";
    assert s[2] == ':' && s[..2] == "80" && s[3..] == "80";
    assert IsRun("80", Word);
  }

  /** A bare number is not plain. */
  lemma {:induction false} NumberIsNotPlain()
    ensures !IsPlain("123")
  {
    var s := "123";
    assert ':' !in s;
    assert StartsWithDigit(s);
    assert s[..2] != "./" by {
      assert s[0] == '1';
    }
  }

  /** A string with a space is not plain. */
  lemma {:induction false} SpacedIsNotPlain()
    ensures !IsPlain("a b")
  {
    var s := "a b";
    assert ':' !in s;
    assert !InClass(s[1], Word);
    assert s[..2] != "./" by {
      assert s[0] == 'a';
    }
  }
}
