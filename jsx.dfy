/**
 * Element construction (packages/react/src/jsx.ts). `jsx(elementType, config,
 * ...children)` splits `config` into the element's key, its ref and its
 * props, adds the extra arguments as `props.children` and wraps the result
 * with `ReactElement`.
 */
module Jsx {
  import opened Wrappers
  import opened ReactTypes

  /**
   * One property enumerated by `for (const prop in config)`, in enumeration
   * order; `own` says whether it is an own property of `config` (for-in also
   * visits enumerable inherited ones). A `null` or `undefined` config
   * enumerates nothing.
   */
  datatype Property = Property(name: string, value: Value, own: bool)

  /** `ReactElement(elementType, key, ref, props)`: the element record. */
  function ReactElement(elementType: Value, key: Value, ref: Value, props: Value): (e: Value)
    ensures e.Obj? && e.fields.Keys == {"$$typeof", "type", "key", "ref", "props", "__mark"}
    ensures Get(e, "$$typeof") == Ok(REACT_ELEMENT_TYPE) && Get(e, "__mark") == Ok(Str("react.element"))
    ensures Get(e, "type") == Ok(elementType) && Get(e, "key") == Ok(key)
    ensures Get(e, "ref") == Ok(ref) && Get(e, "props") == Ok(props)
  {
    Obj(map["$$typeof" := REACT_ELEMENT_TYPE, "key" := key, "ref" := ref, "props" := props,
            "__mark" := Str("react.element"), "type" := elementType])
  }

  /** The locals of the for-in loop: `key`, `ref` and the `props` dictionary. */
  datatype Scanned = Scanned(key: Value, ref: Value, props: map<string, Value>)

  /** The for-in loop over the properties `config`, in order. */
  function Scan(config: seq<Property>): Result<Scanned>
    decreases |config|
  {
    if config == [] then Ok(Scanned(Null, Null, map[]))
    else
      var s :- Scan(config[..|config| - 1]);
      var p := config[|config| - 1];
      if p.name == "key" then
        if p.value == Undefined then Ok(s)
        else
          var k :- JsToString(p.value);
          Ok(s.(key := Str(k)))
      else if p.name == "ref" then
        Ok(if p.value == Undefined then s else s.(ref := p.value))
      else if p.own then Ok(s.(props := s.props[p.name := p.value]))
      else Ok(s)
  }

  /** `props.children` after the extra arguments: one is stored as is, more as an array, none leaves props alone. */
  function WithChildren(props: map<string, Value>, maybeChildren: seq<Value>): map<string, Value> {
    if |maybeChildren| == 0 then props
    else if |maybeChildren| == 1 then props["children" := maybeChildren[0]]
    else props["children" := Arr(maybeChildren)]
  }

  /** What `jsx(elementType, config, ...maybeChildren)` returns, or the TypeError it throws. */
  function JsxResult(elementType: Value, config: seq<Property>, maybeChildren: seq<Value>): Result<Value> {
    var s :- Scan(config);
    Ok(ReactElement(elementType, s.key, s.ref, Obj(WithChildren(s.props, maybeChildren))))
  }

  /**
   * `jsx(elementType, config, ...maybeChildren)`; `jsxDEV` is the same function.
   * `'' + val` throws on a symbol key, ending the call.
   */
  method JsxCall(elementType: Value, config: seq<Property>, maybeChildren: seq<Value>) returns (r: Result<Value>)
    ensures r == JsxResult(elementType, config, maybeChildren)
  {
    var key := Null;
    var props: map<string, Value> := map[];
    var ref := Null;
    var i := 0;
    while i < |config|
      invariant 0 <= i <= |config|
      invariant Scan(config[..i]) == Ok(Scanned(key, ref, props))
    {
      assert config[..i + 1][..i] == config[..i];
      var prop := config[i].name;
      var val := config[i].value;
      if prop == "key" {
        if val != Undefined {
          var s := JsToString(val);
          if s.Throw? {
            ScanThrowPersists(config, i + 1);
            assert config[..|config|] == config;
            return Throw(s.message);
          }
          key := Str(s.value);
        }
      } else if prop == "ref" {
        if val != Undefined {
          ref := val;
        }
      } else if config[i].own {
        props := props[prop := val];
      }
      i := i + 1;
    }
    assert config[..i] == config;
    var children := WithChildren(props, maybeChildren);
    r := Ok(ReactElement(elementType, key, ref, Obj(children)));
  }

  // ---------------------------------------------------------------------------
  // Properties of the scan.

  /** Once the scan has thrown, the remaining properties do not change the error. */
  lemma {:induction false} ScanThrowPersists(config: seq<Property>, i: nat)
    requires i <= |config| && Scan(config[..i]).Throw?
    ensures Scan(config) == Scan(config[..i])
    decreases |config| - i
  {
    if i < |config| {
      assert config[..i + 1][..i] == config[..i];
      ScanThrowPersists(config, i + 1);
    } else {
      assert config[..i] == config;
    }
  }

  /** `key` and `ref` never reach props. */
  lemma {:induction false} ScanExcludesKeyAndRef(config: seq<Property>)
    requires Scan(config).Ok?
    ensures "key" !in Scan(config).value.props && "ref" !in Scan(config).value.props
    decreases |config|
  {
    if config != [] {
      ScanExcludesKeyAndRef(config[..|config| - 1]);
    }
  }

  /**
   * Props hold exactly the own properties other than key and ref, each with
   * the value of its last occurrence.
   */
  lemma {:induction false} ScanProps(config: seq<Property>, name: string)
    requires Scan(config).Ok? && name != "key" && name != "ref"
    ensures name in Scan(config).value.props <==>
      exists j :: 0 <= j < |config| && config[j].name == name && config[j].own
    ensures name in Scan(config).value.props ==>
      exists j :: 0 <= j < |config| && config[j].name == name && config[j].own &&
        config[j].value == Scan(config).value.props[name] &&
        forall l :: j < l < |config| ==> !(config[l].name == name && config[l].own)
    decreases |config|
  {
    if config != [] {
      var p := config[..|config| - 1];
      var last := config[|config| - 1];
      ScanProps(p, name);
      forall j | 0 <= j < |p| ensures p[j] == config[j] {
      }
      if last.name == name && last.own {
        assert config[|config| - 1].name == name;
      } else if name in Scan(p).value.props {
        var j :| 0 <= j < |p| && p[j].name == name && p[j].own &&
          p[j].value == Scan(p).value.props[name] &&
          forall l :: j < l < |p| ==> !(p[l].name == name && p[l].own);
        assert config[j].name == name && config[j].own;
      }
    }
  }

  /** Without a defined `key` property the key is `null`. */
  lemma {:induction false} ScanKeyAbsent(config: seq<Property>)
    requires Scan(config).Ok?
    requires forall j :: 0 <= j < |config| && config[j].name == "key" ==> config[j].value == Undefined
    ensures Scan(config).value.key == Null
    decreases |config|
  {
    if config != [] {
      var p := config[..|config| - 1];
      forall j | 0 <= j < |p| && p[j].name == "key" ensures p[j].value == Undefined {
        assert p[j] == config[j];
      }
      ScanKeyAbsent(p);
    }
  }

  /** With a defined `key` property the key is the string of the last defined one. */
  lemma {:induction false} ScanKeyLast(config: seq<Property>, j: nat)
    requires Scan(config).Ok? && j < |config|
    requires config[j].name == "key" && config[j].value != Undefined
    requires forall l :: j < l < |config| ==> !(config[l].name == "key" && config[l].value != Undefined)
    ensures JsToString(config[j].value).Ok?
    ensures Scan(config).value.key == Str(JsToString(config[j].value).value)
    decreases |config|
  {
    var p := config[..|config| - 1];
    if j < |config| - 1 {
      forall l | j < l < |p| ensures !(p[l].name == "key" && p[l].value != Undefined) {
        assert p[l] == config[l];
      }
      assert p[j] == config[j];
      ScanKeyLast(p, j);
    }
  }

  /** Without a defined `ref` property the ref is `null`. */
  lemma {:induction false} ScanRefAbsent(config: seq<Property>)
    requires Scan(config).Ok?
    requires forall j :: 0 <= j < |config| && config[j].name == "ref" ==> config[j].value == Undefined
    ensures Scan(config).value.ref == Null
    decreases |config|
  {
    if config != [] {
      var p := config[..|config| - 1];
      forall j | 0 <= j < |p| && p[j].name == "ref" ensures p[j].value == Undefined {
        assert p[j] == config[j];
      }
      ScanRefAbsent(p);
    }
  }

  /** With a defined `ref` property the ref is the last defined one. */
  lemma {:induction false} ScanRefLast(config: seq<Property>, j: nat)
    requires Scan(config).Ok? && j < |config|
    requires config[j].name == "ref" && config[j].value != Undefined
    requires forall l :: j < l < |config| ==> !(config[l].name == "ref" && config[l].value != Undefined)
    ensures Scan(config).value.ref == config[j].value
    decreases |config|
  {
    var p := config[..|config| - 1];
    if j < |config| - 1 {
      forall l | j < l < |p| ensures !(p[l].name == "ref" && p[l].value != Undefined) {
        assert p[l] == config[l];
      }
      assert p[j] == config[j];
      ScanRefLast(p, j);
    }
  }

  /** The scan throws exactly when some defined `key` property cannot be converted to a string. */
  lemma {:induction false} ScanThrows(config: seq<Property>)
    ensures Scan(config).Throw? <==>
      exists j :: 0 <= j < |config| && config[j].name == "key" && config[j].value != Undefined &&
        JsToString(config[j].value).Throw?
    decreases |config|
  {
    if config != [] {
      var p := config[..|config| - 1];
      ScanThrows(p);
      forall j | 0 <= j < |p| ensures p[j] == config[j] {
      }
      if Scan(p).Ok? {
        var last := config[|config| - 1];
        if Scan(config).Throw? {
          assert last.name == "key" && last.value != Undefined && JsToString(last.value).Throw?;
        }
      } else {
        var j :| 0 <= j < |p| && p[j].name == "key" && p[j].value != Undefined && JsToString(p[j].value).Throw?;
        assert config[j] == p[j];
      }
    }
  }

  /** A `null` key becomes the string `"null"`; a symbol key throws. */
  lemma NullKeyBecomesString(elementType: Value)
    ensures JsxResult(elementType, [Property("key", Null, true)], []) ==
      Ok(ReactElement(elementType, Str("null"), Null, Obj(map[])))
    ensures JsxResult(elementType, [Property("key", Sym("k"), true)], []).Throw?
  {
    var c := [Property("key", Null, true)];
    assert c[..0] == [];
    assert JsToString(Null) == Ok("null");
    assert Scan(c) == Ok(Scanned(Str("null"), Null, map[]));
    var d := [Property("key", Sym("k"), true)];
    assert d[..0] == [];
    assert Scan(d).Throw?;
  }

  /**
   * One extra argument is `props.children`, two or more are an array of
   * them in order, and with none a `children` property of config is kept.
   */
  lemma ChildrenArguments(props: map<string, Value>, maybeChildren: seq<Value>)
    ensures |maybeChildren| == 1 ==> WithChildren(props, maybeChildren)["children"] == maybeChildren[0]
    ensures |maybeChildren| >= 2 ==> WithChildren(props, maybeChildren)["children"] == Arr(maybeChildren)
    ensures |maybeChildren| == 0 ==> WithChildren(props, maybeChildren) == props
    ensures forall name :: name != "children" ==>
      (name in WithChildren(props, maybeChildren) <==> name in props) &&
      (name in props ==> WithChildren(props, maybeChildren)[name] == props[name])
  {
  }
}
