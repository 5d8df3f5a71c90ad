/**
 * The test renderer's view of its host tree (packages/react-noop-renderer/src/root.ts).
 * A container holds a list of host instances; `getChildrenAsJsx` turns that
 * list back into element-shaped values: text as plain strings, adjacent text
 * flattened into one string, instances as elements, and a list of several
 * results as a fragment.
 *
 * Host instances are values: an instance is an object with `type`, `props`
 * and a `children` array, a text instance an object with `text`. The source
 * writes `props.children` into the instance's own props object; here the
 * element gets the updated props as a new value.
 */
module NoopRoot {
  import opened Wrappers
  import opened ReactTypes

  /** The string `String(v)` gives for a string or a number. */
  function TextOf(v: Value): string
    requires IsText(v)
  {
    if v.Str? then v.s else IntToDecimal(v.n)
  }

  /** `items.join('')` for items that are all strings or numbers. */
  function JoinText(items: seq<Value>): string
    requires forall i :: 0 <= i < |items| ==> IsText(items[i])
  {
    if items == [] then "" else TextOf(items[0]) + JoinText(items[1..])
  }

  predicate AllText(items: seq<Value>) {
    forall i :: 0 <= i < |items| ==> IsText(items[i])
  }

  /**
   * `obj.name = x` in strict-mode code: an object gets the property, `null`
   * and `undefined` throw, and so do the other primitives. Arrays, functions
   * and references accept the property, which this value model does not
   * represent on them.
   */
  function SetProperty(obj: Value, name: string, x: Value): (r: Result<Value>)
    ensures obj.Obj? ==> r == Ok(Obj(obj.fields[name := x]))
    ensures r.Throw? <==> !(obj.Obj? || obj.Arr? || obj.Fn? || obj.Ref?)
  {
    match obj
    case Obj(m) => Ok(Obj(m[name := x]))
    case Arr(_) => Ok(obj)
    case Fn(_) => Ok(obj)
    case Ref(_) => Ok(obj)
    case _ => Throw("TypeError: cannot create property '" + name + "'")
  }

  /** The element literal `childToJsx` builds for an instance. */
  function InstanceElement(elementType: Value, props: Value): Value {
    Obj(map["$$typeof" := REACT_ELEMENT_TYPE, "type" := elementType, "key" := Null, "ref" := Null, "props" := props])
  }

  /** `childToJsx(child)`, with the TypeErrors of reading properties of `null` or `undefined`. */
  function ChildToJsx(child: Value): Result<Value>
    decreases child, 1
  {
    if IsText(child) then Ok(child)
    else if child.Arr? then
      if |child.items| == 0 then Ok(Null)
      else if |child.items| == 1 then ChildToJsx(child.items[0])
      else
        var children :- MapToJsx(child.items);
        if AllText(children) then Ok(Str(JoinText(children))) else Ok(Arr(children))
    else if child == Undefined || child == Null then
      Throw("TypeError: cannot read properties of " + (if child == Null then "null" else "undefined"))
    else if child.Obj? && "children" in child.fields && child.fields["children"].Arr? then
      var children :- ChildToJsx(child.fields["children"]);
      var props := GetOptional(child, "props");
      var newProps :- if children != Null then SetProperty(props, "children", children) else Ok(props);
      Ok(InstanceElement(GetOptional(child, "type"), newProps))
    else Ok(GetOptional(child, "text"))
  }

  /** `items.map(childToJsx)`, stopping at the first conversion that throws. */
  function MapToJsx(items: seq<Value>): Result<seq<Value>>
    decreases items, 0
  {
    if items == [] then Ok([])
    else
      var head :- ChildToJsx(items[0]);
      var rest :- MapToJsx(items[1..]);
      Ok([head] + rest)
  }

  /** `getChildren(parent)`: the children of a truthy parent, `null` otherwise. */
  function GetChildren(parent: Value): (r: Value)
    ensures !Truthy(parent) ==> r == Null
    ensures parent.Obj? && "children" in parent.fields ==> r == parent.fields["children"]
  {
    if Truthy(parent) then GetOptional(parent, "children") else Null
  }

  /** The fragment `getChildrenAsJsx` wraps around a list of results. */
  function FragmentElement(children: Value): Value {
    Obj(map["$$typeof" := REACT_ELEMENT_TYPE, "type" := REACT_FRAGMENT_TYPE, "key" := Null, "ref" := Null,
            "props" := Obj(map["children" := children])])
  }

  /** `getChildrenAsJsx(root)`. */
  function GetChildrenAsJsx(root: Value): (r: Result<Value>)
    ensures ChildToJsx(GetChildren(root)).Throw? <==> r.Throw?
    ensures r.Ok? ==>
      var c := ChildToJsx(GetChildren(root)).value;
      r.value == (if c.Arr? then FragmentElement(c) else c)
  {
    var children :- ChildToJsx(GetChildren(root));
    if children.Arr? then Ok(FragmentElement(children)) else Ok(children)
  }

  /** The container `createRoot` builds: its id and the host children appended to it. */
  class Container {
    const rootID: nat
    var children: seq<Value>

    constructor (rootID: nat)
      ensures this.rootID == rootID && children == []
    {
      this.rootID := rootID;
      children := [];
    }

    /** The container as the object `getChildren` reads. */
    function AsValue(): Value
      reads this
    {
      Obj(map["rootID" := Num(rootID), "children" := Arr(children)])
    }
  }

  /** The module-level counter `idContainer`. */
  class NoopRenderer {
    var idContainer: nat

    constructor ()
      ensures idContainer == 0
    {
      idContainer := 0;
    }

    /** `createRoot()`: a fresh container with the next id and no children. */
    method CreateRoot() returns (container: Container)
      modifies this
      ensures fresh(container) && container.rootID == old(idContainer) && container.children == []
      ensures idContainer == old(idContainer) + 1
    {
      container := new Container(idContainer);
      idContainer := idContainer + 1;
    }
  }

  /** The root's `getChildrenAsJsx()`, over the container's children as they are now. */
  function RootChildrenAsJsx(container: Container): (r: Result<Value>)
    reads container
    ensures r == GetChildrenAsJsx(container.AsValue())
  {
    GetChildrenAsJsx(container.AsValue())
  }

  // ---------------------------------------------------------------------------
  // Properties of the conversion.

  /** Strings and numbers convert to themselves; an empty list to `null`; a one-item list to its item's conversion. */
  lemma TextAndShortLists(child: Value)
    ensures IsText(child) ==> ChildToJsx(child) == Ok(child)
    ensures child == Arr([]) ==> ChildToJsx(child) == Ok(Null)
    ensures child.Arr? && |child.items| == 1 ==> ChildToJsx(child) == ChildToJsx(child.items[0])
  {
  }

  /** `map` converts every item in order, and throws exactly when one of the items does. */
  lemma {:induction false} MapToJsxPointwise(items: seq<Value>)
    ensures MapToJsx(items).Ok? <==> forall i :: 0 <= i < |items| ==> ChildToJsx(items[i]).Ok?
    ensures MapToJsx(items).Ok? ==>
      |MapToJsx(items).value| == |items| &&
      forall i :: 0 <= i < |items| ==> MapToJsx(items).value[i] == ChildToJsx(items[i]).value
    decreases |items|
  {
    if items != [] {
      MapToJsxPointwise(items[1..]);
      forall i | 1 <= i < |items| ensures items[1..][i - 1] == items[i] {
      }
    }
  }

  /**
   * A list of two or more: when every converted item is a string or a
   * number the result is their concatenation, otherwise the list of the
   * converted items in order.
   */
  lemma LongList(items: seq<Value>)
    requires |items| >= 2
    requires forall i :: 0 <= i < |items| ==> ChildToJsx(items[i]).Ok?
    ensures ChildToJsx(Arr(items)).Ok?
    ensures var cs := seq(|items|, i requires 0 <= i < |items| => ChildToJsx(items[i]).value);
      ChildToJsx(Arr(items)).value == (if AllText(cs) then Str(JoinText(cs)) else Arr(cs))
  {
    MapToJsxPointwise(items);
    var cs := seq(|items|, i requires 0 <= i < |items| => ChildToJsx(items[i]).value);
    assert MapToJsx(items).value == cs;
  }

  /**
   * An instance with a children array becomes an element of the instance's
   * type with null key and ref; its props get `children` when the converted
   * children are not `null`.
   */
  lemma InstanceBecomesElement(elementType: Value, props: map<string, Value>, children: seq<Value>)
    requires ChildToJsx(Arr(children)).Ok?
    ensures var inst := Obj(map["type" := elementType, "props" := Obj(props), "children" := Arr(children)]);
      var c := ChildToJsx(Arr(children)).value;
      ChildToJsx(inst) ==
        Ok(InstanceElement(elementType, Obj(if c != Null then props["children" := c] else props)))
  {
  }

  /** Any other object converts to its `text` property; `null` and `undefined` throw. */
  lemma OtherValues(child: Value)
    requires !IsText(child) && !child.Arr?
    requires !(child.Obj? && "children" in child.fields && child.fields["children"].Arr?)
    ensures child == Null || child == Undefined ==> ChildToJsx(child).Throw?
    ensures child != Null && child != Undefined ==> ChildToJsx(child) == Ok(GetOptional(child, "text"))
  {
  }

  // ---------------------------------------------------------------------------
  // Host trees built by the renderer.

  /** A host node: an instance with its props and children, or a text instance. */
  datatype HostNode =
    | Instance(elementType: Value, props: map<string, Value>, children: seq<HostNode>)
    | TextInstance(text: string)

  function Encode(n: HostNode): Value
    decreases n, 1
  {
    match n
    case Instance(t, p, kids) =>
      Obj(map["type" := t, "props" := Obj(p), "children" := Arr(EncodeAll(kids))])
    case TextInstance(text) => Obj(map["text" := Str(text)])
  }

  function EncodeAll(ns: seq<HostNode>): (r: seq<Value>)
    ensures |r| == |ns|
    decreases ns, 0
  {
    if ns == [] then [] else [Encode(ns[0])] + EncodeAll(ns[1..])
  }

  /** An element `childToJsx` builds for an instance of type `t`. */
  predicate IsInstanceElement(v: Value, t: Value) {
    v.Obj? && v.fields.Keys == {"$$typeof", "type", "key", "ref", "props"} &&
    v.fields["$$typeof"] == REACT_ELEMENT_TYPE && v.fields["type"] == t &&
    v.fields["key"] == Null && v.fields["ref"] == Null && v.fields["props"].Obj?
  }

  /**
   * A host tree never makes the conversion throw: a text instance becomes
   * its text, and an instance an element of its type whose props are its own
   * props with at most `children` replaced.
   */
  lemma {:induction false} HostTreeConverts(n: HostNode)
    ensures ChildToJsx(Encode(n)).Ok?
    ensures n.TextInstance? ==> ChildToJsx(Encode(n)) == Ok(Str(n.text))
    ensures n.Instance? ==>
      var e := ChildToJsx(Encode(n)).value;
      IsInstanceElement(e, n.elementType) &&
      forall name :: name != "children" ==>
        (name in e.fields["props"].fields <==> name in n.props) &&
        (name in n.props ==> e.fields["props"].fields[name] == n.props[name])
    decreases n, 1
  {
    if n.Instance? {
      HostListConverts(n.children);
      var v := Encode(n);
      assert v.fields["children"] == Arr(EncodeAll(n.children));
    }
  }

  lemma {:induction false} HostListConverts(ns: seq<HostNode>)
    ensures ChildToJsx(Arr(EncodeAll(ns))).Ok?
    decreases ns, 0
  {
    var vs := EncodeAll(ns);
    forall i | 0 <= i < |ns| ensures ChildToJsx(vs[i]).Ok? {
      EncodeAllAt(ns, i);
      HostTreeConverts(ns[i]);
    }
    if |ns| >= 2 {
      MapToJsxPointwise(vs);
    } else if |ns| == 1 {
      EncodeAllAt(ns, 0);
    }
  }

  lemma {:induction false} EncodeAllAt(ns: seq<HostNode>, i: nat)
    requires i < |ns|
    ensures EncodeAll(ns)[i] == Encode(ns[i])
    decreases |ns|
  {
    if i > 0 {
      EncodeAllAt(ns[1..], i - 1);
    }
  }

  /** The concatenation of texts. */
  function Concat(texts: seq<string>): string {
    if texts == [] then "" else texts[0] + Concat(texts[1..])
  }

  /** Two or more text instances under one instance flatten into one string of their texts in order. */
  lemma TextChildrenFlatten(t: Value, props: map<string, Value>, texts: seq<string>)
    requires |texts| >= 2
    ensures var kids := seq(|texts|, i requires 0 <= i < |texts| => TextInstance(texts[i]));
      ChildToJsx(Encode(Instance(t, props, kids))) ==
        Ok(InstanceElement(t, Obj(props["children" := Str(Concat(texts))])))
  {
    var kids := seq(|texts|, i requires 0 <= i < |texts| => TextInstance(texts[i]));
    TextListFlattens(kids, texts);
    var v := Encode(Instance(t, props, kids));
    assert v.fields["children"] == Arr(EncodeAll(kids));
  }

  lemma TextListFlattens(kids: seq<HostNode>, texts: seq<string>)
    requires |texts| >= 2 && kids == seq(|texts|, i requires 0 <= i < |texts| => TextInstance(texts[i]))
    ensures ChildToJsx(Arr(EncodeAll(kids))) == Ok(Str(Concat(texts)))
  {
    var vs := EncodeAll(kids);
    var cs := seq(|texts|, i requires 0 <= i < |texts| => Str(texts[i]));
    forall i | 0 <= i < |vs| ensures ChildToJsx(vs[i]) == Ok(cs[i]) {
      EncodeAllAt(kids, i);
      assert vs[i] == Obj(map["text" := Str(texts[i])]);
    }
    MapToJsxPointwise(vs);
    var m := MapToJsx(vs).value;
    assert m == cs;
    JoinStrings(texts);
  }

  lemma {:induction false} JoinStrings(texts: seq<string>)
    ensures var cs := seq(|texts|, i requires 0 <= i < |texts| => Str(texts[i]));
      AllText(cs) && JoinText(cs) == Concat(texts)
    decreases |texts|
  {
    if texts != [] {
      JoinStrings(texts[1..]);
      var cs := seq(|texts|, i requires 0 <= i < |texts| => Str(texts[i]));
      var ds := seq(|texts[1..]|, i requires 0 <= i < |texts[1..]| => Str(texts[1..][i]));
      assert cs[1..] == ds;
    }
  }

  /** `getChildrenAsJsx` wraps a list in a fragment and passes other results through. */
  lemma FragmentWrapping(root: Value)
    requires ChildToJsx(GetChildren(root)).Ok?
    ensures var c := ChildToJsx(GetChildren(root)).value;
      c.Arr? ==> GetChildrenAsJsx(root) == Ok(FragmentElement(c))
    ensures var c := ChildToJsx(GetChildren(root)).value;
      !c.Arr? ==> GetChildrenAsJsx(root) == Ok(c)
  {
  }
}
