/**
 * The JavaScript values the core passes around (packages/shared/ReactType.ts,
 * packages/shared/ReactSymbols.ts). Objects are property maps compared by
 * contents; the one kind of object whose identity matters (a hook record held
 * in `memoizedState`) is carried by reference in `Ref`. Numbers are integers.
 */
module ReactTypes {
  import opened Wrappers

  datatype Value =
    | Undefined
    | Null
    | Bool(b: bool)
    | Num(n: int)
    | Str(s: string)
    /** A symbol registered with `Symbol.for(key)`; equal keys give the same symbol. */
    | Sym(key: string)
    /** A JavaScript function, known by identity. */
    | Fn(id: nat)
    | Arr(items: seq<Value>)
    | Obj(fields: map<string, Value>)
    | Ref(obj: object)

  /** JavaScript truthiness. */
  predicate Truthy(v: Value) {
    match v
    case Undefined => false
    case Null => false
    case Bool(b) => b
    case Num(n) => n != 0
    case Str(s) => s != ""
    case _ => true
  }

  /** `typeof v === 'string' || typeof v === 'number'`. */
  predicate IsText(v: Value) {
    v.Str? || v.Num?
  }

  /** `typeof v === 'object' && v !== null`. */
  predicate IsObject(v: Value) {
    v.Arr? || v.Obj? || v.Ref?
  }

  /**
   * Reading property `name` of `v`: a TypeError on `undefined` and `null`,
   * the field of an object (or `undefined` when it is missing), and `undefined`
   * on every other value, none of which has the properties the core reads.
   */
  function Get(v: Value, name: string): (r: Result<Value>)
    ensures r.Throw? <==> v == Undefined || v == Null
    ensures v.Obj? && name in v.fields ==> r == Ok(v.fields[name])
    ensures r.Ok? && r.value != Undefined ==> v.Obj? && name in v.fields
  {
    match v
    case Undefined => Throw("TypeError: cannot read properties of undefined")
    case Null => Throw("TypeError: cannot read properties of null")
    case Obj(m) => if name in m then Ok(m[name]) else Ok(Undefined)
    case _ => Ok(Undefined)
  }

  /** `v?.name`: like `Get`, but `undefined` instead of the TypeError. */
  function GetOptional(v: Value, name: string): (r: Value)
    ensures v.Obj? && name in v.fields ==> r == v.fields[name]
    ensures r != Undefined ==> v.Obj? && name in v.fields
  {
    if v.Obj? && name in v.fields then v.fields[name] else Undefined
  }

  /** `typeof Symbol === 'function' && typeof Symbol.for === 'function'`; the model takes a host with symbols. */
  const SupportSymbol: bool := true

  const REACT_ELEMENT_TYPE: Value := if SupportSymbol then Sym("react.element") else Num(0xeac7)
  const REACT_FRAGMENT_TYPE: Value := if SupportSymbol then Sym("react.fragment") else Num(0xaecb)

  /** The element and fragment markers differ, so no element is taken for a fragment marker. */
  lemma MarkersDistinct()
    ensures REACT_ELEMENT_TYPE != REACT_FRAGMENT_TYPE
    ensures REACT_ELEMENT_TYPE == Sym("react.element")
  {
  }

  // ---------------------------------------------------------------------------
  // String conversion, `'' + v`.

  function DigitChar(d: nat): (c: char)
    requires d < 10
    ensures '0' <= c <= '9'
  {
    "0123456789"[d]
  }

  /** The decimal notation of a natural number, without leading zeros. */
  function NatToDecimal(n: nat): (s: string)
    ensures |s| >= 1
    ensures forall i :: 0 <= i < |s| ==> '0' <= s[i] <= '9'
    ensures n >= 10 ==> s[0] != '0'
    decreases n
  {
    if n < 10 then [DigitChar(n)] else NatToDecimal(n / 10) + [DigitChar(n % 10)]
  }

  /** The value of a string of decimal digits. */
  function ParseDecimal(s: string): nat
    requires forall i :: 0 <= i < |s| ==> '0' <= s[i] <= '9'
  {
    if |s| == 0 then 0 else ParseDecimal(s[..|s| - 1]) * 10 + ((s[|s| - 1] as int) - ('0' as int))
  }

  /** Reading back the decimal notation gives the number: the notation loses nothing. */
  lemma {:induction false} DecimalRoundTrip(n: nat)
    ensures ParseDecimal(NatToDecimal(n)) == n
    decreases n
  {
    if n >= 10 {
      var p := NatToDecimal(n / 10);
      var s := p + [DigitChar(n % 10)];
      assert NatToDecimal(n) == s;
      DecimalRoundTrip(n / 10);
      assert s[..|s| - 1] == p;
      assert (s[|s| - 1] as int) - ('0' as int) == n % 10 by {
        assert "0123456789"[n % 10] as int == '0' as int + n % 10;
      }
    }
  }

  function IntToDecimal(n: int): string {
    if n < 0 then "-" + NatToDecimal(-n) else NatToDecimal(n)
  }

  /**
   * `'' + v`. A symbol cannot be converted (TypeError); an array is the
   * comma-joined conversion of its items, with `undefined` and `null` items
   * empty; other objects are `[object Object]`. A function's source text is
   * not modelled: a function converts to `function`.
   */
  function JsToString(v: Value): (r: Result<string>)
    ensures v.Str? ==> r == Ok(v.s)
    ensures v == Null ==> r == Ok("null")
    ensures v == Undefined ==> r == Ok("undefined")
    ensures v.Num? ==> r == Ok(IntToDecimal(v.n))
    ensures v.Sym? ==> r.Throw?
  {
    match v
    case Undefined => Ok("undefined")
    case Null => Ok("null")
    case Bool(b) => Ok(if b then "true" else "false")
    case Num(n) => Ok(IntToDecimal(n))
    case Str(s) => Ok(s)
    case Sym(_) => Throw("TypeError: cannot convert a Symbol value to a string")
    case Fn(_) => Ok("function")
    case Arr(items) => JoinItems(items, 0)
    case Obj(_) => Ok("[object Object]")
    case Ref(_) => Ok("[object Object]")
  }

  /** `items.slice(from).join(',')`, the conversion of an array. */
  function JoinItems(items: seq<Value>, from: nat): Result<string>
    requires from <= |items|
    decreases items, |items| - from
  {
    if from == |items| then Ok("")
    else
      var head :- if items[from] == Undefined || items[from] == Null then Ok("") else JsToString(items[from]);
      var rest :- JoinItems(items, from + 1);
      Ok(head + (if from + 1 < |items| then "," else "") + rest)
  }
}
