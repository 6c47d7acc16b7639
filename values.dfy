/**
 * The report's value space and `json_convert`, which renders a report so that
 * `json.dumps` can write it: None, callables and floats become strings,
 * tuples become lists, containers are rendered element by element.
 */
module Values {

  /** A literal bound by a partial application (`k=5000`, `discrete=False`, ...). */
  datatype Literal = LBool(b: bool) | LInt(i: int) | LFloat(text: string) | LStr(s: string) | LStrs(ss: seq<string>)

  /**
   * A callable as the engine sees it: the module that defines it, the `__name__`
   * it reports and the keyword arguments a partial has bound. Two modules may
   * define functions of the same name (`getGiniCoef`); the module keeps them
   * apart. The computation itself is a collaborator supplied from outside.
   */
  datatype Fn = Fn(home: string, name: string, bound: seq<(string, Literal)>)

  /**
   * `named_partial(func, **kwargs)`: binds keyword arguments and, through
   * `update_wrapper`, keeps the wrapped function's name.
   */
  function NamedPartial(f: Fn, kwargs: seq<(string, Literal)>): (r: Fn)
    ensures r.home == f.home && r.name == f.name
    ensures |r.bound| == |f.bound| + |kwargs|
  {
    Fn(f.home, f.name, f.bound + kwargs)
  }

  /**
   * A Python value in the report. A float is carried as the text `str()` gives
   * it (`"0.25"`, `"nan"`); dictionary keys in the report are strings.
   */
  datatype Value =
    | VNone
    | VBool(b: bool)
    | VInt(i: int)
    | VFloat(text: string)
    | VStr(s: string)
    | VList(items: seq<Value>)
    | VTuple(items: seq<Value>)
    | VDict(entries: map<string, Value>)
    | VCallable(fn: Fn)

  /** A value with no None, callable, float or tuple left anywhere inside it. */
  predicate Rendered(v: Value)
  {
    match v
    case VNone => false
    case VFloat(_) => false
    case VTuple(_) => false
    case VCallable(_) => false
    case VList(items) => forall i :: 0 <= i < |items| ==> Rendered(items[i])
    case VDict(m) => forall k :: k in m ==> Rendered(m[k])
    case _ => true
  }

  /**
   * `json_convert`. Its `obj == math.nan` test never holds (NaN equals
   * nothing), so that branch is absent and a NaN float renders as `str(nan)`.
   */
  function JsonConvert(v: Value): (r: Value)
    ensures Rendered(r)
  {
    match v
    case VNone => VStr("None")
    case VCallable(f) => VStr(f.name)
    case VFloat(text) => VStr(text)
    case VList(items) => VList(seq(|items|, i requires 0 <= i < |items| => JsonConvert(items[i])))
    case VTuple(items) => VList(seq(|items|, i requires 0 <= i < |items| => JsonConvert(items[i])))
    case VDict(m) => VDict(map k | k in m :: JsonConvert(m[k]))
    case _ => v
  }

  /** A rendered value is left exactly as it is. */
  lemma {:induction false} RenderedIsFixed(v: Value)
    requires Rendered(v)
    ensures JsonConvert(v) == v
  {
    match v
    case VList(items) =>
      forall i | 0 <= i < |items| ensures JsonConvert(items[i]) == items[i] {
        RenderedIsFixed(items[i]);
      }
      assert JsonConvert(v).items == items;
    case VDict(m) =>
      forall k | k in m ensures JsonConvert(m[k]) == m[k] {
        RenderedIsFixed(m[k]);
      }
      assert JsonConvert(v).entries == m;
    case _ =>
  }

  /** Converting a converted report again changes nothing. */
  lemma JsonConvertIdempotent(v: Value)
    ensures JsonConvert(JsonConvert(v)) == JsonConvert(v)
  {
    RenderedIsFixed(JsonConvert(v));
  }

  /**
   * Conversion keeps the shape: a list or tuple becomes a list of the same
   * length holding the converted elements, a dictionary keeps its keys and holds
   * the converted values.
   */
  lemma ConvertKeepsShape(v: Value)
    ensures (v.VList? || v.VTuple?) ==>
      JsonConvert(v).VList? && |JsonConvert(v).items| == |v.items| &&
      forall i :: 0 <= i < |v.items| ==> JsonConvert(v).items[i] == JsonConvert(v.items[i])
    ensures v.VDict? ==>
      JsonConvert(v).VDict? && JsonConvert(v).entries.Keys == v.entries.Keys &&
      forall k :: k in v.entries ==> JsonConvert(v).entries[k] == JsonConvert(v.entries[k])
  {
  }

  /** A partial made with `named_partial` renders as the name of the wrapped function. */
  lemma NamedPartialRendersWrappedName(f: Fn, kwargs: seq<(string, Literal)>)
    ensures JsonConvert(VCallable(NamedPartial(f, kwargs))) == VStr(f.name)
  {
  }

  /** The dead NaN test: a NaN score is written as Python's `str(nan)`, not "NaN". */
  lemma NaNRendersAsStr()
    ensures JsonConvert(VFloat("nan")) == VStr("nan")
  {
  }
}
