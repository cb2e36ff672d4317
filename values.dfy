/** The Python values the modelled scripts pass around, including the numpy ones. */
module Values {
  import opened Outcomes
  import opened Dicts

  /**
   * A Python value: the JSON kinds, numpy's `float32` and `int32` scalars, any other numpy
   * scalar that is not a Python number (`int64`, `bool_`, ...: its dtype name and numeric
   * value), and numpy arrays. `float64` and `str_` are subclasses of Python's `float` and
   * `str` and are modelled as those. Floating-point numbers are exact reals: their rounding
   * is not modelled.
   */
  datatype Value =
    | VNone
    | VBool(b: bool)
    | VInt(i: int)
    | VFloat(x: real)
    | VStr(s: string)
    | VList(items: seq<Value>)
    | VDict(entries: Dict<string, Value>)
    | VFloat32(x: real)
    | VInt32(i: int)
    | VNumpyScalar(dtype: string, x: real)
    | VNdArray(elems: seq<Element>)

  /**
   * One entry of a numeric numpy array: a floating-point scalar, an integer scalar, or a
   * sub-array (a row of a two-dimensional array, and so on).
   */
  datatype Element =
    | EFloat(x: real)
    | EInt(i: int)
    | ESub(elems: seq<Element>)

  /** A JSON object, as `json.load` returns it. */
  type Json = Dict<string, Value>

  /** `v[key]` on a JSON value: only an object has string keys. */
  function Field(v: Value, key: string): (r: Result<Value>)
    ensures r.Ok? <==> v.VDict? && HasKey(v.entries, key)
    ensures r.Ok? ==> Get(v.entries, key) == Some(r.value)
    ensures r.Err? ==> r.error == if v.VDict? then KeyError else TypeError
  {
    if !v.VDict? then Err(TypeError)
    else
      var x := Get(v.entries, key);
      if x.None? then Err(KeyError) else Ok(x.value)
  }
}
