/** The helpers of `djura/utilities.py`: IM-name parsing and the JSON normaliser. */
module Utilities {
  import opened Outcomes
  import opened Text
  import opened Dicts
  import opened Values

  // ---------------------------------------------------------------------------
  // get_period_im
  // ---------------------------------------------------------------------------

  /** The length of the run of digits that `s` starts with. */
  function DigitRun(s: string): (n: nat)
    ensures n <= |s|
    ensures forall i :: 0 <= i < n ==> IsDigit(s[i])
    ensures n < |s| ==> !IsDigit(s[n])
  {
    if s != [] && IsDigit(s[0]) then 1 + DigitRun(s[1..]) else 0
  }

  /** A non-empty string of digits. */
  predicate Digits(s: string) {
    s != [] && forall i :: 0 <= i < |s| ==> IsDigit(s[i])
  }

  /**
   * The text that the group `(\d+(\.\d+)?)` matches at the start of `s`: the leading
   * digits, followed by `.` and the next digits when at least one digit follows the `.`.
   */
  function Number(s: string): (r: string)
    requires s != [] && IsDigit(s[0])
    ensures r != [] && r <= s
  {
    var a := DigitRun(s);
    if a + 1 < |s| && s[a] == '.' && IsDigit(s[a + 1])
    then s[..a + 1 + DigitRun(s[a + 1..])]
    else s[..a]
  }

  /**
   * `re.search(r"\((\d+(\.\d+)?)\)?(?:\D*)?", s).group(1)`, or `None` when there is no
   * match: the number after the first `(` that is immediately followed by a digit (an
   * ASCII digit, see `IsDigit`).
   */
  function SearchPeriod(s: string): (r: Option<string>)
    decreases |s|
  {
    if |s| < 2 then None
    else if s[0] == '(' && IsDigit(s[1]) then Some(Number(s[1..]))
    else SearchPeriod(s[1..])
  }

  /**
   * `get_period_im(name)`: the IM type (the stripped text before the first `(`, or the
   * whole name when it has none) and the period. The period is kept as the matched text;
   * the source converts it with `float`, which is not modelled.
   */
  function GetPeriodIm(name: string): (string, Option<string>) {
    var imType := if '(' in name then Strip(name[..Find(name, '(')]) else name;
    (imType, SearchPeriod(name))
  }

  /** Without a `(` there is no period to find. */
  lemma {:induction false} SearchPeriodNoParen(s: string)
    requires '(' !in s
    ensures SearchPeriod(s) == None
    decreases |s|
  {
    if |s| >= 2 {
      assert s[0] != '(';
      assert forall i :: 0 <= i < |s[1..]| ==> s[1..][i] == s[i + 1];
      SearchPeriodNoParen(s[1..]);
    }
  }

  /** `get_period_im('PGA') == ('PGA', None)`: a name without `(` is its own type. */
  lemma GetPeriodImNoParen(name: string)
    requires '(' !in name
    ensures GetPeriodIm(name) == (name, None)
  {
    SearchPeriodNoParen(name);
  }

  /** The number at the start of `whole + "." + frac + rest`, or of `whole + rest`. */
  lemma NumberOf(whole: string, frac: string, rest: string)
    requires Digits(whole) && (frac == [] || Digits(frac))
    requires rest == [] || !IsDigit(rest[0])
    requires frac == [] ==> rest == [] || rest[0] != '.'
    ensures var p := if frac == [] then whole else whole + "." + frac;
            var s := p + rest;
            s != [] && IsDigit(s[0]) && Number(s) == p
  {
    var p := if frac == [] then whole else whole + "." + frac;
    var s := p + rest;
    DigitRunOf(whole, if frac == [] then rest else "." + frac + rest);
    if frac == [] {
      assert s == whole + rest;
    } else {
      assert s == whole + ("." + frac + rest);
      var t := s[|whole| + 1..];
      assert t == frac + rest;
      DigitRunOf(frac, rest);
      assert s[..|whole| + 1 + |frac|] == p;
    }
  }

  /** The digit run of digits followed by a non-digit. */
  lemma {:induction false} DigitRunOf(ds: string, rest: string)
    requires forall i :: 0 <= i < |ds| ==> IsDigit(ds[i])
    requires rest == [] || !IsDigit(rest[0])
    ensures DigitRun(ds + rest) == |ds|
    decreases |ds|
  {
    if ds != [] {
      assert (ds + rest)[1..] == ds[1..] + rest;
      DigitRunOf(ds[1..], rest);
    } else {
      assert ds + rest == rest;
    }
  }

  /**
   * The IM names the source builds, such as `SA(0.5)` or `Sa_avg(1)`: the type text
   * (stripped) and the period text come back out.
   */
  lemma GetPeriodImOfName(t: string, whole: string, frac: string, u: string)
    requires '(' !in t
    requires Digits(whole) && (frac == [] || Digits(frac))
    ensures var p := if frac == [] then whole else whole + "." + frac;
            GetPeriodIm(t + "(" + p + ")" + u) == (Strip(t), Some(p))
  {
    var p := if frac == [] then whole else whole + "." + frac;
    var tail := p + (")" + u);
    var name := t + "(" + p + ")" + u;
    assert name == t + "(" + tail;
    assert Find(name, '(') == |t| by {
      assert name == t + ("(" + tail);
      assert '(' in "(" + tail;
      FindAfter(t, "(" + tail, '(');
    }
    assert name[..|t|] == t;
    assert Number(tail) == p by {
      NumberOf(whole, frac, ")" + u);
    }
    SearchPeriodAfter(t, tail);
  }

  /** The search skips a prefix without `(` and then finds the number after `(`. */
  lemma {:induction false} SearchPeriodAfter(t: string, tail: string)
    requires '(' !in t && tail != [] && IsDigit(tail[0])
    ensures SearchPeriod(t + "(" + tail) == Some(Number(tail))
    decreases |t|
  {
    var s := t + "(" + tail;
    if t == [] {
      assert s == "(" + tail && s[1..] == tail;
    } else {
      assert s[0] == t[0] != '(';
      assert s[1..] == t[1..] + "(" + tail;
      assert '(' !in t[1..] by {
        assert forall i :: 0 <= i < |t[1..]| ==> t[1..][i] == t[i + 1];
      }
      SearchPeriodAfter(t[1..], tail);
    }
  }

  // ---------------------------------------------------------------------------
  // to_json_serializable
  // ---------------------------------------------------------------------------

  /** One array entry as `ndarray.tolist` gives it: a Python float, int or list. */
  function ElementToPython(e: Element): (r: Value)
    ensures e.EFloat? ==> r == VFloat(e.x)
    ensures e.EInt? ==> r == VInt(e.i)
    ensures e.ESub? ==> r.VList? && |r.items| == |e.elems|
  {
    match e
    case EFloat(x) => VFloat(x)
    case EInt(i) => VInt(i)
    case ESub(es) => VList(ToList(es))
  }

  /** `ndarray.tolist()` of an array with entries `es`. */
  function ToList(es: seq<Element>): (r: seq<Value>)
    ensures |r| == |es|
  {
    seq(|es|, i requires 0 <= i < |es| => ElementToPython(es[i]))
  }

  /**
   * `to_json_serializable(data)`: dictionaries keep their keys with converted values,
   * lists become lists of converted items, arrays become nested lists, `float32` and
   * `int32` both become Python floats, and any other value is returned as it is.
   */
  function ToJsonSerializable(v: Value): (r: Value)
    ensures v.VDict? <==> r.VDict?
    ensures v.VDict? ==> Keys(r.entries) == Keys(v.entries)
    ensures v.VList? ==> r.VList? && |r.items| == |v.items|
    ensures v.VNdArray? ==> r.VList? && |r.items| == |v.elems|
    ensures v.VFloat32? ==> r == VFloat(v.x)
    ensures v.VInt32? ==> r == VFloat(v.i as real)
    ensures !(v.VDict? || v.VList? || v.VNdArray? || v.VFloat32? || v.VInt32?) ==> r == v
  {
    match v
    case VDict(es) =>
      var rs := seq(|es|, i requires 0 <= i < |es| => (es[i].0, ToJsonSerializable(es[i].1)));
      SameKeys(es, rs);
      VDict(rs)
    case VList(xs) => VList(seq(|xs|, i requires 0 <= i < |xs| => ToJsonSerializable(xs[i])))
    case VNdArray(es) => VList(ToList(es))
    case VFloat32(x) => VFloat(x)
    case VInt32(i) => VFloat(i as real)
    case _ => v
  }

  lemma SameKeys(a: Dict<string, Value>, b: Dict<string, Value>)
    requires |a| == |b| && forall i :: 0 <= i < |a| ==> a[i].0 == b[i].0
    ensures Keys(a) == Keys(b)
  {
  }

  /** A value `json.dump` accepts: no numpy scalar or array anywhere inside it. */
  predicate Serializable(v: Value) {
    match v
    case VList(xs) => forall i :: 0 <= i < |xs| ==> Serializable(xs[i])
    case VDict(es) => forall i :: 0 <= i < |es| ==> Serializable(es[i].1)
    case VFloat32(_) => false
    case VInt32(_) => false
    case VNumpyScalar(_, _) => false
    case VNdArray(_) => false
    case _ => true
  }

  /** No `float32`, `int32` or array anywhere inside: nothing the normaliser converts. */
  predicate Normalised(v: Value) {
    match v
    case VList(xs) => forall i :: 0 <= i < |xs| ==> Normalised(xs[i])
    case VDict(es) => forall i :: 0 <= i < |es| ==> Normalised(es[i].1)
    case VFloat32(_) => false
    case VInt32(_) => false
    case VNdArray(_) => false
    case _ => true
  }

  /** No numpy scalar other than `float32` and `int32` anywhere inside. */
  predicate NoOtherScalar(v: Value) {
    match v
    case VList(xs) => forall i :: 0 <= i < |xs| ==> NoOtherScalar(xs[i])
    case VDict(es) => forall i :: 0 <= i < |es| ==> NoOtherScalar(es[i].1)
    case VNumpyScalar(_, _) => false
    case _ => true
  }

  /** What `tolist` gives is serializable. */
  lemma {:induction false} ElementToPythonSerializable(e: Element)
    ensures Serializable(ElementToPython(e))
  {
    match e
    case ESub(es) =>
      forall i | 0 <= i < |es| ensures Serializable(ToList(es)[i]) {
        ElementToPythonSerializable(es[i]);
      }
    case _ =>
  }

  /** The normaliser leaves nothing it would convert again. */
  lemma {:induction false} ToJsonSerializableNormalised(v: Value)
    ensures Normalised(ToJsonSerializable(v))
  {
    match v
    case VDict(es) =>
      var r := ToJsonSerializable(v);
      forall i | 0 <= i < |es| ensures Normalised(r.entries[i].1) {
        ToJsonSerializableNormalised(es[i].1);
      }
    case VList(xs) =>
      var r := ToJsonSerializable(v);
      forall i | 0 <= i < |xs| ensures Normalised(r.items[i]) {
        ToJsonSerializableNormalised(xs[i]);
      }
    case VNdArray(es) =>
      forall i | 0 <= i < |es| ensures Serializable(ToList(es)[i]) && Normalised(ToList(es)[i]) {
        ElementToPythonSerializable(es[i]);
        SerializableNormalised(ToList(es)[i]);
      }
    case _ =>
  }

  /** A serializable value holds nothing the normaliser converts. */
  lemma {:induction false} SerializableNormalised(v: Value)
    requires Serializable(v)
    ensures Normalised(v)
  {
    match v
    case VDict(es) =>
      forall i | 0 <= i < |es| ensures Normalised(es[i].1) {
        SerializableNormalised(es[i].1);
      }
    case VList(xs) =>
      forall i | 0 <= i < |xs| ensures Normalised(xs[i]) {
        SerializableNormalised(xs[i]);
      }
    case _ =>
  }

  /**
   * The normaliser removes every numpy value from an input that holds no numpy scalar
   * other than `float32` and `int32`.
   */
  lemma {:induction false} ToJsonSerializableSerializable(v: Value)
    requires NoOtherScalar(v)
    ensures Serializable(ToJsonSerializable(v))
  {
    match v
    case VDict(es) =>
      var r := ToJsonSerializable(v);
      forall i | 0 <= i < |es| ensures Serializable(r.entries[i].1) {
        ToJsonSerializableSerializable(es[i].1);
      }
    case VList(xs) =>
      var r := ToJsonSerializable(v);
      forall i | 0 <= i < |xs| ensures Serializable(r.items[i]) {
        ToJsonSerializableSerializable(xs[i]);
      }
    case VNdArray(es) =>
      forall i | 0 <= i < |es| ensures Serializable(ToList(es)[i]) {
        ElementToPythonSerializable(es[i]);
      }
    case _ =>
  }

  /**
   * Any other numpy scalar, such as the `int64` or `bool_` read from a record array, is
   * returned as it is and stays something `json.dump` refuses.
   */
  lemma OtherScalarKept(dtype: string, x: real)
    ensures ToJsonSerializable(VNumpyScalar(dtype, x)) == VNumpyScalar(dtype, x)
    ensures !Serializable(ToJsonSerializable(VNumpyScalar(dtype, x)))
  {
  }

  /** A value holding nothing to convert comes back unchanged. */
  lemma {:induction false} NormalisedUnchanged(v: Value)
    requires Normalised(v)
    ensures ToJsonSerializable(v) == v
  {
    match v
    case VDict(es) =>
      var r := ToJsonSerializable(v);
      forall i | 0 <= i < |es| ensures r.entries[i] == es[i] {
        NormalisedUnchanged(es[i].1);
      }
    case VList(xs) =>
      var r := ToJsonSerializable(v);
      forall i | 0 <= i < |xs| ensures r.items[i] == xs[i] {
        NormalisedUnchanged(xs[i]);
      }
    case _ =>
  }

  /** Normalising twice is normalising once. */
  lemma ToJsonSerializableIdempotent(v: Value)
    ensures ToJsonSerializable(ToJsonSerializable(v)) == ToJsonSerializable(v)
  {
    ToJsonSerializableNormalised(v);
    NormalisedUnchanged(ToJsonSerializable(v));
  }
}
