/**
 * djura/record_selector/hzc.py: `prepare_input_for_hzc`, which gathers, for the POEs in
 * decreasing order, the scaled intensities of the records selected for each POE, and then
 * copies the hazard curves of `psha` re-keyed by their periods.
 *
 * The records file of each POE is an input, keyed by the POE, instead of a file read from
 * the selection directory.
 */
module Hzc {
  import opened Outcomes
  import opened Text
  import opened Dicts
  import opened Values
  import opened Utilities

  // ---------------------------------------------------------------------------
  // np.sort(poes)[::-1]
  // ---------------------------------------------------------------------------

  /** Values never increase along `s`. */
  predicate Descending(s: seq<real>) {
    forall i, j :: 0 <= i < j < |s| ==> s[i] >= s[j]
  }

  /** `x` placed before the first element of `s` it is not smaller than. */
  function Insert(x: real, s: seq<real>): (r: seq<real>)
    ensures |r| == |s| + 1
  {
    if s == [] || x >= s[0] then [x] + s else [s[0]] + Insert(x, s[1..])
  }

  /** The POEs from the largest to the smallest. */
  function SortDescending(xs: seq<real>): (r: seq<real>)
    ensures |r| == |xs|
  {
    if xs == [] then [] else Insert(xs[0], SortDescending(xs[1..]))
  }

  lemma ConsDescending(x: real, t: seq<real>)
    requires Descending(t)
    requires forall i :: 0 <= i < |t| ==> t[i] <= x
    ensures Descending([x] + t)
  {
    var s := [x] + t;
    forall a, b | 0 <= a < b < |s| ensures s[a] >= s[b] {
      assert s[b] == t[b - 1];
      if a > 0 {
        assert s[a] == t[a - 1];
      }
    }
  }

  /** Inserting a value no larger than a bound into values no larger than it keeps the bound. */
  lemma {:induction false} InsertBounded(x: real, s: seq<real>, b: real)
    requires x <= b && forall i :: 0 <= i < |s| ==> s[i] <= b
    ensures forall i :: 0 <= i < |Insert(x, s)| ==> Insert(x, s)[i] <= b
    decreases |s|
  {
    var r := Insert(x, s);
    if s != [] && x < s[0] {
      var t := Insert(x, s[1..]);
      InsertBounded(x, s[1..], b);
      forall i | 0 <= i < |r| ensures r[i] <= b {
        if i > 0 {
          assert r[i] == t[i - 1];
        }
      }
    } else {
      forall i | 0 <= i < |r| ensures r[i] <= b {
        if i > 0 {
          assert r[i] == s[i - 1];
        }
      }
    }
  }

  lemma {:induction false} InsertDescending(x: real, s: seq<real>)
    requires Descending(s)
    ensures Descending(Insert(x, s))
    decreases |s|
  {
    if s == [] || x >= s[0] {
      ConsDescending(x, s);
    } else {
      var t := Insert(x, s[1..]);
      InsertDescending(x, s[1..]);
      InsertBounded(x, s[1..], s[0]);
      ConsDescending(s[0], t);
    }
  }

  lemma {:induction false} InsertMultiset(x: real, s: seq<real>)
    ensures multiset(Insert(x, s)) == multiset{x} + multiset(s)
    decreases |s|
  {
    if s != [] && x < s[0] {
      InsertMultiset(x, s[1..]);
      assert s == [s[0]] + s[1..];
    }
  }

  /** The sorted POEs are decreasing and are the given POEs, counted with multiplicity. */
  lemma {:induction false} SortDescendingSorts(xs: seq<real>)
    ensures Descending(SortDescending(xs))
    ensures multiset(SortDescending(xs)) == multiset(xs)
    decreases |xs|
  {
    if xs != [] {
      SortDescendingSorts(xs[1..]);
      InsertDescending(xs[0], SortDescending(xs[1..]));
      InsertMultiset(xs[0], SortDescending(xs[1..]));
      assert xs == [xs[0]] + xs[1..];
    }
  }

  // ---------------------------------------------------------------------------
  // The records of one POE
  // ---------------------------------------------------------------------------

  /**
   * `records['selected_scaled_best']`: the columns of the intensity measures of interest
   * (`im_idxs['SA']`), the scaled intensities of the selected records, one row per record
   * (`Scaled_IMs`), and the periods of the columns (`IMi['SA']`).
   */
  datatype Selection = Selection(imIdxs: seq<int>, scaledIms: seq<seq<real>>, periods: seq<real>)

  /** Rows of equal length: what `np.asarray` turns into a two-dimensional array. */
  predicate Rectangular(m: seq<seq<real>>) {
    forall i :: 0 <= i < |m| ==> |m[i]| == |m[0]|
  }

  /** A valid numpy index into an axis of length `n`, counting from the end when negative. */
  predicate InAxis(j: int, n: nat) {
    -(n as int) <= j < n
  }

  /** The position a valid index names. */
  function Wrap(j: int, n: nat): (p: nat)
    requires InAxis(j, n)
    ensures p < n
    ensures j >= 0 ==> p == j
  {
    if j < 0 then j + n else j
  }

  /**
   * `np.asarray(m)[:, np.asarray(idxs)]`: every row, restricted to the listed columns in
   * the listed order. A ragged `m` is refused by `np.asarray` (`ValueError`); an empty `m`
   * is one-dimensional, an empty index list is a float array, and an index outside the
   * columns is out of bounds (all three `IndexError`).
   */
  function Columns(m: seq<seq<real>>, idxs: seq<int>): (r: Result<seq<seq<real>>>)
    ensures r.Ok? <==> Rectangular(m) && m != [] && idxs != [] &&
                       forall j :: 0 <= j < |idxs| ==> InAxis(idxs[j], |m[0]|)
    ensures r.Err? ==> r.error == if Rectangular(m) then IndexError else ValueError
  {
    if !Rectangular(m) then Err(ValueError)
    else if m == [] || idxs == [] then Err(IndexError)
    else if exists j :: 0 <= j < |idxs| && !InAxis(idxs[j], |m[0]|) then Err(IndexError)
    else
      Ok(seq(|m|, i requires 0 <= i < |m| =>
        seq(|idxs|, j requires 0 <= j < |idxs| => m[i][Wrap(idxs[j], |m[0]|)])))
  }

  /** The selection keeps every row and, in each, exactly the listed columns in their order. */
  lemma ColumnsShape(m: seq<seq<real>>, idxs: seq<int>)
    requires Columns(m, idxs).Ok?
    ensures var c := Columns(m, idxs).value;
            |c| == |m| &&
            forall i :: 0 <= i < |m| ==> (|c[i]| == |idxs| &&
              forall j :: 0 <= j < |idxs| ==> c[i][j] == m[i][Wrap(idxs[j], |m[0]|)])
  {
  }

  /** `0, 1, ..., n - 1`. */
  function Range(n: nat): (r: seq<int>)
    ensures |r| == n && forall i :: 0 <= i < n ==> r[i] == i
  {
    if n == 0 then [] else Range(n - 1) + [n - 1]
  }

  /** Listing every column in order gives the matrix back. */
  lemma ColumnsAll(m: seq<seq<real>>)
    requires Rectangular(m) && m != [] && |m[0]| > 0
    ensures Columns(m, Range(|m[0]|)) == Ok(m)
  {
    var n := |m[0]|;
    assert forall j :: 0 <= j < n ==> InAxis(Range(n)[j], n);
    var c := Columns(m, Range(n)).value;
    forall i | 0 <= i < |m| ensures c[i] == m[i] {
      forall j | 0 <= j < n ensures c[i][j] == m[i][j] {
        assert Wrap(Range(n)[j], n) == j;
      }
    }
    assert c == m;
  }

  /** An index and the same index counted from the end select the same column. */
  lemma ColumnsFromEnd(m: seq<seq<real>>, idxs: seq<int>, j: nat)
    requires Columns(m, idxs).Ok? && j < |idxs| && idxs[j] >= 0
    ensures Columns(m, idxs[j := idxs[j] - |m[0]|]) == Columns(m, idxs)
  {
    var idxs' := idxs[j := idxs[j] - |m[0]|];
    assert forall k :: 0 <= k < |idxs'| ==> InAxis(idxs'[k], |m[0]|) && Wrap(idxs'[k], |m[0]|) == Wrap(idxs[k], |m[0]|);
    var a, b := Columns(m, idxs').value, Columns(m, idxs).value;
    forall i | 0 <= i < |m| ensures a[i] == b[i] {
      forall k | 0 <= k < |idxs| ensures a[i][k] == b[i][k] {
        assert Wrap(idxs'[k], |m[0]|) == Wrap(idxs[k], |m[0]|);
      }
    }
    assert a == b;
  }

  /**
   * `float(cond_imt.split('(')[1].split(')')[0])`: the text after the first `(` up to the
   * next `(` or `)`, converted by `parse`. Without a `(` there is no second piece
   * (`IndexError`); text that is not a number is refused (`ValueError`).
   */
  function CondPeriod(condImt: string, parse: string -> Option<real>): (r: Result<real>) {
    var parts := Split(condImt, '(');
    if |parts| < 2 then Err(IndexError)
    else
      var p := parse(Split(parts[1], ')')[0]);
      if p.None? then Err(ValueError) else Ok(p.value)
  }

  /** A name without `(` has no period. */
  lemma CondPeriodNoParen(condImt: string, parse: string -> Option<real>)
    requires '(' !in condImt
    ensures CondPeriod(condImt, parse) == Err(IndexError)
  {
  }

  /** For a name `t(p)u`, the period is `p` converted. */
  lemma CondPeriodOf(t: string, p: string, u: string, parse: string -> Option<real>)
    requires '(' !in t && '(' !in p && ')' !in p && '(' !in u
    ensures CondPeriod(t + "(" + p + ")" + u, parse) == if parse(p).None? then Err(ValueError) else Ok(parse(p).value)
  {
    var rest := p + ")" + u;
    assert t + "(" + p + ")" + u == t + ['('] + rest;
    SplitCons(t, rest, '(');
    assert '(' !in rest;
    assert Split(rest, '(') == [rest];
    assert rest == p + [')'] + u;
    SplitCons(p, u, ')');
  }

  /**
   * The state the loop over the POEs builds: `data['rs_imi_intensities']`,
   * `data['rs_imi_periods']` (absent until the first POE) and `im_stars`.
   */
  datatype Progress = Progress(intensities: seq<seq<seq<real>>>, periods: Option<seq<real>>, imStars: seq<real>)

  /** One iteration, on the records of one POE. */
  function PoeStep(s: Progress, sel: Selection, condImt: string, parse: string -> Option<real>): (r: Result<Progress>) {
    var scaled := Columns(sel.scaledIms, sel.imIdxs);
    if scaled.Err? then Err(scaled.error)
    else
      var period := CondPeriod(condImt, parse);
      if period.Err? then Err(period.error)
      else
        var idx := Find(sel.periods, period.value);
        if idx < 0 then Err(ValueError)
        else if idx >= |sel.scaledIms[0]| then Err(IndexError)
        else Ok(Progress(s.intensities + [scaled.value],
                         if s.periods.None? then Some(sel.periods) else s.periods,
                         s.imStars + [sel.scaledIms[0][idx]]))
  }

  /** The records of the conditioning period must list it: otherwise `list.index` raises. */
  lemma PeriodMissing(s: Progress, sel: Selection, condImt: string, parse: string -> Option<real>)
    requires Columns(sel.scaledIms, sel.imIdxs).Ok? && CondPeriod(condImt, parse).Ok?
    ensures PoeStep(s, sel, condImt, parse).Err? || CondPeriod(condImt, parse).value in sel.periods
    ensures CondPeriod(condImt, parse).value !in sel.periods ==> PoeStep(s, sel, condImt, parse) == Err(ValueError)
  {
  }

  /** The iterations over `poes` in the given order, ending at the first error. */
  function RecordsFrom(s: Progress, poes: seq<real>, records: Dict<real, Selection>, condImt: string,
                       parse: string -> Option<real>): (r: Result<Progress>)
    decreases |poes|
  {
    if poes == [] then Ok(s)
    else
      var sel := Get(records, poes[0]);
      if sel.None? then Err(OSError)
      else
        var next := PoeStep(s, sel.value, condImt, parse);
        if next.Err? then next else RecordsFrom(next.value, poes[1..], records, condImt, parse)
  }

  /** The records of every POE were there and their columns could be selected. */
  predicate Readable(records: Dict<real, Selection>, poe: real) {
    HasKey(records, poe) && Columns(Get(records, poe).value.scaledIms, Get(records, poe).value.imIdxs).Ok?
  }

  /** The columns selected for the POE. */
  function ScaledOf(records: Dict<real, Selection>, poe: real): (r: seq<seq<real>>)
    requires Readable(records, poe)
  {
    var sel := Get(records, poe).value;
    Columns(sel.scaledIms, sel.imIdxs).value
  }

  /**
   * After the loop, `rs_imi_intensities` has gained exactly one matrix per POE, in the
   * order of the POEs, each that POE's selected columns.
   */
  lemma {:induction false} RecordsFromIntensities(s: Progress, poes: seq<real>, records: Dict<real, Selection>,
                                                  condImt: string, parse: string -> Option<real>)
    ensures var r := RecordsFrom(s, poes, records, condImt, parse);
            r.Ok? ==> |r.value.intensities| == |s.intensities| + |poes| &&
                      r.value.intensities[..|s.intensities|] == s.intensities &&
                      forall i :: 0 <= i < |poes| ==> (Readable(records, poes[i]) &&
                        r.value.intensities[|s.intensities| + i] == ScaledOf(records, poes[i]))
    decreases |poes|
  {
    var r := RecordsFrom(s, poes, records, condImt, parse);
    if poes != [] && r.Ok? {
      var sel := Get(records, poes[0]).value;
      var next := PoeStep(s, sel, condImt, parse).value;
      assert next.intensities == s.intensities + [ScaledOf(records, poes[0])];
      RecordsFromIntensities(next, poes[1..], records, condImt, parse);
      assert r.value.intensities[..|s.intensities|] == r.value.intensities[..|next.intensities|][..|s.intensities|];
      forall i | 0 <= i < |poes|
        ensures Readable(records, poes[i]) && r.value.intensities[|s.intensities| + i] == ScaledOf(records, poes[i])
      {
        if i > 0 {
          assert poes[i] == poes[1..][i - 1];
        } else {
          assert r.value.intensities[|s.intensities|] == r.value.intensities[..|next.intensities|][|s.intensities|];
        }
      }
    }
  }

  /** `rs_imi_periods` is set by the first POE and never changed afterwards. */
  lemma {:induction false} RecordsFromPeriods(s: Progress, poes: seq<real>, records: Dict<real, Selection>,
                                              condImt: string, parse: string -> Option<real>)
    ensures var r := RecordsFrom(s, poes, records, condImt, parse);
            r.Ok? ==> r.value.periods == if s.periods.Some? || poes == [] then s.periods
                                         else Some(Get(records, poes[0]).value.periods)
    decreases |poes|
  {
    if poes != [] {
      var sel := Get(records, poes[0]);
      if sel.Some? {
        var next := PoeStep(s, sel.value, condImt, parse);
        if next.Ok? {
          RecordsFromPeriods(next.value, poes[1..], records, condImt, parse);
        }
      }
    }
  }

  /** The loop over the POEs, in the order given. */
  method CollectRecords(poes: seq<real>, records: Dict<real, Selection>, condImt: string, parse: string -> Option<real>)
    returns (r: Result<Progress>)
    ensures r == RecordsFrom(Progress([], None, []), poes, records, condImt, parse)
  {
    var intensities: seq<seq<seq<real>>> := [];
    var periods: Option<seq<real>> := None;
    var imStars: seq<real> := [];
    for k := 0 to |poes|
      invariant RecordsFrom(Progress(intensities, periods, imStars), poes[k..], records, condImt, parse) ==
                RecordsFrom(Progress([], None, []), poes, records, condImt, parse)
    {
      assert poes[k..][1..] == poes[k + 1..];
      var sel := Get(records, poes[k]);
      if sel.None? {
        return Err(OSError);
      }
      var scaled := Columns(sel.value.scaledIms, sel.value.imIdxs);
      if scaled.Err? {
        return Err(scaled.error);
      }
      var period := CondPeriod(condImt, parse);
      if period.Err? {
        return Err(period.error);
      }
      var idx := Find(sel.value.periods, period.value);
      if idx < 0 {
        return Err(ValueError);
      }
      if idx >= |sel.value.scaledIms[0]| {
        return Err(IndexError);
      }
      imStars := imStars + [sel.value.scaledIms[0][idx]];
      if periods.None? {
        periods := Some(sel.value.periods);
      }
      intensities := intensities + [scaled.value];
    }
    return Ok(Progress(intensities, periods, imStars));
  }

  // ---------------------------------------------------------------------------
  // The hazard curves
  // ---------------------------------------------------------------------------

  /**
   * `str(period)` for the period `get_period_im` finds in a curve key: `"None"` without
   * one, otherwise `floatStr` of its text (the text of `float(text)`).
   */
  function PeriodKey(key: string, floatStr: string -> string): (r: string) {
    var period := GetPeriodIm(key).1;
    if period.None? then "None" else floatStr(period.value)
  }

  /** The key a curve is stored under. */
  function KeyOf(floatStr: string -> string): (r: string -> string) {
    (key: string) => PeriodKey(key, floatStr)
  }

  /** One curve: its new key, `curves[key]['iml']` and `curves[key]['poe']`. */
  function CurveOf(curves: Json, rekey: string -> string): (r: string -> Result<(string, Value, Value)>) {
    (key: string) =>
      var curve := Get(curves, key);
      if curve.None? then Err(KeyError)
      else
        var iml := Field(curve.value, "iml");
        if iml.Err? then Err(iml.error)
        else
          var poe := Field(curve.value, "poe");
          if poe.Err? then Err(poe.error)
          else Ok((rekey(key), iml.value, poe.value))
  }

  /** The period keys with the intensity levels. */
  function ImlPairs(cs: seq<(string, Value, Value)>): (r: seq<(string, Value)>)
    ensures |r| == |cs| && forall i :: 0 <= i < |cs| ==> r[i] == (cs[i].0, cs[i].1)
  {
    seq(|cs|, i requires 0 <= i < |cs| => (cs[i].0, cs[i].1))
  }

  /** The period keys with the probabilities of exceedance. */
  function PoePairs(cs: seq<(string, Value, Value)>): (r: seq<(string, Value)>)
    ensures |r| == |cs| && forall i :: 0 <= i < |cs| ==> r[i] == (cs[i].0, cs[i].2)
  {
    seq(|cs|, i requires 0 <= i < |cs| => (cs[i].0, cs[i].2))
  }

  /** The curves loop: every curve key in order, its values stored under its new key. */
  function CurveDicts(curves: Json, rekey: string -> string): (r: Result<(Json, Json)>) {
    var cs := MapResult(Keys(curves), CurveOf(curves, rekey));
    if cs.Err? then Err(cs.error) else Ok((FromPairs(ImlPairs(cs.value)), FromPairs(PoePairs(cs.value))))
  }

  /** One more curve is one more `Put` into each dictionary. */
  lemma CurvePairsSnoc(done: seq<(string, Value, Value)>, c: (string, Value, Value))
    ensures FromPairs(ImlPairs(done + [c])) == Put(FromPairs(ImlPairs(done)), c.0, c.1)
    ensures FromPairs(PoePairs(done + [c])) == Put(FromPairs(PoePairs(done)), c.0, c.2)
  {
    assert ImlPairs(done + [c]) == ImlPairs(done) + [(c.0, c.1)];
    assert PoePairs(done + [c]) == PoePairs(done) + [(c.0, c.2)];
    FromPairsSnoc(ImlPairs(done), c.0, c.1);
    FromPairsSnoc(PoePairs(done), c.0, c.2);
  }

  lemma ConcatAssoc<T>(a: seq<T>, b: seq<T>, c: seq<T>)
    ensures a + (b + c) == (a + b) + c
  {
  }

  /** The loop filling `psha_imi_intensities` and `psha_imi_poes`. */
  method FillCurves(curves: Json, rekey: string -> string) returns (r: Result<(Json, Json)>)
    ensures r == CurveDicts(curves, rekey)
  {
    var keys := Keys(curves);
    var g := CurveOf(curves, rekey);
    var intensities: Json := [];
    var poes: Json := [];
    ghost var done: seq<(string, Value, Value)> := [];
    assert keys[0..] == keys;
    ghost var all := MapResult(keys, g);
    if all.Ok? {
      assert done + all.value == all.value;
    }
    for i := 0 to |keys|
      invariant var rest := MapResult(keys[i..], g);
                MapResult(keys, g) == if rest.Err? then rest else Ok(done + rest.value)
      invariant intensities == FromPairs(ImlPairs(done)) && poes == FromPairs(PoePairs(done))
    {
      assert keys[i..][1..] == keys[i + 1..];
      var curve := Get(curves, keys[i]);
      if curve.None? {
        return Err(KeyError);
      }
      var iml := Field(curve.value, "iml");
      if iml.Err? {
        return Err(iml.error);
      }
      var period := rekey(keys[i]);
      intensities := Put(intensities, period, iml.value);
      var poe := Field(curve.value, "poe");
      if poe.Err? {
        return Err(poe.error);
      }
      poes := Put(poes, period, poe.value);
      ghost var c := (period, iml.value, poe.value);
      assert g(keys[i]) == Ok(c);
      CurvePairsSnoc(done, c);
      ghost var rest := MapResult(keys[i + 1..], g);
      if rest.Ok? {
        ConcatAssoc(done, [c], rest.value);
      }
      done := done + [c];
    }
    assert keys[|keys|..] == [];
    assert done + [] == done;
    return Ok((intensities, poes));
  }

  /** A curve that can be read is stored with its new key and its own two fields. */
  lemma CurveOfFields(curves: Json, rekey: string -> string, key: string)
    requires CurveOf(curves, rekey)(key).Ok?
    ensures var c := CurveOf(curves, rekey)(key).value;
            var curve := Get(curves, key).value;
            c.0 == rekey(key) && curve.VDict? && HasKey(curve.entries, "iml") && HasKey(curve.entries, "poe") &&
            Some(c.1) == Get(curve.entries, "iml") && Some(c.2) == Get(curve.entries, "poe")
  {
  }

  /** When the curves loop succeeds, it has read every curve, in order. */
  lemma CurvesRead(curves: Json, rekey: string -> string)
    requires CurveDicts(curves, rekey).Ok?
    ensures var cs := MapResult(Keys(curves), CurveOf(curves, rekey));
            cs.Ok? && |cs.value| == |curves| &&
            forall j :: 0 <= j < |curves| ==> CurveOf(curves, rekey)(curves[j].0) == Ok(cs.value[j])
  {
    MapResultOk(Keys(curves), CurveOf(curves, rekey));
  }

  /**
   * The two curve dictionaries have the same keys, and each key is the new key of some
   * curve.
   */
  lemma CurveDictsKeys(curves: Json, rekey: string -> string, k: string)
    requires CurveDicts(curves, rekey).Ok?
    ensures var (ims, ps) := CurveDicts(curves, rekey).value;
            Keys(ims) == Keys(ps) &&
            (HasKey(ims, k) <==> exists i :: 0 <= i < |curves| && rekey(curves[i].0) == k)
  {
    CurvesRead(curves, rekey);
    var cs := MapResult(Keys(curves), CurveOf(curves, rekey)).value;
    var ims := ImlPairs(cs);
    forall i | 0 <= i < |curves| ensures ims[i].0 == rekey(curves[i].0) {
      CurveOfFields(curves, rekey, curves[i].0);
    }
    FromPairsSameKeys(ims, PoePairs(cs));
    FromPairsHasKey(ims, k);
  }

  /** Of the curves whose new keys collide, the later one is kept. */
  lemma CurveDictsLastWins(curves: Json, rekey: string -> string, i: nat)
    requires CurveDicts(curves, rekey).Ok? && i < |curves|
    requires forall j :: i < j < |curves| ==> rekey(curves[j].0) != rekey(curves[i].0)
    ensures var (ims, ps) := CurveDicts(curves, rekey).value;
            var curve := Get(curves, curves[i].0).value;
            curve.VDict? && HasKey(curve.entries, "iml") && HasKey(curve.entries, "poe") &&
            Get(ims, rekey(curves[i].0)) == Get(curve.entries, "iml") &&
            Get(ps, rekey(curves[i].0)) == Get(curve.entries, "poe")
  {
    CurvesRead(curves, rekey);
    var cs := MapResult(Keys(curves), CurveOf(curves, rekey)).value;
    forall j | 0 <= j < |curves| ensures cs[j].0 == rekey(curves[j].0) {
      CurveOfFields(curves, rekey, curves[j].0);
    }
    CurveOfFields(curves, rekey, curves[i].0);
    FromPairsLastWins(ImlPairs(cs), i);
    FromPairsLastWins(PoePairs(cs), i);
  }

  // ---------------------------------------------------------------------------
  // prepare_input_for_hzc
  // ---------------------------------------------------------------------------

  /** The dictionary the function returns, one field per key. */
  datatype HzcInput = HzcInput(
    rsImiIntensities: seq<seq<seq<real>>>,
    rsImiPeriods: Option<seq<real>>,  // absent when there is no POE
    pshaImstarIntensities: Value,
    pshaImstarPoes: Value,
    investigationTime: Value,
    pshaImiIntensities: Json,
    pshaImiPoes: Json)

  /** `prepare_input_for_hzc`, raising the first exception it meets. */
  function Prepare(psha: Json, poes: seq<real>, condImt: string, records: Dict<real, Selection>,
                   parse: string -> Option<real>, floatStr: string -> string): (r: Result<HzcInput>)
  {
    var loop := RecordsFrom(Progress([], None, []), SortDescending(poes), records, condImt, parse);
    if loop.Err? then Err(loop.error)
    else
      var condImls := Get(psha, "cond_imls");
      if condImls.None? then Err(KeyError)
      else
        var imstar := Field(condImls.value, condImt);
        if imstar.Err? then Err(imstar.error)
        else
          var condPoes := Get(psha, "cond_poes");
          if condPoes.None? then Err(KeyError)
          else
            var time := Get(psha, "investigation_time");
            if time.None? then Err(KeyError)
            else
              var curves := Get(psha, "hazard_curves");
              if curves.None? then Err(KeyError)
              else if !curves.value.VDict? then Err(AttributeError)
              else
                var dicts := CurveDicts(curves.value.entries, KeyOf(floatStr));
                if dicts.Err? then Err(dicts.error)
                else
                  Ok(HzcInput(loop.value.intensities, loop.value.periods, imstar.value, condPoes.value,
                              time.value, dicts.value.0, dicts.value.1))
  }

  /** `prepare_input_for_hzc`. */
  method PrepareInputForHzc(psha: Json, poes: seq<real>, condImt: string, records: Dict<real, Selection>,
                            parse: string -> Option<real>, floatStr: string -> string)
    returns (r: Result<HzcInput>)
    ensures r == Prepare(psha, poes, condImt, records, parse, floatStr)
  {
    var sorted := SortDescending(poes);
    var loop := CollectRecords(sorted, records, condImt, parse);
    if loop.Err? {
      return Err(loop.error);
    }
    var condImls := Get(psha, "cond_imls");
    if condImls.None? {
      return Err(KeyError);
    }
    var imstar := Field(condImls.value, condImt);
    if imstar.Err? {
      return Err(imstar.error);
    }
    var condPoes := Get(psha, "cond_poes");
    if condPoes.None? {
      return Err(KeyError);
    }
    var time := Get(psha, "investigation_time");
    if time.None? {
      return Err(KeyError);
    }
    var curves := Get(psha, "hazard_curves");
    if curves.None? {
      return Err(KeyError);
    }
    if !curves.value.VDict? {
      return Err(AttributeError);
    }
    var dicts := FillCurves(curves.value.entries, KeyOf(floatStr));
    if dicts.Err? {
      return Err(dicts.error);
    }
    return Ok(HzcInput(loop.value.intensities, loop.value.periods, imstar.value, condPoes.value,
                       time.value, dicts.value.0, dicts.value.1));
  }

  /**
   * The result holds one intensity matrix per POE, for the POEs from the largest to the
   * smallest, each those records' selected columns; the periods are those of the records
   * of the largest POE.
   */
  lemma PrepareIntensities(psha: Json, poes: seq<real>, condImt: string, records: Dict<real, Selection>,
                           parse: string -> Option<real>, floatStr: string -> string)
    ensures var r := Prepare(psha, poes, condImt, records, parse, floatStr);
            var sorted := SortDescending(poes);
            r.Ok? ==> Descending(sorted) && multiset(sorted) == multiset(poes) &&
                      |r.value.rsImiIntensities| == |poes| &&
                      (forall i :: 0 <= i < |poes| ==> (Readable(records, sorted[i]) &&
                         r.value.rsImiIntensities[i] == ScaledOf(records, sorted[i]))) &&
                      r.value.rsImiPeriods == if poes == [] then None else Some(Get(records, sorted[0]).value.periods)
  {
    var sorted := SortDescending(poes);
    SortDescendingSorts(poes);
    RecordsFromIntensities(Progress([], None, []), sorted, records, condImt, parse);
    RecordsFromPeriods(Progress([], None, []), sorted, records, condImt, parse);
  }
}
