/**
 * The string and dictionary steps of `get_context_from_dstore` in `djura/hazard/dstore.py`:
 * decoding the serialized GSIM blobs, renaming the `AvgSA` IM label, checking the
 * reference IM, and re-keying `GmpeIndirectAvgSA` models.
 */
module Dstore {
  import opened Outcomes
  import opened Text
  import opened Dicts
  import opened Values

  // ---------------------------------------------------------------------------
  // _get_gsim_parameters
  // ---------------------------------------------------------------------------

  /** One decoded blob `{name: parameters}`: a dictionary with a single key. */
  datatype GsimEntry = GsimEntry(name: string, parameters: Dict<string, string>)

  /** A blob the decoder keeps: it contains both `[` and `]`. */
  predicate Accepted(s: string) {
    '[' in s && ']' in s
  }

  /** The name of a blob: the text between its first `[` and its first `]`. */
  function ItemName(s: string): (r: string)
    requires Accepted(s)
  {
    Slice(s, Find(s, '[') + 1, Find(s, ']'))
  }

  /** The body of a blob: everything after its first `]`, stripped. */
  function ItemContent(s: string): (r: string)
    requires Accepted(s)
  {
    Strip(s[Find(s, ']') + 1..])
  }

  /**
   * The field of a `k = v` line: the line splits at its first `=`, the key is stripped,
   * the value is stripped and then loses its surrounding `"` characters.
   */
  function ParseLine(line: string): (string, string)
    requires '=' in line
  {
    var parts := SplitFirst(line, '=');
    (Strip(parts.0), StripChar(Strip(parts.1), '"'))
  }

  /** The fields of the lines that contain `=`, in order; other lines give nothing. */
  function LineFields(lines: seq<string>): (r: seq<(string, string)>)
    decreases |lines|
  {
    if lines == [] then []
    else
      var l := lines[|lines| - 1];
      LineFields(lines[..|lines| - 1]) + (if '=' in l then [ParseLine(l)] else [])
  }

  /** The parameter dictionary of a blob body's lines: `values[k] = v` field by field. */
  function ParseFields(lines: seq<string>): (r: Dict<string, string>) {
    FromPairs(LineFields(lines))
  }

  /** One decoded blob, or `None` when the decoder skips it. */
  function ParseItem(s: string): (r: Option<GsimEntry>) {
    if Accepted(s) then Some(GsimEntry(ItemName(s), ParseFields(Split(ItemContent(s), '\n'))))
    else None
  }

  /** The list the decoder returns for a sequence of blobs. */
  function GsimParameters(items: seq<string>): (r: seq<GsimEntry>)
    decreases |items|
  {
    if items == [] then []
    else
      var s := items[|items| - 1];
      GsimParameters(items[..|items| - 1]) + (if Accepted(s) then [ParseItem(s).value] else [])
  }

  /**
   * `_get_gsim_parameters(dstore_gsims)` on the blobs already decoded from UTF-8. The
   * source also tries `float(v)` on each value; values are kept as text here.
   */
  method GetGsimParameters(items: seq<string>) returns (all: seq<GsimEntry>)
    ensures all == GsimParameters(items)
  {
    all := [];
    for n := 0 to |items|
      invariant all == GsimParameters(items[..n])
    {
      var decoded := items[n];
      GsimParametersSnoc(items, n);
      if '[' in decoded && ']' in decoded {
        var key := Slice(decoded, Find(decoded, '[') + 1, Find(decoded, ']'));
        var content := Strip(decoded[Find(decoded, ']') + 1..]);
        var values := ParseLines(Split(content, '\n'));
        assert GsimEntry(key, values) == ParseItem(decoded).value;
        all := all + [GsimEntry(key, values)];
      } else {
        assert all + [] == all;
      }
    }
    assert items[..|items|] == items;
  }

  /** The inner loop of `_get_gsim_parameters`: `values[k] = v` for each `k = v` line. */
  method ParseLines(lines: seq<string>) returns (values: Dict<string, string>)
    ensures values == ParseFields(lines)
  {
    values := [];
    for m := 0 to |lines|
      invariant values == ParseFields(lines[..m])
    {
      var line := lines[m];
      LineFieldsSnoc(lines, m);
      if '=' in line {
        var parts := SplitFirst(line, '=');
        var k := Strip(parts.0);
        var v := StripChar(Strip(parts.1), '"');
        FromPairsSnoc(LineFields(lines[..m]), k, v);
        values := Put(values, k, v);
      } else {
        assert LineFields(lines[..m]) + [] == LineFields(lines[..m]);
      }
    }
    assert lines[..|lines|] == lines;
  }

  /** The entries of one more blob. */
  lemma GsimParametersSnoc(items: seq<string>, n: nat)
    requires n < |items|
    ensures GsimParameters(items[..n + 1])
         == GsimParameters(items[..n]) + (if Accepted(items[n]) then [ParseItem(items[n]).value] else [])
  {
    assert items[..n + 1][..n] == items[..n];
  }

  /** The fields of a single line. */
  lemma LineFieldsOne(l: string)
    requires '=' in l
    ensures LineFields([l]) == [ParseLine(l)]
  {
    assert [l][..0] == [];
  }

  /** The fields of one more line. */
  lemma LineFieldsSnoc(lines: seq<string>, m: nat)
    requires m < |lines|
    ensures LineFields(lines[..m + 1])
         == LineFields(lines[..m]) + (if '=' in lines[m] then [ParseLine(lines[m])] else [])
  {
    assert lines[..m + 1][..m] == lines[..m];
  }

  /** Decoding a concatenation decodes each part. */
  lemma {:induction false} GsimParametersAppend(a: seq<string>, b: seq<string>)
    ensures GsimParameters(a + b) == GsimParameters(a) + GsimParameters(b)
    decreases |b|
  {
    if b == [] {
      assert a + b == a;
    } else {
      var b' := b[..|b| - 1];
      assert (a + b)[..|a + b| - 1] == a + b';
      assert (a + b)[|a + b| - 1] == b[|b| - 1];
      GsimParametersAppend(a, b');
    }
  }

  /** A blob without both `[` and `]` contributes nothing. */
  lemma RejectedItemIgnored(a: seq<string>, s: string, b: seq<string>)
    requires !Accepted(s)
    ensures GsimParameters(a + [s] + b) == GsimParameters(a + b)
  {
    GsimParametersAppend(a + [s], b);
    GsimParametersAppend(a, [s]);
    GsimParametersAppend(a, b);
    assert [s][..0] == [];
  }

  /** A blob with both `[` and `]` contributes one entry, at its own place in the output. */
  lemma AcceptedItemKept(a: seq<string>, s: string, b: seq<string>)
    requires Accepted(s)
    ensures GsimParameters(a + [s] + b)
         == GsimParameters(a) + [GsimEntry(ItemName(s), ParseFields(Split(ItemContent(s), '\n')))]
            + GsimParameters(b)
  {
    GsimParametersAppend(a + [s], b);
    GsimParametersAppend(a, [s]);
    assert [s][..0] == [];
  }

  /**
   * The key of an entry is the text between the first `[` and the first `]` of its blob,
   * and its body is what follows that `]`.
   */
  lemma ItemNameBetweenBrackets(pre: string, name: string, rest: string)
    requires '[' !in pre && ']' !in pre && ']' !in name
    ensures ParseItem(pre + ['['] + name + [']'] + rest)
         == Some(GsimEntry(name, ParseFields(Split(Strip(rest), '\n'))))
  {
    var s := pre + ['['] + name + [']'] + rest;
    var open := |pre|;
    var close := |pre| + 1 + |name|;
    assert s[open] == '[' && s[..open] == pre;
    FindIndex(s, open, '[');
    assert s[close] == ']' && s[..close] == pre + ['['] + name;
    FindIndex(s, close, ']');
    assert s[open + 1..close] == name;
    assert s[close + 1..] == rest;
  }

  /** When the first `]` comes before the first `[`, the key is empty (an empty slice). */
  lemma ItemNameEmptyWhenClosedFirst(s: string)
    requires Accepted(s) && Find(s, ']') < Find(s, '[')
    ensures ParseItem(s).value.name == ""
  {
  }

  /** Splitting a line at its first `=`: the value keeps any later `=`. */
  lemma ParseLineFirstEquals(k: string, v: string)
    requires '=' !in k
    ensures '=' in k + ['='] + v && ParseLine(k + ['='] + v) == (Strip(k), StripChar(Strip(v), '"'))
  {
    SplitFirstAt(k, v, '=');
  }

  /** Fields of concatenated line lists. */
  lemma {:induction false} LineFieldsAppend(a: seq<string>, b: seq<string>)
    ensures LineFields(a + b) == LineFields(a) + LineFields(b)
    decreases |b|
  {
    if b == [] {
      assert a + b == a;
    } else {
      var b' := b[..|b| - 1];
      assert (a + b)[..|a + b| - 1] == a + b';
      assert (a + b)[|a + b| - 1] == b[|b| - 1];
      LineFieldsAppend(a, b');
    }
  }

  /** Every field comes from a line of the list that contains `=`. */
  lemma {:induction false} LineFieldsFrom(lines: seq<string>, j: nat)
    requires j < |LineFields(lines)|
    ensures exists i :: 0 <= i < |lines| && '=' in lines[i] && ParseLine(lines[i]) == LineFields(lines)[j]
    decreases |lines|
  {
    var init := lines[..|lines| - 1];
    var l := lines[|lines| - 1];
    if j < |LineFields(init)| {
      LineFieldsFrom(init, j);
      var i :| 0 <= i < |init| && '=' in init[i] && ParseLine(init[i]) == LineFields(init)[j];
      assert lines[i] == init[i];
    } else {
      assert '=' in l && ParseLine(l) == LineFields(lines)[j];
    }
  }

  /**
   * When a field name repeats within one blob, the last line with that name wins: a
   * line `l` holding `=`, followed only by lines that do not redefine its key.
   */
  lemma ParseFieldsLastWins(a: seq<string>, l: string, b: seq<string>)
    requires '=' in l
    requires forall i :: 0 <= i < |b| && '=' in b[i] ==> ParseLine(b[i]).0 != ParseLine(l).0
    ensures Get(ParseFields(a + [l] + b), ParseLine(l).0) == Some(ParseLine(l).1)
  {
    LineFieldsAppend(a + [l], b);
    LineFieldsAppend(a, [l]);
    assert [l][..0] == [];
    var ps := LineFields(a + [l] + b);
    var n := |LineFields(a)|;
    assert ps == LineFields(a) + [ParseLine(l)] + LineFields(b);
    forall j | n < j < |ps| ensures ps[j].0 != ps[n].0 {
      LineFieldsFrom(b, j - n - 1);
    }
    FromPairsLastWins(ps, n);
  }

  // ---------------------------------------------------------------------------
  // The `[Name]\nk = "v"` format of a serialized GSIM, and the decoder's round trip
  // ---------------------------------------------------------------------------

  /** A value between double quotes. */
  function Quoted(v: string): (r: string) {
    ['"'] + v + ['"']
  }

  /** One field written as a line `k = "v"`. */
  function FieldLine(f: (string, string)): (r: string) {
    (f.0 + [' ']) + ['='] + ([' '] + Quoted(f.1))
  }

  /** The field lines, each preceded by a line break. */
  function FieldLines(fs: seq<(string, string)>): (r: string)
    decreases |fs|
  {
    if fs == [] then "" else ['\n'] + FieldLine(fs[0]) + FieldLines(fs[1..])
  }

  /** A serialized GSIM: the bracketed name, then one line per field. */
  function GsimBlob(name: string, fs: seq<(string, string)>): (r: string) {
    ['['] + name + [']'] + FieldLines(fs)
  }

  /**
   * A field the format can carry: a non-empty key without `=` or line break and without
   * surrounding whitespace, and a value without line break that neither starts nor ends
   * with `"`.
   */
  predicate WellFormedField(f: (string, string)) {
    && f.0 != [] && '=' !in f.0 && '\n' !in f.0 && !IsSpace(f.0[0]) && !IsSpace(f.0[|f.0| - 1])
    && '\n' !in f.1 && (f.1 == [] || (f.1[0] != '"' && f.1[|f.1| - 1] != '"'))
  }

  /** The lines of the fields joined by line breaks. */
  function JoinLines(fs: seq<(string, string)>): (r: string)
    requires fs != []
    decreases |fs|
  {
    if |fs| == 1 then FieldLine(fs[0])
    else FieldLine(fs[0]) + ['\n'] + JoinLines(fs[1..])
  }

  /** The joined lines start with the first key and end with a closing quote. */
  lemma {:induction false} JoinLinesEnds(fs: seq<(string, string)>)
    requires fs != [] && fs[0].0 != []
    ensures var s := JoinLines(fs); s != [] && s[0] == fs[0].0[0] && s[|s| - 1] == '"'
    decreases |fs|
  {
    if |fs| > 1 {
      JoinLinesEnds2(fs[1..]);
    }
  }

  lemma {:induction false} JoinLinesEnds2(fs: seq<(string, string)>)
    requires fs != []
    ensures var s := JoinLines(fs); s != [] && s[|s| - 1] == '"'
    decreases |fs|
  {
    if |fs| > 1 {
      JoinLinesEnds2(fs[1..]);
    }
  }

  lemma {:induction false} FieldLinesJoin(fs: seq<(string, string)>)
    requires fs != []
    ensures FieldLines(fs) == ['\n'] + JoinLines(fs)
    decreases |fs|
  {
    if |fs| > 1 {
      FieldLinesJoin(fs[1..]);
    } else {
      assert fs[1..] == [];
    }
  }

  /** The line of each field, in order. */
  function FieldLineSeq(fs: seq<(string, string)>): (r: seq<string>)
    decreases |fs|
  {
    if fs == [] then [] else [FieldLine(fs[0])] + FieldLineSeq(fs[1..])
  }

  lemma NoBreakInFieldLine(f: (string, string))
    requires WellFormedField(f)
    ensures '\n' !in FieldLine(f)
  {
  }

  lemma {:induction false} SplitJoin(fs: seq<(string, string)>)
    requires fs != [] && forall i :: 0 <= i < |fs| ==> WellFormedField(fs[i])
    ensures Split(JoinLines(fs), '\n') == FieldLineSeq(fs)
    decreases |fs|
  {
    var l := FieldLine(fs[0]);
    NoBreakInFieldLine(fs[0]);
    if |fs| == 1 {
      assert Find(l, '\n') == -1;
    } else {
      SplitCons(l, JoinLines(fs[1..]), '\n');
      SplitJoin(fs[1..]);
    }
  }

  /** A well-formed field line parses back to its field. */
  lemma ParseFieldLine(f: (string, string))
    requires WellFormedField(f)
    ensures '=' in FieldLine(f) && ParseLine(FieldLine(f)) == f
  {
    var (k, v) := f;
    assert '=' !in k + [' '];
    ParseLineFirstEquals(k + [' '], [' '] + Quoted(v));
    StripTrailing(k, [' ']);
    ParseQuotedValue(v);
  }

  /** The value part ` "v"` of a field line gives back `v`. */
  lemma ParseQuotedValue(v: string)
    requires v == [] || (v[0] != '"' && v[|v| - 1] != '"')
    ensures StripChar(Strip([' '] + Quoted(v)), '"') == v
  {
    var q := Quoted(v);
    assert q[0] == '"' && q[|q| - 1] == '"' && !IsSpace('"');
    StripLeading([' '], q);
    StripQuotes(v, '"');
  }

  lemma {:induction false} ParseFieldLines(fs: seq<(string, string)>)
    requires forall i :: 0 <= i < |fs| ==> WellFormedField(fs[i])
    ensures LineFields(FieldLineSeq(fs)) == fs
    decreases |fs|
  {
    if fs != [] {
      var l, rest := FieldLine(fs[0]), FieldLineSeq(fs[1..]);
      ParseFieldLine(fs[0]);
      LineFieldsOne(l);
      ParseFieldLines(fs[1..]);
      LineFieldsAppend([l], rest);
      assert [fs[0]] + fs[1..] == fs;
    }
  }

  /**
   * Round trip: decoding a serialized GSIM gives back its name and its fields, the
   * later of two equal keys winning (`dict(fields)`).
   */
  lemma GsimBlobRoundTrip(name: string, fs: seq<(string, string)>)
    requires ']' !in name
    requires forall i :: 0 <= i < |fs| ==> WellFormedField(fs[i])
    ensures ParseItem(GsimBlob(name, fs)) == Some(GsimEntry(name, FromPairs(fs)))
  {
    assert [] + ['['] == ['['];
    ItemNameBetweenBrackets([], name, FieldLines(fs));
    BodyRoundTrip(fs);
  }

  /** Stripping the body drops the line break before the first field. */
  lemma StripFieldLines(fs: seq<(string, string)>)
    requires fs != [] && WellFormedField(fs[0])
    ensures Strip(FieldLines(fs)) == JoinLines(fs)
  {
    FieldLinesJoin(fs);
    JoinLinesEnds(fs);
    StripLeading(['\n'], JoinLines(fs));
  }

  /** The body of a serialized GSIM decodes to `dict(fields)`. */
  lemma BodyRoundTrip(fs: seq<(string, string)>)
    requires forall i :: 0 <= i < |fs| ==> WellFormedField(fs[i])
    ensures ParseFields(Split(Strip(FieldLines(fs)), '\n')) == FromPairs(fs)
  {
    if fs == [] {
      assert Split("", '\n') == [""];
      assert LineFields([""]) == [];
    } else {
      StripFieldLines(fs);
      SplitJoin(fs);
      ParseFieldLines(fs);
    }
  }

  /** With distinct keys the decoded parameters are the fields themselves, in order. */
  lemma GsimBlobRoundTripDistinct(name: string, fs: seq<(string, string)>)
    requires ']' !in name && DistinctKeys(fs)
    requires forall i :: 0 <= i < |fs| ==> WellFormedField(fs[i])
    ensures ParseItem(GsimBlob(name, fs)) == Some(GsimEntry(name, fs))
  {
    GsimBlobRoundTrip(name, fs);
    FromPairsDistinct(fs);
  }

  // ---------------------------------------------------------------------------
  // _convert_avgsa_to_sa_avg and _replace_dict_keys
  // ---------------------------------------------------------------------------

  /** The IM label OpenQuake writes for average spectral acceleration. */
  const AvgSa: string := "AvgSA"

  /** The label the record selector uses for it. */
  const SaAvg: string := "Sa_avg"

  /** `_convert_avgsa_to_sa_avg(s)`: `None` stays `None`, a string has each `AvgSA` renamed. */
  function ConvertAvgSaToSaAvg(s: Option<string>): (r: Option<string>)
    ensures r.None? <==> s.None?
  {
    if s.None? then None else Some(Replace(s.value, AvgSa, SaAvg))
  }

  /** A name without `AvgSA` is returned unchanged. */
  lemma ConvertWithoutAvgSa(s: string)
    requires !Contains(s, AvgSa)
    ensures ConvertAvgSaToSaAvg(Some(s)) == Some(s)
  {
    ReplaceAbsent(s, AvgSa, SaAvg);
  }

  /** The label itself becomes `Sa_avg`. */
  lemma ConvertAvgSaLabel()
    ensures ConvertAvgSaToSaAvg(Some(AvgSa)) == Some(SaAvg)
  {
    ReplaceWhole(AvgSa, SaAvg);
  }

  /** One entry of the dictionary with its key renamed. */
  function RenamePair<V>(p: (string, V), pat: string, rep: string): (string, V)
    requires pat != []
  {
    (Replace(p.0, pat, rep), p.1)
  }

  /** The entries in order, each with its key renamed. */
  function RenamedPairs<V>(data: Dict<string, V>, pat: string, rep: string): (r: seq<(string, V)>)
    requires pat != []
    decreases |data|
  {
    if data == [] then []
    else RenamedPairs(data[..|data| - 1], pat, rep) + [RenamePair(data[|data| - 1], pat, rep)]
  }

  /**
   * The dictionary `_replace_dict_keys(data, pat, rep)` builds: `new_dict[new_key] = value`
   * entry by entry, so a renamed key that collides keeps the later value. Its keys are
   * distinct and it has no more entries than `data`.
   */
  function RenameKeys<V>(data: Dict<string, V>, pat: string, rep: string): (r: Dict<string, V>)
    requires pat != []
    ensures DistinctKeys(r) && |r| <= |data|
  {
    RenamedPairsLength(data, pat, rep);
    FromPairs(RenamedPairs(data, pat, rep))
  }

  lemma {:induction false} RenamedPairsLength<V>(data: Dict<string, V>, pat: string, rep: string)
    requires pat != []
    ensures |RenamedPairs(data, pat, rep)| == |data|
    decreases |data|
  {
    if data != [] {
      RenamedPairsLength(data[..|data| - 1], pat, rep);
    }
  }

  /** Entry `i` of the renamed pairs is entry `i` of `data` with its key renamed. */
  lemma {:induction false} RenamedPairsAt<V>(data: Dict<string, V>, pat: string, rep: string, i: nat)
    requires pat != [] && i < |data|
    ensures |RenamedPairs(data, pat, rep)| == |data|
    ensures RenamedPairs(data, pat, rep)[i] == RenamePair(data[i], pat, rep)
    decreases |data|
  {
    RenamedPairsLength(data, pat, rep);
    if i < |data| - 1 {
      RenamedPairsAt(data[..|data| - 1], pat, rep, i);
    }
  }

  /** `_replace_dict_keys(data, pat, rep)`. */
  method ReplaceDictKeys<V>(data: Dict<string, V>, pat: string, rep: string) returns (newDict: Dict<string, V>)
    requires pat != []
    ensures newDict == RenameKeys(data, pat, rep)
  {
    newDict := [];
    for n := 0 to |data|
      invariant newDict == FromPairs(RenamedPairs(data[..n], pat, rep))
    {
      var (key, value) := data[n];
      var newKey := Replace(key, pat, rep);
      assert data[..n + 1][..n] == data[..n];
      FromPairsSnoc(RenamedPairs(data[..n], pat, rep), newKey, value);
      newDict := Put(newDict, newKey, value);
    }
    assert data[..|data|] == data;
  }

  /** The renamed keys are exactly the renamings of the original keys. */
  lemma RenameKeysHasKey<V>(data: Dict<string, V>, pat: string, rep: string, k: string)
    requires pat != []
    ensures HasKey(RenameKeys(data, pat, rep), k)
        <==> exists i :: 0 <= i < |data| && Replace(data[i].0, pat, rep) == k
  {
    var ps := RenamedPairs(data, pat, rep);
    FromPairsHasKey(ps, k);
    RenamedPairsLength(data, pat, rep);
    if exists i :: 0 <= i < |ps| && ps[i].0 == k {
      var i :| 0 <= i < |ps| && ps[i].0 == k;
      RenamedPairsAt(data, pat, rep, i);
    }
    if exists i :: 0 <= i < |data| && Replace(data[i].0, pat, rep) == k {
      var i :| 0 <= i < |data| && Replace(data[i].0, pat, rep) == k;
      RenamedPairsAt(data, pat, rep, i);
      assert ps[i].0 == k;
    }
  }

  /**
   * Every value is kept under its renamed key unless a later entry's key renames to the
   * same key, in which case the later value wins.
   */
  lemma RenameKeysLastWins<V>(data: Dict<string, V>, pat: string, rep: string, i: nat)
    requires pat != [] && i < |data|
    requires forall j :: i < j < |data| ==> Replace(data[j].0, pat, rep) != Replace(data[i].0, pat, rep)
    ensures Get(RenameKeys(data, pat, rep), Replace(data[i].0, pat, rep)) == Some(data[i].1)
  {
    var ps := RenamedPairs(data, pat, rep);
    RenamedPairsAt(data, pat, rep, i);
    forall j | i < j < |ps| ensures ps[j].0 != ps[i].0 {
      RenamedPairsAt(data, pat, rep, j);
    }
    FromPairsLastWins(ps, i);
  }

  /** With distinct keys none of which contains `pat`, renaming returns `data` itself. */
  lemma RenameKeysIdentity<V>(data: Dict<string, V>, pat: string, rep: string)
    requires pat != [] && DistinctKeys(data)
    requires forall i :: 0 <= i < |data| ==> !Contains(data[i].0, pat)
    ensures RenameKeys(data, pat, rep) == data
  {
    var ps := RenamedPairs(data, pat, rep);
    RenamedPairsLength(data, pat, rep);
    forall i | 0 <= i < |data| ensures ps[i] == data[i] {
      RenamedPairsAt(data, pat, rep, i);
      ReplaceAbsent(data[i].0, pat, rep);
    }
    assert ps == data;
    FromPairsDistinct(data);
  }

  // ---------------------------------------------------------------------------
  // The reference IM check (lines 88-100)
  // ---------------------------------------------------------------------------

  /**
   * The reference IM after renaming: `oq.im_ref` when the job parameters define it
   * (`oqImRef` is `None` when reading it raises `AttributeError`), otherwise the argument.
   */
  function ImRef(oqImRef: Option<Option<string>>, imRefArg: Option<string>): (r: Option<string>) {
    ConvertAvgSaToSaAvg(if oqImRef.Some? then oqImRef.value else imRefArg)
  }

  /**
   * The IM dictionary renamed and the reference IM renamed, or `ValueError` when the
   * reference IM is given and is not a renamed IM.
   */
  method CheckImRef<V>(imtls: Dict<string, V>, oqImRef: Option<Option<string>>, imRefArg: Option<string>)
    returns (r: Result<(Dict<string, V>, Option<string>)>)
    ensures var renamed, imRef := RenameKeys(imtls, AvgSa, SaAvg), ImRef(oqImRef, imRefArg);
            && (r.Ok? <==> (imRef.None? || HasKey(renamed, imRef.value)))
            && (r.Ok? ==> r.value == (renamed, imRef))
            && (r.Err? ==> r.error == ValueError)
  {
    var renamed := ReplaceDictKeys(imtls, AvgSa, SaAvg);
    var imRef: Option<string>;
    if oqImRef.Some? {
      imRef := oqImRef.value;
    } else {
      imRef := imRefArg;
    }
    imRef := ConvertAvgSaToSaAvg(imRef);
    if imRef.Some? && !HasKey(renamed, imRef.value) {
      return Err(ValueError);
    }
    return Ok((renamed, imRef));
  }

  /** A reference IM that names one of the original IMs passes the check: both are renamed alike. */
  lemma OriginalImRefAccepted<V>(imtls: Dict<string, V>, oqImRef: Option<Option<string>>, imRefArg: Option<string>, i: nat)
    requires i < |imtls|
    requires (if oqImRef.Some? then oqImRef.value else imRefArg) == Some(imtls[i].0)
    ensures HasKey(RenameKeys(imtls, AvgSa, SaAvg), ImRef(oqImRef, imRefArg).value)
  {
    RenameKeysHasKey(imtls, AvgSa, SaAvg, Replace(imtls[i].0, AvgSa, SaAvg));
  }

  // ---------------------------------------------------------------------------
  // The GmpeIndirectAvgSA rule (lines 126-142)
  // ---------------------------------------------------------------------------

  /** The class name of the indirect average-SA model. */
  const IndirectAvgSa: string := "GmpeIndirectAvgSA"

  /**
   * A GSIM of a source group: its class name, what `cmaker.gsims` maps it to, and the
   * `__init__` parameters read from the instance (computed by reflection, which is taken
   * as given).
   */
  datatype Gsim = Gsim(className: string, realizations: Value, initParameters: Dict<string, Value>)

  /**
   * The one-key dictionary `{class name: realizations}` and the parameters of one GSIM. The
   * indirect average-SA model takes its parameters from `kwargs` and is re-keyed by the
   * `gmpe_name` found there; a missing key is `KeyError`, indexing a value that is not a
   * dictionary or renaming with a `gmpe_name` that is not a string is `TypeError`.
   */
  function ConvertGsim(g: Gsim): (r: Result<(Dict<string, Value>, Dict<string, Value>)>)
    ensures g.className != IndirectAvgSa ==> r == Ok(([(g.className, g.realizations)], g.initParameters))
    ensures g.className == IndirectAvgSa && !HasKey(g.initParameters, "kwargs") ==> r == Err(KeyError)
    ensures r.Err? ==> r.error in {KeyError, TypeError}
  {
    var gsim := [(g.className, g.realizations)];
    if g.className != IndirectAvgSa then Ok((gsim, g.initParameters))
    else
      match Get(g.initParameters, "kwargs")
      case None => Err(KeyError)
      case Some(kw) =>
        if !kw.VDict? then Err(TypeError)
        else
          match Get(kw.entries, "gmpe_name")
          case None => Err(KeyError)
          case Some(name) =>
            if !name.VStr? then Err(TypeError)
            else Ok((RenameKeys(gsim, IndirectAvgSa, name.s), kw.entries))
  }

  /** The indirect average-SA model is listed under its `gmpe_name`, with its `kwargs` as parameters. */
  lemma IndirectAvgSaRekeyed(g: Gsim, kwargs: Dict<string, Value>, name: string)
    requires g.className == IndirectAvgSa
    requires Get(g.initParameters, "kwargs") == Some(VDict(kwargs))
    requires Get(kwargs, "gmpe_name") == Some(VStr(name))
    ensures ConvertGsim(g) == Ok(([(name, g.realizations)], kwargs))
  {
    var gsim := [(g.className, g.realizations)];
    ReplaceWhole(IndirectAvgSa, name);
    assert RenamedPairs(gsim, IndirectAvgSa, name) == [(name, g.realizations)] by {
      assert gsim[..0] == [];
    }
    FromPairsDistinct([(name, g.realizations)]);
  }

  /**
   * The loop over the GSIMs of one group (lines 126-142): the converted dictionaries and
   * parameters in order, or the error of the first GSIM that fails.
   */
  method ConvertGroupGsims(gsims: seq<Gsim>) returns (r: Result<(seq<Dict<string, Value>>, seq<Dict<string, Value>>)>)
    ensures r.Ok? <==> forall i :: 0 <= i < |gsims| ==> ConvertGsim(gsims[i]).Ok?
    ensures r.Ok? ==> |r.value.0| == |gsims| && |r.value.1| == |gsims|
    ensures r.Ok? ==> forall i :: 0 <= i < |gsims| ==>
                        r.value.0[i] == ConvertGsim(gsims[i]).value.0 && r.value.1[i] == ConvertGsim(gsims[i]).value.1
    ensures r.Err? ==> exists i :: 0 <= i < |gsims| && ConvertGsim(gsims[i]) == Err(r.error)
                                   && forall j :: 0 <= j < i ==> ConvertGsim(gsims[j]).Ok?
  {
    var converted: seq<Dict<string, Value>> := [];
    var parameters: seq<Dict<string, Value>> := [];
    for n := 0 to |gsims|
      invariant |converted| == n && |parameters| == n
      invariant forall i :: 0 <= i < n ==> ConvertGsim(gsims[i]).Ok?
      invariant forall i :: 0 <= i < n ==>
                  converted[i] == ConvertGsim(gsims[i]).value.0 && parameters[i] == ConvertGsim(gsims[i]).value.1
    {
      var c := ConvertGsim(gsims[n]);
      if c.Err? {
        return Err(c.error);
      }
      converted := converted + [c.value.0];
      parameters := parameters + [c.value.1];
    }
    return Ok((converted, parameters));
  }
}
