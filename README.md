# djura-tools record-selection inputs, modelled in Dafny

djura-tools turns OpenQuake hazard results into the JSON inputs of the Djura ground-motion
record selector. This project models the parts of it that are plain text, sequence and
dictionary work, and proves what they compute:

- `djura/hazard/dstore.py` (module `Dstore`): the decoder of the serialized GSIM blobs
  `[Name]\nk = "v"`, the renaming of the `AvgSA` intensity-measure (IM) label to `Sa_avg`
  in strings and dictionary keys, the check that the reference IM is among the renamed
  IMs, and the re-keying of `GmpeIndirectAvgSA` models by their `gmpe_name`.
- `djura/utilities.py` (module `Utilities`): `get_period_im`, which splits an IM name
  such as `SA(0.5)` into its type and period, and `to_json_serializable`, which replaces numpy
  `float32`, `int32` and array values by plain Python ones.
- `scripts/process_disagg_approx_dstore.py` (module `DisaggApproxDstore`): the rupture
  lists built per probability of exceedance (POE) from the disaggregation arrays, the
  IM weights, the selection of the `n` most contributing ruptures (`heapq.nlargest`), and
  the matching of each rupture to the closest context row (`numpy.argmin`) whose required
  parameters are merged into it. `Ranking` models the two library rankings.
- `scripts/process_disagg_approx.py` (module `DisaggApprox`): the loop that writes each
  POE's ruptures, conditioning intensity and IM weights straight into `rs_input`, so that
  the last POE's overwrite the others'.
- `djura/record_selector/hzc.py` (module `Hzc`): `prepare_input_for_hzc`, which collects the
  selected records' scaled intensities for the POEs in decreasing order and re-keys the
  hazard curves by period.
- `scripts/rs_input_poe.py` (module `RsInputPoe`): the split of one input into one copy
  per POE, each with that POE's `ruptures` and `im-star`.

Shared modules: `Outcomes` (optional values, results, the Python exception kinds and the
loops that stop at the first exception), `Dicts` (Python dictionaries as insertion-ordered
association lists: `d[k] = v` keeps a key's position, `dict(pairs)` keeps the last value of
a key), `Text` (the `str` methods used: `find`, slicing, `strip`, `split`, `replace`) and
`Values` (the Python and numpy values the scripts handle). Python exceptions become
`Err(...)` values; an operation that raises in the source returns the matching error
kind in the model.

Where the code and its documentation disagree, the model follows the code:
`get_period_im('PGA')` returns the pair `('PGA', None)` (`djura/utilities.py:62`), not the
one-element tuple the doctest at `djura/utilities.py:44-45` shows; and `heapq.nlargest`
returns the ruptures heaviest first although the comment at
`scripts/process_disagg_approx_dstore.py:98` calls the selection unsorted.

## Model

| member | source | states |
|---|---|---|
| Dstore.GetGsimParameters | djura/hazard/dstore.py:11-35 | The nested loops build exactly the list `GsimParameters` describes: one entry per blob holding both brackets, in input order (the lemmas below state its content). |
| Dstore.ParseLines | djura/hazard/dstore.py:20-31 | The inner loop leaves `values` as the dictionary of the `k = v` fields of the lines in order, a later field of the same key overwriting an earlier one. |
| Dstore.GsimParametersSnoc | djura/hazard/dstore.py:13-33 | One more blob appends its decoded entry when it holds `[` and `]`, and nothing otherwise. |
| Dstore.LineFieldsOne | djura/hazard/dstore.py:21-23 | A single line containing `=` gives exactly its own field. |
| Dstore.LineFieldsSnoc | djura/hazard/dstore.py:21-23 | One more line adds its field when it contains `=`, and nothing otherwise. |
| Dstore.GsimParametersAppend | djura/hazard/dstore.py:13-33 | Decoding a concatenation of blob lists is the concatenation of their decodings: entries keep input order. |
| Dstore.RejectedItemIgnored | djura/hazard/dstore.py:15 | A blob lacking `[` or `]` contributes nothing, wherever it stands. |
| Dstore.AcceptedItemKept | djura/hazard/dstore.py:15-33 | A blob holding both brackets contributes one entry, at its own place, named by `ItemName` and holding the fields of its stripped body's lines. |
| Dstore.ItemNameBetweenBrackets | djura/hazard/dstore.py:16-17 | The key of an entry is the text between the first `[` and the first `]`, and its body is everything after that `]`, stripped. |
| Dstore.ItemNameEmptyWhenClosedFirst | djura/hazard/dstore.py:16 | When the first `]` precedes the first `[`, the key is the empty string (Python's empty slice). |
| Dstore.ParseLineFirstEquals | djura/hazard/dstore.py:23-25 | A line splits at its first `=`, so the value keeps later `=`; the key is whitespace-stripped and the value is stripped and then loses surrounding `"`. |
| Dstore.LineFieldsAppend | djura/hazard/dstore.py:21-22 | The fields of concatenated line lists are the concatenated fields. |
| Dstore.LineFieldsFrom | djura/hazard/dstore.py:21-23 | Every field comes from some line that contains `=`: other lines produce nothing. |
| Dstore.ParseFieldsLastWins | djura/hazard/dstore.py:31 | When a field name repeats within one blob, the last line defining it gives its value. |
| Dstore.JoinLinesEnds | djura/hazard/dstore.py:17-21 | The joined field lines of a serialized GSIM start with the first key's first character and end with a closing quote, so stripping leaves them whole. |
| Dstore.JoinLinesEnds2 | djura/hazard/dstore.py:17-21 | The joined field lines end with a closing quote. |
| Dstore.FieldLinesJoin | djura/hazard/dstore.py:17-21 | The body of a serialized GSIM is a line break followed by its field lines joined by line breaks. |
| Dstore.NoBreakInFieldLine | djura/hazard/dstore.py:21 | A well-formed field's line holds no line break, so `split('\n')` keeps it whole. |
| Dstore.SplitJoin | djura/hazard/dstore.py:21 | Splitting the joined field lines at line breaks gives back exactly the field lines. |
| Dstore.ParseFieldLine | djura/hazard/dstore.py:22-25 | A well-formed field written as `k = "v"` contains `=` and parses back to `(k, v)`. |
| Dstore.ParseQuotedValue | djura/hazard/dstore.py:25 | The value part ` "v"` of a field line gives back `v` after `strip().strip('"')`. |
| Dstore.ParseFieldLines | djura/hazard/dstore.py:21-25 | The field lines of well-formed fields parse back to exactly those fields, in order. |
| Dstore.GsimBlobRoundTrip | djura/hazard/dstore.py:15-33 | Round trip: decoding `[name]` followed by well-formed field lines gives `{name: dict(fields)}`, the later of two equal keys winning. |
| Dstore.StripFieldLines | djura/hazard/dstore.py:17 | Stripping the body drops only the line break before the first field. |
| Dstore.BodyRoundTrip | djura/hazard/dstore.py:17-31 | The stripped and split body of a serialized GSIM decodes to `dict(fields)`. |
| Dstore.GsimBlobRoundTripDistinct | djura/hazard/dstore.py:15-33 | With distinct field names the decoded parameters are the fields themselves, in order. |
| Dstore.ConvertAvgSaToSaAvg | djura/hazard/dstore.py:59-62 | `None` maps to `None` and a string to a string. |
| Dstore.ConvertWithoutAvgSa | djura/hazard/dstore.py:62 | A name without `AvgSA` comes back unchanged. |
| Dstore.ConvertAvgSaLabel | djura/hazard/dstore.py:62 | The label `AvgSA` itself becomes `Sa_avg`. |
| Dstore.RenameKeys | djura/hazard/dstore.py:64-69 | The renamed dictionary has distinct keys and no more entries than the input (colliding renamed keys merge). |
| Dstore.RenamedPairsLength | djura/hazard/dstore.py:66-68 | The loop visits every entry once: one renamed pair per input entry. |
| Dstore.RenamedPairsAt | djura/hazard/dstore.py:66-68 | The `i`-th renamed pair is the `i`-th entry with `key.replace(old, new)` as key and its value kept. |
| Dstore.ReplaceDictKeys | djura/hazard/dstore.py:64-69 | The loop's `new_dict` is the renamed dictionary `RenameKeys` describes. |
| Dstore.RenameKeysHasKey | djura/hazard/dstore.py:66-68 | A key is in the result exactly when it is the renaming of some input key. |
| Dstore.RenameKeysLastWins | djura/hazard/dstore.py:67-68 | Every value is kept under its renamed key unless a later entry renames to the same key, whose value then wins. |
| Dstore.RenameKeysIdentity | djura/hazard/dstore.py:64-69 | When no key contains the old label, renaming gives back the input dictionary itself. |
| Dstore.CheckImRef | djura/hazard/dstore.py:88-100 | Past the check the IM dictionary is renamed and the reference IM (`oq.im_ref`, or the argument when that attribute is missing) is `None` or a renamed key; otherwise `ValueError`, and exactly then. |
| Dstore.OriginalImRefAccepted | djura/hazard/dstore.py:88-98 | A reference IM naming one of the original IMs is always accepted, since both are renamed alike. |
| Dstore.ConvertGsim | djura/hazard/dstore.py:126-139 | A model other than `GmpeIndirectAvgSA` gives `{class name: realizations}` and its own parameters; the indirect one without `kwargs` raises `KeyError`; the only errors are `KeyError` and `TypeError`. |
| Dstore.IndirectAvgSaRekeyed | djura/hazard/dstore.py:134-139 | The indirect average-SA model is listed under its `gmpe_name`, with its `kwargs` as its parameters. |
| Dstore.ConvertGroupGsims | djura/hazard/dstore.py:124-142 | The group loop succeeds exactly when every GSIM converts, then holds each one's dictionary and parameters at its position; otherwise it fails with the first failing GSIM's error. |
| Utilities.DigitRun | djura/utilities.py:50 | The run of ASCII digits a string starts with, which `\d+` matches: all digits, followed by a non-digit or the end. |
| Utilities.Number | djura/utilities.py:50 | The text the group `(\d+(\.\d+)?)` captures is a non-empty prefix of what follows the `(`. |
| Utilities.SearchPeriodNoParen | djura/utilities.py:50-60 | Without a `(` the pattern never matches, so the period is `None`. |
| Utilities.GetPeriodImNoParen | djura/utilities.py:52-62 | A name without `(` is its own IM type and has period `None`: the result is the pair `(name, None)`. |
| Utilities.NumberOf | djura/utilities.py:50 | After `(`, the capture is the integer digits, plus `.` and the fraction digits when a digit follows the `.`. |
| Utilities.DigitRunOf | djura/utilities.py:50 | `\d+` stops at the first non-digit. |
| Utilities.GetPeriodImOfName | djura/utilities.py:52-62 | For an IM name `t(w.f)u` the type is the stripped `t` and the period text is `w.f` (just `w` without a fraction), as in `SA(0.5)` giving `SA` and `0.5`. |
| Utilities.SearchPeriodAfter | djura/utilities.py:50-58 | A prefix without `(` is skipped; the period is the number after the first `(` followed by a digit. |
| Utilities.ElementToPython | djura/utilities.py:15-16 | `tolist` turns a float entry into a float, an integer entry into an int and a sub-array into a list of the same length. |
| Utilities.ToList | djura/utilities.py:15-16 | `tolist` of an array has one item per entry. |
| Utilities.ToJsonSerializable | djura/utilities.py:9-22 | A dict stays a dict with exactly its keys, a list stays a list of the same length, an array becomes a list of its length, `float32` and `int32` both become floats, and any other value is returned as it is. |
| Utilities.SameKeys | djura/utilities.py:11-12 | Overwriting each value of a dict in place keeps its keys in order. |
| Utilities.ElementToPythonSerializable | djura/utilities.py:15-16 | What `tolist` returns holds no numpy value. |
| Utilities.ToJsonSerializableNormalised | djura/utilities.py:9-22 | For every input, the result holds no `float32`, `int32` or array anywhere. |
| Utilities.OtherScalarKept | djura/utilities.py:22 | Any other numpy scalar (such as `int64` or `bool_`) is returned as it is and stays something `json.dump` refuses. |
| Utilities.ToJsonSerializableSerializable | djura/utilities.py:9-22 | For an input holding no numpy scalar other than `float32` and `int32`, the normaliser leaves no numpy scalar or array anywhere in the result. |
| Utilities.SerializableNormalised | djura/utilities.py:9-22 | A value `json.dump` accepts holds nothing the normaliser converts. |
| Utilities.NormalisedUnchanged | djura/utilities.py:9-22 | A value holding no `float32`, `int32` or array anywhere comes back unchanged. |
| Utilities.ToJsonSerializableIdempotent | djura/utilities.py:9-22 | Normalising twice is normalising once. |
| DisaggApproxDstore.RuptureRecordFields | scripts/process_disagg_approx_dstore.py:67-76 | Rupture `i` has `ID` `i`, `gmms` `[0]`, `rake` `0.0`, and its `rjb`, `mag` and `weight` from position `i` of the arrays; it has exactly those six keys. |
| DisaggApproxDstore.BuildRuptures | scripts/process_disagg_approx_dstore.py:65-77 | The inner loop builds the rupture list `Ruptures` describes, or its `IndexError`. |
| DisaggApproxDstore.RupturesFields | scripts/process_disagg_approx_dstore.py:66-76 | A built list has one rupture per magnitude, rupture `i` made from position `i` of every array. |
| DisaggApproxDstore.RupturesOk | scripts/process_disagg_approx_dstore.py:66-74 | The ruptures are built exactly when no distance or weight array is shorter than the magnitudes, and otherwise the error is `IndexError`. |
| DisaggApproxDstore.BuildPoeInputs | scripts/process_disagg_approx_dstore.py:62-81 | The loop over the POEs leaves `rs_input["poes"]` as `PoeInputs` describes, or raises its first error. |
| DisaggApproxDstore.PoeEntriesPrefixErr | scripts/process_disagg_approx_dstore.py:62-81 | An iteration that raises ends the whole loop with that error. |
| DisaggApproxDstore.PoeEntriesOk | scripts/process_disagg_approx_dstore.py:62-81 | The loop succeeds exactly when every POE has a disaggregation, arrays long enough and an intensity level at its position, and then stores each POE with its ruptures and `{"type": imt, "value": imls[idx]}`, in order. |
| DisaggApproxDstore.PoeInputsAt | scripts/process_disagg_approx_dstore.py:78-81 | A POE not repeated later maps to its own ruptures and `im-star` in `rs_input["poes"]`. |
| DisaggApproxDstore.PoeInputsKeys | scripts/process_disagg_approx_dstore.py:62-78 | The keys of `rs_input["poes"]` are exactly the POEs. |
| DisaggApproxDstore.SumConstant | scripts/process_disagg_approx_dstore.py:48 | `n` copies of `x` add up to `n * x`. |
| DisaggApproxDstore.ImWeightsSum | scripts/process_disagg_approx_dstore.py:48 | The IM weights are one per IM of interest, all equal to `1/len(imi)`, adding up to one; with no IM the division raises `ZeroDivisionError`. |
| DisaggApproxDstore.ImiWeights | scripts/process_disagg_approx_dstore.py:42-48 | For the script's nineteen spectral accelerations every weight is `1/19`. |
| DisaggApproxDstore.UpdateEachKeys | scripts/process_disagg_approx_dstore.py:95-100 | Updating entries of `rs_input["poes"]` keeps its keys in their order. |
| DisaggApproxDstore.UpdateEachGet | scripts/process_disagg_approx_dstore.py:95-100 | With distinct POEs, each POE's entry becomes the update of its original entry and every other entry is untouched. |
| DisaggApproxDstore.UpdateEachOk | scripts/process_disagg_approx_dstore.py:95-100 | With distinct POEs the update loop succeeds exactly when every POE is a key whose entry the update accepts. |
| DisaggApproxDstore.RuptureWeight | scripts/process_disagg_approx_dstore.py:74-99 | A built rupture is ranked by its disaggregation weight. |
| DisaggApproxDstore.SelectMostContributing | scripts/process_disagg_approx_dstore.py:93-100 | With `n` set, each POE's ruptures are replaced by their `nlargest`; with `n` None the input is left as it is. |
| DisaggApproxDstore.SelectedRuptures | scripts/process_disagg_approx_dstore.py:99 | The kept list has `min(n, len)` ruptures (none for `n <= 0`), each from the original, heaviest first, none lighter than a dropped one, and kept plus dropped are the original list as a multiset. |
| DisaggApproxDstore.SelectionOfEntry | scripts/process_disagg_approx_dstore.py:95-100 | With distinct POEs the selection succeeds on the built entries, each POE keeping its `im-star` and holding the `nlargest` of its ruptures. |
| DisaggApproxDstore.GatherGet | scripts/process_disagg_approx_dstore.py:113-148 | Filling a dictionary name by name maps each name to its looked-up value and keeps every other key; it succeeds exactly when no lookup raises. |
| DisaggApproxDstore.SiteParameters | scripts/process_disagg_approx_dstore.py:108-115 | The site-parameter loop builds the gathered dictionary of the first row's values. |
| DisaggApproxDstore.SiteParametersGet | scripts/process_disagg_approx_dstore.py:113-114 | Each site parameter holds the first context row's value of its field and nothing else is there; they are gathered exactly when every field exists and there is a row. |
| DisaggApproxDstore.MergeGet | scripts/process_disagg_approx_dstore.py:150-151 | In `{**a, **b}` a key of `b` maps to its value in `b` and any other key keeps its value in `a`. |
| DisaggApproxDstore.Closest | scripts/process_disagg_approx_dstore.py:120-138 | `argmin` is the first row at the smallest distance, a row of the context table; a rupture without `mag` or `rjb` raises `KeyError`, and a context table without either column raises `ValueError`. |
| DisaggApproxDstore.MatchRuptureGet | scripts/process_disagg_approx_dstore.py:138-151 | After the merge a required parameter holds the closest row's value and every other key of the rupture is unchanged. |
| DisaggApproxDstore.ReplaceEach | scripts/process_disagg_approx_dstore.py:119-151 | Replacing each rupture in place gives the list of the replaced ruptures, or the first error. |
| DisaggApproxDstore.MatchRequiredParameters | scripts/process_disagg_approx_dstore.py:117-151 | The matching loop updates each POE's entry by matching each of its ruptures. |
| DisaggApproxDstore.MatchedEntry | scripts/process_disagg_approx_dstore.py:117-151 | With distinct POEs, after matching each POE keeps its `im-star` and holds, at each position, the matched rupture of its entry before. |
| DisaggApprox.RupturesValue | scripts/process_disagg_approx.py:71 | The stored rupture list has one item per rupture. |
| DisaggApprox.WeightsValue | scripts/process_disagg_approx.py:73 | The stored weights list has one item per weight. |
| DisaggApprox.StoreGet | scripts/process_disagg_approx.py:71-73 | After one iteration's three writes, `ruptures`, `im-star` and `im_weights` hold the new values and every other key of `rs_input` is unchanged. |
| DisaggApprox.ProcessPoes | scripts/process_disagg_approx.py:55-73 | The loop over the POEs leaves `rs_input` as `ApproxFrom` describes, or raises its first error. |
| DisaggApprox.ApproxStepGet | scripts/process_disagg_approx.py:55-73 | One iteration succeeds exactly when its POE has a disaggregation, long enough arrays and an intensity level, and there is an IM; it then writes its three keys and leaves the rest. |
| DisaggApprox.ApproxFromOk | scripts/process_disagg_approx.py:55-73 | The loop succeeds exactly when every remaining iteration can complete; with no POE left `rs_input` is unchanged. |
| DisaggApprox.IterationWrites | scripts/process_disagg_approx.py:71-73 | Every iteration that completes writes exactly the keys `ruptures`, `im-star` and `im_weights`. |
| DisaggApprox.OnlyLastPoeRemains | scripts/process_disagg_approx.py:55-73 | After the loop, `ruptures`, `im-star` and `im_weights` are those of the last POE, whatever earlier POEs wrote, and every other key is as before. |
| DisaggApprox.WrittenKeys | scripts/process_disagg_approx.py:71-73 | An iteration writes a key exactly when it is one of `ruptures`, `im-star` and `im_weights`. |
| Hzc.Insert | djura/record_selector/hzc.py:15 | Inserting into the sorted POEs adds one element. |
| Hzc.SortDescending | djura/record_selector/hzc.py:15 | Sorting keeps the number of POEs. |
| Hzc.ConsDescending | djura/record_selector/hzc.py:15 | A value no smaller than every later one extends a decreasing list. |
| Hzc.InsertBounded | djura/record_selector/hzc.py:15 | Insertion keeps an upper bound of the values. |
| Hzc.InsertDescending | djura/record_selector/hzc.py:15 | Insertion keeps the list decreasing. |
| Hzc.InsertMultiset | djura/record_selector/hzc.py:15 | Insertion adds exactly the one value. |
| Hzc.SortDescendingSorts | djura/record_selector/hzc.py:15 | `np.sort(poes)[::-1]` is non-increasing and a permutation of the POEs. |
| Hzc.Wrap | djura/record_selector/hzc.py:25 | A numpy index names a position inside the axis, itself when non-negative. |
| Hzc.Columns | djura/record_selector/hzc.py:24-25 | The column selection succeeds exactly for a rectangular non-empty matrix and a non-empty list of in-range indices; a ragged matrix raises `ValueError` and the other failures `IndexError`. |
| Hzc.ColumnsShape | djura/record_selector/hzc.py:24-25 | The selection keeps every row and, in each, exactly the listed columns in the listed order. |
| Hzc.Range | djura/record_selector/hzc.py:24-25 | `0, 1, ..., n - 1` lists each position once, in order. |
| Hzc.ColumnsAll | djura/record_selector/hzc.py:25 | Listing every column in order gives the matrix back. |
| Hzc.ColumnsFromEnd | djura/record_selector/hzc.py:25 | An index and the same index counted from the end select the same column. |
| Hzc.CondPeriodNoParen | djura/record_selector/hzc.py:28 | A conditioning IM without `(` has no second piece: `IndexError`. |
| Hzc.CondPeriodOf | djura/record_selector/hzc.py:28 | For `t(p)u` the period is `p` converted, or `ValueError` when `p` is not a number. |
| Hzc.PeriodMissing | djura/record_selector/hzc.py:27-28 | An iteration whose records do not list the conditioning period raises `ValueError`. |
| Hzc.RecordsFromIntensities | djura/record_selector/hzc.py:20-34 | After the loop, `rs_imi_intensities` has gained exactly one matrix per POE, in the order of the POEs, each that POE's selected columns. |
| Hzc.RecordsFromPeriods | djura/record_selector/hzc.py:31-32 | `rs_imi_periods` is set by the first POE's records and never changed afterwards. |
| Hzc.CollectRecords | djura/record_selector/hzc.py:19-34 | The loop over the sorted POEs builds the state `RecordsFrom` describes, or raises its first error. |
| Hzc.ImlPairs | djura/record_selector/hzc.py:48-50 | The period keys paired with their curves' intensity levels, one per curve, in order. |
| Hzc.PoePairs | djura/record_selector/hzc.py:51-53 | The period keys paired with their curves' probabilities of exceedance, one per curve, in order. |
| Hzc.CurvePairsSnoc | djura/record_selector/hzc.py:46-53 | One more curve is one more assignment into each of the two dictionaries. |
| Hzc.FillCurves | djura/record_selector/hzc.py:42-53 | The curves loop fills the two dictionaries as `CurveDicts` describes, or raises its first error. |
| Hzc.CurveOfFields | djura/record_selector/hzc.py:47-53 | A readable curve is stored under `str(period)` of its key with its own `iml` and `poe`. |
| Hzc.CurvesRead | djura/record_selector/hzc.py:46-53 | When the curves loop succeeds it has read every curve, in the order of the keys. |
| Hzc.CurveDictsKeys | djura/record_selector/hzc.py:45-53 | `psha_imi_intensities` and `psha_imi_poes` have the same keys, and each key is `str(period)` of some curve key. |
| Hzc.CurveDictsLastWins | djura/record_selector/hzc.py:46-53 | Of curves whose periods collide, the later one is kept in both dictionaries. |
| Hzc.PrepareInputForHzc | djura/record_selector/hzc.py:9-55 | The function's result is the one `Prepare` describes, with every `KeyError`, `AttributeError` and loop error of the source. |
| Hzc.PrepareIntensities | djura/record_selector/hzc.py:15-34 | The result holds one intensity matrix per POE, for the POEs from the largest to the smallest (a permutation of the input), each those records' selected columns, and the periods of the largest POE's records. |
| RsInputPoe.PoeKeys | scripts/rs_input_poe.py:11-13 | The POEs iterated over exist exactly when `data` has `poes`; a missing one raises `KeyError`. |
| RsInputPoe.SplitPerPoe | scripts/rs_input_poe.py:11-22 | The loop builds the pieces `Split` describes, or raises its first error. |
| RsInputPoe.PieceGet | scripts/rs_input_poe.py:14-22 | Each copy equals `data` except that `ruptures` and `im-star` come from that POE's entry; it still holds `poes`, and it is named `{imt}_{poe}.json`. |
| RsInputPoe.PieceOk | scripts/rs_input_poe.py:16-17 | An iteration succeeds exactly when the POE entry is an object with both `ruptures` and `im-star`; an object lacking one raises `KeyError`. |
| RsInputPoe.SplitPieces | scripts/rs_input_poe.py:13-20 | With `poes` an object, the loop yields one piece per POE key in order, or fails with the error of the first POE whose entry lacks what it needs. |
| Ranking.FirstMaxIndex | scripts/process_disagg_approx_dstore.py:99 | The first position holding a largest weight. |
| Ranking.TopN | scripts/process_disagg_approx_dstore.py:99 | `nlargest` returns `min(n, len)` elements, none for `n <= 0`. |
| Ranking.TopNPartition | scripts/process_disagg_approx_dstore.py:99 | The selected and the dropped elements together are the input, counted with multiplicity. |
| Ranking.TopNAll | scripts/process_disagg_approx_dstore.py:93-99 | Asking for at least as many as there are returns a reordering of all of them. |
| Ranking.TopNFrom | scripts/process_disagg_approx_dstore.py:99 | Every selected and every dropped element comes from the input. |
| Ranking.TopNOrdered | scripts/process_disagg_approx_dstore.py:98-99 | The selection is in non-increasing weight order. |
| Ranking.TopNDominates | scripts/process_disagg_approx_dstore.py:99 | Every selected weight is at least every dropped weight. |
| Ranking.FirstMinIndex | scripts/process_disagg_approx_dstore.py:138 | `argmin` is the first position holding a smallest distance. |
| Ranking.FirstMinUnique | scripts/process_disagg_approx_dstore.py:138 | Only one position is the first smallest. |

## Left out

- OpenQuake: `DataStore`, `read_ctx_by_grp`, `read_cmakers`, `valid.occurrence_model`, `dstore.sel`, `rfn.append_fields` and the occurrence probabilities (`djura/hazard/dstore.py:71-86,104-122,143-158`) are library behaviour; their results are parameters (`Dstore.Gsim`, the context table of `DisaggApproxDstore`).
- `_get_gsim_init_parameters` (`djura/hazard/dstore.py:37-57`) uses reflection; its result is the `initParameters` field of `Dstore.Gsim`.
- Dstore.GetGsimParameters: the `float(v)` attempt on each value (`djura/hazard/dstore.py:27-30`) is not modelled; values stay text, and the blobs are taken as already decoded from UTF-8.
- Utilities.GetPeriodImOfName: the period stays the matched text; `float(...)` at `djura/utilities.py:58` is not modelled.
- Hzc.PrepareInputForHzc: the `float` of the conditioning period and `str(period)` of the curve periods are parameters (`parse`, `floatStr`), since float parsing and printing are not modelled.
- `im_stars` (`djura/record_selector/hzc.py:19,29,38`) is computed and sorted but never returned; the model computes it and raises the `IndexError` of a missing column, and does not sort it.
- Hzc.PrepareInputForHzc: the records file of each POE (`djura/record_selector/hzc.py:21-23`) is an input keyed by the POE, already reduced to `selected_scaled_best`'s three fields; a missing one raises `OSError`, and a field missing from a file is not modelled.
- DisaggApproxDstore.Closest: the min-max normalisation and `sqrt` (`scripts/process_disagg_approx_dstore.py:125-136`), including their division by zero when all values are equal, are a `Distance` parameter; only the `argmin` over its distances is modelled.
- DisaggApproxDstore.Weight: a `weight` that is neither a float nor an int counts as `0.0`, where Python would compare whatever is there; every rupture the script builds holds a float.
- Ranking.TopN: returns the first largest each time, the tie order of `heapq.nlargest` (stable, as `sorted(..., reverse=True)[:n]`); elements are compared by weight only.
- The disaggregations are looked up by POE rather than by the key `f'poe_{poe}'` (`scripts/process_disagg_approx_dstore.py:63-64`, `scripts/process_disagg_approx.py:56-57`); string formatting of floats is not modelled.
- The IMs of interest are a parameter of the loops; `DisaggApproxDstore.ImiWeights` states the weights for the script's nineteen.
- DisaggApproxDstore.UpdateEachGet: the per-POE facts after selection and matching assume distinct POEs; a repeated POE is processed twice in the source and in `UpdateEach`, but no lemma describes that case.
- The order of `ctx['required-parameters']` (a set in OpenQuake) is a given list.
- The local `to_json_serializable` of `scripts/process_disagg_approx_dstore.py:154-169` is the same function as `djura/utilities.py:9-22` and is modelled once, as `Utilities.ToJsonSerializable`; its in-place overwriting of dict values is modelled as a new dict with the same keys.
- File and JSON I/O: `json.load`, `open`, `json.dump` (`scripts/process_disagg_approx_dstore.py:172-174`), the commented-out dump of `scripts/rs_input_poe.py:23-24`, and `export_results`, `remove_path`, `create_path` (`djura/utilities.py:65-115`).
- `print` calls and the `path`/`output_file` path building other than the piece's file name.
- Floating-point numbers are exact reals; rounding, NaN and infinities are not modelled.
- Copies and aliasing: values are immutable, so `data.copy()` and the in-place list and dict updates become new values; the fact that `rs_input_poe.py` copies only the top level is not observable here since no piece is modified afterwards.
- Dstore.ReplaceDictKeys: requires a non-empty pattern; `str.replace` with an empty pattern is not modelled because every call passes a non-empty IM label.
- `proc_oq_disaggregation` and `proc_oq_hazard_curve` come from a module that is not part of this model; their results are parameters.
- scripts/check_hazard_consistency.py and scripts/process_disagg_exact.py are wiring and constants around the functions modelled here.
- Utilities.DigitRun: only the ASCII digits `0`-`9` are digits; Python's `\d` in a `str` pattern also matches the other Unicode decimal digits (so `SA(٠.٥)` has a period in the source and none in the model), because the model does not carry the Unicode character database.
- Utilities.ToJsonSerializableSerializable: promises a serializable result only for inputs without numpy scalars other than `float32` and `int32`, because the source returns such scalars (`int64`, `bool_`, as read from the record array at `scripts/process_disagg_approx_dstore.py:114,148`) unchanged, as `Utilities.OtherScalarKept` states.
