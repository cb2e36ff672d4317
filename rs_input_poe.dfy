/**
 * scripts/rs_input_poe.py: splitting one record-selection input, whose `poes` entry maps
 * each POE to its own rupture list and conditioning intensity, into one input per POE.
 * Each piece is a copy of the whole input with `ruptures` and `im-star` set from that POE.
 */
module RsInputPoe {
  import opened Outcomes
  import opened Dicts
  import opened Values

  /** The input for one POE, with the name of the file it is meant for. */
  datatype Piece = Piece(file: string, data: Json)

  /**
   * What `for poe in data['poes']` iterates over: the keys of an object, nothing for an
   * empty list or string; looking a key up in a non-empty list or string, or iterating
   * over any other value, raises `TypeError`.
   */
  function PoeKeys(data: Json): (r: Result<seq<string>>)
    ensures r.Ok? ==> HasKey(data, "poes")
    ensures r == Err(KeyError) <==> !HasKey(data, "poes")
  {
    var poes := Get(data, "poes");
    if poes.None? then Err(KeyError)
    else match poes.value {
      case VDict(entries) => Ok(Keys(entries))
      case VList(items) => if items == [] then Ok([]) else Err(TypeError)
      case VStr(s) => if s == [] then Ok([]) else Err(TypeError)
      case _ => Err(TypeError)
    }
  }

  /** One iteration: the copy of `data` with that POE's `ruptures` and `im-star`. */
  function PieceOf(data: Json, imt: string): (r: string -> Result<Piece>) {
    (poe: string) =>
      if !HasKey(data, "poes") then Err(KeyError)
      else
        var entry := Field(Get(data, "poes").value, poe);
        if entry.Err? then Err(entry.error)
        else
          var ruptures := Field(entry.value, "ruptures");
          if ruptures.Err? then Err(ruptures.error)
          else
            var imStar := Field(entry.value, "im-star");
            if imStar.Err? then Err(imStar.error)
            else Ok(Piece(imt + "_" + poe + ".json", Put(Put(data, "ruptures", ruptures.value), "im-star", imStar.value)))
  }

  /** The loop over every POE, ending at the first error. */
  function Split(data: Json, imt: string): (r: Result<seq<Piece>>) {
    var poes := PoeKeys(data);
    if poes.Err? then Err(poes.error) else MapResult(poes.value, PieceOf(data, imt))
  }

  /** The script's loop, collecting the pieces it builds. */
  method SplitPerPoe(data: Json, imt: string) returns (r: Result<seq<Piece>>)
    ensures r == Split(data, imt)
  {
    var poes := PoeKeys(data);
    if poes.Err? {
      return Err(poes.error);
    }
    r := MapEach(poes.value, PieceOf(data, imt));
  }

  /**
   * Every piece equals `data` except under `ruptures` and `im-star`, which hold the POE
   * entry's own; in particular each piece keeps `poes`, and nothing written into one
   * piece reaches the input or another piece.
   */
  lemma PieceGet(data: Json, imt: string, poe: string, k: string)
    ensures var p := PieceOf(data, imt)(poe);
            p.Ok? ==> HasKey(data, "poes") &&
                      var entry := Field(Get(data, "poes").value, poe);
                      entry.Ok? && entry.value.VDict? &&
                      p.value.file == imt + "_" + poe + ".json" &&
                      Get(p.value.data, k) == if k == "ruptures" || k == "im-star" then Get(entry.value.entries, k)
                                              else Get(data, k)
  {
    var p := PieceOf(data, imt)(poe);
    if p.Ok? {
      var entry := Field(Get(data, "poes").value, poe).value;
      var withRuptures := Put(data, "ruptures", Field(entry, "ruptures").value);
      PutGet(data, "ruptures", Field(entry, "ruptures").value, k);
      PutGet(withRuptures, "im-star", Field(entry, "im-star").value, k);
    }
  }

  /**
   * An iteration fails exactly when its POE entry is not an object holding both
   * `ruptures` and `im-star`; a missing one of the two raises `KeyError`.
   */
  lemma PieceOk(data: Json, imt: string, poe: string)
    requires HasKey(data, "poes") && Get(data, "poes").value.VDict?
    requires HasKey(Get(data, "poes").value.entries, poe)
    ensures var p := PieceOf(data, imt)(poe);
            var entry := Get(Get(data, "poes").value.entries, poe).value;
            p.Ok? <==> entry.VDict? && HasKey(entry.entries, "ruptures") && HasKey(entry.entries, "im-star")
    ensures var p := PieceOf(data, imt)(poe);
            var entry := Get(Get(data, "poes").value.entries, poe).value;
            entry.VDict? && !(HasKey(entry.entries, "ruptures") && HasKey(entry.entries, "im-star")) ==> p == Err(KeyError)
  {
  }

  /**
   * With `poes` an object, the split yields one piece per POE key, in the object's order,
   * or fails with the error of the first POE whose entry lacks what it needs.
   */
  lemma SplitPieces(data: Json, imt: string)
    requires HasKey(data, "poes") && Get(data, "poes").value.VDict?
    ensures var entries := Get(data, "poes").value.entries;
            var r := Split(data, imt);
            r.Ok? ==> |r.value| == |entries| &&
                      forall i :: 0 <= i < |entries| ==> PieceOf(data, imt)(entries[i].0) == Ok(r.value[i])
    ensures var entries := Get(data, "poes").value.entries;
            var r := Split(data, imt);
            r.Ok? <==> forall i :: 0 <= i < |entries| ==> PieceOf(data, imt)(entries[i].0).Ok?
    ensures var entries := Get(data, "poes").value.entries;
            var r := Split(data, imt);
            r.Err? ==> exists i :: 0 <= i < |entries| && PieceOf(data, imt)(entries[i].0) == Err(r.error) &&
                                   forall j :: 0 <= j < i ==> PieceOf(data, imt)(entries[j].0).Ok?
  {
    var entries := Get(data, "poes").value.entries;
    var keys := Keys(entries);
    assert PoeKeys(data) == Ok(keys);
    MapResultOk(keys, PieceOf(data, imt));
  }
}
