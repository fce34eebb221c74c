/** `GlossaryEngine` (engine/glossary_engine.py): the list of known source terms
    put into the delta prompt, and the validation of the delta the model returns. */
module Glossary {
  import opened Wrappers
  import opened Json
  import JsonUtils

  datatype DeltaError =
    | InvalidJson             // extract_json + json.loads failed
    | NotAnArray              // the decoded value is not a list
    | InvalidEntry(entry: Json)    // "source" or "target" missing from an entry
    | EntryTypeError(entry: Json)  // `in` raised TypeError on an entry

  /** A well-formed glossary entry: an object carrying both keys. */
  predicate IsEntry(e: Json) {
    e.JObj? && "source" in e.fields && "target" in e.fields
  }

  predicate AllEntries(xs: seq<Json>) {
    forall i :: 0 <= i < |xs| ==> IsEntry(xs[i])
  }

  // ---------------------------------------------------------------------------
  // build_delta_prompt: existing_terms
  // ---------------------------------------------------------------------------

  /** `[e["source"] for e in entries]`, failing on the first entry without one. */
  function ExistingTerms(entries: seq<Json>): (r: Result<seq<Json>, PyError>)
    ensures r.Ok? <==> forall i :: 0 <= i < |entries| ==> Get(entries[i], "source").Ok?
    ensures r.Ok? ==> |r.value| == |entries|
    ensures r.Ok? ==> forall i :: 0 <= i < |entries| ==> Get(entries[i], "source") == Ok(r.value[i])
  {
    if entries == [] then Ok([])
    else
      match Get(entries[0], "source")
      case Err(e) => Err(e)
      case Ok(t) =>
        match ExistingTerms(entries[1..])
        case Err(e) => Err(e)
        case Ok(ts) => Ok([t] + ts)
  }

  // ---------------------------------------------------------------------------
  // parse_delta as written: `if "source" not in e or "target" not in e`
  // ---------------------------------------------------------------------------

  function CheckEntriesAsWritten(items: seq<Json>): Result<(), DeltaError> {
    if items == [] then Ok(())
    else
      match In("source", items[0])
      case Err(_) => Err(EntryTypeError(items[0]))
      case Ok(hasSource) =>
        if !hasSource then Err(InvalidEntry(items[0]))
        else
          match In("target", items[0])
          case Err(_) => Err(EntryTypeError(items[0]))
          case Ok(hasTarget) =>
            if !hasTarget then Err(InvalidEntry(items[0]))
            else CheckEntriesAsWritten(items[1..])
  }

  function Decoded(aiText: string, decode: string -> Option<Json>): Option<Json> {
    decode(JsonUtils.ExtractJson(aiText))
  }

  /** `parse_delta(ai_text)` exactly as the source tests entries: Python `in`
      on a list or a string entry succeeds when the words occur in it. */
  function ParseDeltaAsWritten(aiText: string, decode: string -> Option<Json>): (r: Result<seq<Json>, DeltaError>)
    ensures r.Ok? ==> Decoded(aiText, decode) == Some(JArr(r.value))
  {
    match Decoded(aiText, decode)
    case None => Err(InvalidJson)
    case Some(JArr(xs)) =>
      (match CheckEntriesAsWritten(xs)
       case Err(e) => Err(e)
       case Ok(_) => Ok(xs))
    case Some(_) => Err(NotAnArray)
  }

  // ---------------------------------------------------------------------------
  // parse_delta as intended: every entry an object with both keys
  // ---------------------------------------------------------------------------

  function CheckEntries(items: seq<Json>): (r: Result<(), DeltaError>)
    ensures r.Ok? <==> AllEntries(items)
    ensures r.Err? ==> exists i :: 0 <= i < |items| && !IsEntry(items[i]) && r.error == InvalidEntry(items[i])
  {
    if items == [] then Ok(())
    else if !IsEntry(items[0]) then Err(InvalidEntry(items[0]))
    else
      var rest := CheckEntries(items[1..]);
      assert AllEntries(items[1..]) ==> AllEntries(items) by {
        if AllEntries(items[1..]) {
          forall i | 0 <= i < |items| ensures IsEntry(items[i]) {
            if i > 0 { assert items[i] == items[1..][i - 1]; }
          }
        }
      }
      rest
  }

  /** `parse_delta(ai_text)`: accepted exactly when the reply decodes to a list
      of objects that all carry "source" and "target"; the list is returned as
      decoded. */
  function ParseDelta(aiText: string, decode: string -> Option<Json>): (r: Result<seq<Json>, DeltaError>)
    ensures r.Ok? <==> (Decoded(aiText, decode).Some? && Decoded(aiText, decode).value.JArr?
                        && AllEntries(Decoded(aiText, decode).value.items))
    ensures r.Ok? ==> Decoded(aiText, decode) == Some(JArr(r.value))
    ensures r == Err(InvalidJson) <==> Decoded(aiText, decode).None?
    ensures r == Err(NotAnArray) <==> (Decoded(aiText, decode).Some? && !Decoded(aiText, decode).value.JArr?)
  {
    match Decoded(aiText, decode)
    case None => Err(InvalidJson)
    case Some(JArr(xs)) =>
      (match CheckEntries(xs)
       case Err(e) => Err(e)
       case Ok(_) => Ok(xs))
    case Some(_) => Err(NotAnArray)
  }

  /** On object entries the written test and the intended one agree. */
  lemma {:induction false} CheckAgreesOnObjects(items: seq<Json>)
    requires forall i :: 0 <= i < |items| ==> items[i].JObj?
    ensures CheckEntriesAsWritten(items) == CheckEntries(items)
  {
    if items != [] {
      assert items[0].JObj?;
      CheckAgreesOnObjects(items[1..]);
    }
  }

  /** Whatever the intended check accepts, the written one accepts unchanged. */
  lemma {:induction false} AsWrittenAcceptsMore(items: seq<Json>)
    requires AllEntries(items)
    ensures CheckEntriesAsWritten(items) == Ok(())
  {
    if items != [] {
      assert IsEntry(items[0]);
      assert AllEntries(items[1..]) by {
        forall i | 0 <= i < |items| - 1 ensures IsEntry(items[1..][i]) {
          assert items[1..][i] == items[i + 1];
        }
      }
      AsWrittenAcceptsMore(items[1..]);
    }
  }

  lemma ParseDeltaRefinesAsWritten(aiText: string, decode: string -> Option<Json>)
    ensures ParseDelta(aiText, decode).Ok? ==> ParseDeltaAsWritten(aiText, decode) == ParseDelta(aiText, decode)
  {
    if ParseDelta(aiText, decode).Ok? {
      AsWrittenAcceptsMore(Decoded(aiText, decode).value.items);
    }
  }

  /** The reply `[["source", "target"]]`: a list whose only entry is itself a list
      holding the two words. The written membership test lets it through; the
      intended check rejects it. */
  lemma ListEntryPassesAsWritten(aiText: string)
    ensures var decode := (s: string) => Some(JArr([JArr([JStr("source"), JStr("target")])]));
      && ParseDeltaAsWritten(aiText, decode) == Ok([JArr([JStr("source"), JStr("target")])])
      && ParseDelta(aiText, decode) == Err(InvalidEntry(JArr([JStr("source"), JStr("target")])))
  {
    var e := JArr([JStr("source"), JStr("target")]);
    assert JStr("source") in e.items;
    assert JStr("target") in e.items;
    assert CheckEntriesAsWritten([e][1..]) == Ok(());
  }
}
