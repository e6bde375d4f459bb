/**
 * The chunk processor's enrichment step: one fetch per entry of a loaded
 * chunk, in entry order, and the resulting definitions stored on the chunk.
 */
module Enrich {
  import opened Wrappers
  import opened Vocab
  import opened Json
  import opened Fetch

  /** A chunk as loaded from its file: the three columns, and definitions once enriched. */
  class Entry {
    var stems: seq<string>
    var usages: seq<int>
    var langs: seq<string>
    var definitions: Option<seq<Json>>

    constructor (v: Vocab)
      ensures stems == v.stems && usages == v.usages && langs == v.langs
      ensures definitions == None
    {
      stems, usages, langs := v.stems, v.usages, v.langs;
      definitions := None;
    }
  }

  /** How many triples zipping the three columns yields: the length of the shortest. */
  function ZipLength(stems: seq<string>, usages: seq<int>, langs: seq<string>): (z: nat)
    ensures z <= |stems| && z <= |usages| && z <= |langs|
    ensures z == |stems| || z == |usages| || z == |langs|
  {
    if |stems| <= |usages| && |stems| <= |langs| then |stems|
    else if |usages| <= |langs| then |usages|
    else |langs|
  }

  /**
   * The loop of `populate_def`: one fetch per zipped triple, in order. It
   * stops at the first tag without a service code, having sent requests only
   * for the entries before it.
   */
  method FetchAll(stems: seq<string>, usages: seq<int>, langs: seq<string>, cred: Credentials,
                  service: Service, operator: Operator)
    returns (r: Result<seq<Json>, FetchError>, ghost sent: seq<Request>)
    ensures r.Success? <==>
      forall j :: 0 <= j < ZipLength(stems, usages, langs) ==> LangCode(langs[j]).Some?
    ensures r.Success? ==> |r.value| == ZipLength(stems, usages, langs)
    ensures r.Success? ==> forall j :: 0 <= j < |r.value| ==>
      Success(r.value[j]) == FetchDefinition(stems[j], usages[j], langs[j], cred, service, operator)
    ensures r.Failure? ==> exists k :: (0 <= k < ZipLength(stems, usages, langs) &&
      LangCode(langs[k]).None? && r.error == UnsupportedLanguage(langs[k]) && |sent| == k &&
      forall j :: 0 <= j < k ==> LangCode(langs[j]).Some?)
    ensures r.Success? ==> |sent| == ZipLength(stems, usages, langs)
    ensures |sent| <= ZipLength(stems, usages, langs)
    ensures forall j :: 0 <= j < |sent| ==> Success(sent[j]) == RequestFor(stems[j], langs[j], cred)
  {
    var n := ZipLength(stems, usages, langs);
    var definitions: seq<Json> := [];
    sent := [];
    for j := 0 to n
      invariant |definitions| == j && |sent| == j
      invariant forall i :: 0 <= i < j ==> LangCode(langs[i]).Some?
      invariant forall i :: 0 <= i < j ==>
        Success(definitions[i]) == FetchDefinition(stems[i], usages[i], langs[i], cred, service, operator)
      invariant forall i :: 0 <= i < j ==> Success(sent[i]) == RequestFor(stems[i], langs[i], cred)
    {
      var d := FetchDefinition(stems[j], usages[j], langs[j], cred, service, operator);
      if d.Failure? {
        return Failure(d.error), sent;
      }
      sent := sent + [RequestFor(stems[j], langs[j], cred).value];
      definitions := definitions + [d.value];
    }
    r := Success(definitions);
  }

  /**
   * `populate_def`: stores the fetched definitions on the chunk and returns
   * it. On an unsupported tag the error propagates and the chunk keeps no
   * definitions; the three columns never change.
   */
  method PopulateDef(entry: Entry, cred: Credentials, service: Service, operator: Operator)
    returns (r: Result<Entry, FetchError>)
    modifies entry`definitions
    ensures entry.stems == old(entry.stems) && entry.usages == old(entry.usages) && entry.langs == old(entry.langs)
    ensures r.Success? <==>
      forall j :: 0 <= j < ZipLength(entry.stems, entry.usages, entry.langs) ==> LangCode(entry.langs[j]).Some?
    ensures r.Success? ==> r.value == entry && entry.definitions.Some?
    ensures r.Success? ==> |entry.definitions.value| == ZipLength(entry.stems, entry.usages, entry.langs)
    ensures r.Success? ==> forall j :: 0 <= j < |entry.definitions.value| ==>
      Success(entry.definitions.value[j])
        == FetchDefinition(entry.stems[j], entry.usages[j], entry.langs[j], cred, service, operator)
    ensures r.Failure? ==> entry.definitions == old(entry.definitions)
    ensures r.Failure? ==> exists k :: (0 <= k < ZipLength(entry.stems, entry.usages, entry.langs) &&
      r.error == UnsupportedLanguage(entry.langs[k]) && LangCode(entry.langs[k]).None? &&
      forall j :: 0 <= j < k ==> LangCode(entry.langs[j]).Some?)
  {
    var definitions, _ := FetchAll(entry.stems, entry.usages, entry.langs, cred, service, operator);
    if definitions.Failure? {
      return Failure(definitions.error);
    }
    entry.definitions := Some(definitions.value);
    r := Success(entry);
  }

  /** A partition is aligned, so enriching it keeps all four columns the same length. */
  lemma AlignedZipLength(v: Vocab)
    requires v.WellFormed()
    ensures ZipLength(v.stems, v.usages, v.langs) == v.Size()
  {
  }
}
