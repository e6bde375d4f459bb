/**
 * The definition fetcher: translates the stored language tag, builds the
 * lexical-service request for the lower-cased word, and takes the first
 * definition out of the response, falling back to the operator's answer.
 */
module Fetch {
  import opened Wrappers
  import opened Json

  /** The service's code for each language tag the vocabulary database stores. */
  const LanguageCodeMap: map<string, string> := map["en" := "en-us", "de" := "de"]

  /** The service code for a stored tag; `None` where the dictionary lookup raises KeyError. */
  function LangCode(c: string): (r: Option<string>)
    ensures r.Some? <==> c == "en" || c == "de"
    ensures c == "en" ==> r == Some("en-us")
    ensures c == "de" ==> r == Some("de")
  {
    if c in LanguageCodeMap then Some(LanguageCodeMap[c]) else None
  }

  const ServiceBase: string := "https://od-api.oxforddictionaries.com:443/api/v2/entries/"

  datatype Credentials = Credentials(appId: string, appKey: string)

  /** The header dictionary `{"app_id": ..., "app_key": ...}` sent with every request. */
  function Headers(cred: Credentials): map<string, string> {
    map["app_id" := cred.appId, "app_key" := cred.appKey]
  }

  datatype Request = Request(url: string, headers: map<string, string>)

  /** The lexical service: the decoded body it answers to a request. */
  type Service = Request -> Json

  /** The operator at the fallback prompt: the definition typed for a word shown with its usage count. */
  type Operator = (string, int) -> string

  datatype FetchError = UnsupportedLanguage(tag: string)

  /** A capital letter of the ASCII and Latin-1 ranges: A-Z, and U+00C0 to U+00DE without the multiplication sign U+00D7. */
  predicate IsCapital(c: char) {
    'A' <= c <= 'Z' || ('\U{C0}' <= c <= '\U{DE}' && c != '\U{D7}')
  }

  /** The small letter of a capital, 32 code points above it in both ranges; any other character is kept. */
  function LowerChar(c: char): char {
    if IsCapital(c) then (c as int + 32) as char else c
  }

  /** `word.lower()` on ASCII and Latin-1 letters: no capital is left, and every other character is kept. */
  function Lower(s: string): (r: string)
    ensures |r| == |s|
    ensures forall i :: 0 <= i < |r| ==> !IsCapital(r[i])
    ensures forall i :: 0 <= i < |s| && !IsCapital(s[i]) ==> r[i] == s[i]
    ensures forall i :: 0 <= i < |s| && IsCapital(s[i]) ==> r[i] as int == s[i] as int + 32
  {
    seq(|s|, i requires 0 <= i < |s| => LowerChar(s[i]))
  }

  /** Lower-casing twice is lower-casing once. */
  lemma LowerIdempotent(s: string)
    ensures Lower(Lower(s)) == Lower(s)
  {
  }

  /** The lookup request for a word; fails, before anything is sent, on a tag without a service code. */
  function RequestFor(word: string, lang: string, cred: Credentials): (r: Result<Request, FetchError>)
    ensures r.Failure? <==> LangCode(lang).None?
    ensures r.Failure? ==> r.error == UnsupportedLanguage(lang)
  {
    var code :- LangCode(lang).ToResult(UnsupportedLanguage(lang));
    Success(Request(ServiceBase + code + "/" + Lower(word), Headers(cred)))
  }

  /** The request path carries the service's code, never the stored tag: "en" is looked up as "en-us". */
  lemma RequestUsesServiceCode(word: string, lang: string, cred: Credentials)
    requires LangCode(lang).Some?
    ensures RequestFor(word, lang, cred).Success?
    ensures RequestFor(word, lang, cred).value.url == ServiceBase + LangCode(lang).value + "/" + Lower(word)
    ensures lang == "en" ==> RequestFor(word, lang, cred).value.url == ServiceBase + "en-us/" + Lower(word)
    ensures RequestFor(word, lang, cred).value.headers == Headers(cred)
  {
  }

  /** Words that differ only in letter case are looked up with the same request. */
  lemma RequestIgnoresCase(word: string, lang: string, cred: Credentials)
    ensures RequestFor(Lower(word), lang, cred) == RequestFor(word, lang, cred)
  {
    LowerIdempotent(word);
  }

  /**
   * `result["results"][0]["lexicalEntries"][0]["entries"][0]["senses"][0]["definitions"][0]`,
   * `None` where any subscript raises.
   */
  function ExtractDefinition(response: Json): Option<Json> {
    var results :- Member(response, "results");
    var result :- Head(results);
    var lexicalEntries :- Member(result, "lexicalEntries");
    var lexicalEntry :- Head(lexicalEntries);
    var entries :- Member(lexicalEntry, "entries");
    var entry :- Head(entries);
    var senses :- Member(entry, "senses");
    var sense :- Head(senses);
    var definitions :- Member(sense, "definitions");
    Head(definitions)
  }

  /** Two subscripts: a key, then index 0. */
  function Dig(name: string): seq<Step> {
    [Key(name), Index0]
  }

  const DefinitionPath: seq<Step> :=
    Dig("results") + Dig("lexicalEntries") + Dig("entries") + Dig("senses") + Dig("definitions")

  /** Follows `name`, then index 0. */
  lemma FollowDig(j: Json, name: string)
    ensures Follow(j, Dig(name)) == match Member(j, name) case None => None case Some(x) => Head(x)
  {
    assert Dig(name)[1..] == [Index0];
    assert [Index0][1..] == [];
    match Member(j, name)
    case None =>
    case Some(x) =>
      assert Follow(x, [Index0]) == match Head(x) case None => None case Some(y) => Follow(y, []);
  }

  /** The extraction is exactly the five key-then-first steps of the definition path, in order. */
  lemma ExtractFollowsPath(response: Json)
    ensures ExtractDefinition(response) == Follow(response, DefinitionPath)
  {
    var d1, d2, d3, d4, d5 := Dig("results"), Dig("lexicalEntries"), Dig("entries"), Dig("senses"), Dig("definitions");
    assert DefinitionPath == d1 + (d2 + (d3 + (d4 + d5)));
    FollowAppend(response, d1, d2 + (d3 + (d4 + d5)));
    FollowDig(response, "results");
    match Follow(response, d1)
    case None =>
    case Some(a) =>
      FollowAppend(a, d2, d3 + (d4 + d5));
      FollowDig(a, "lexicalEntries");
      match Follow(a, d2)
      case None =>
      case Some(b) =>
        FollowAppend(b, d3, d4 + d5);
        FollowDig(b, "entries");
        match Follow(b, d3)
        case None =>
        case Some(c) =>
          FollowAppend(c, d4, d5);
          FollowDig(c, "senses");
          match Follow(c, d4)
          case None =>
          case Some(d) =>
            FollowDig(d, "definitions");
  }

  /** `{name: [inner]}`. */
  function Wrap(name: string, inner: Json): Json {
    JObj(map[name := JArr([inner])])
  }

  /** A response whose path holds a single definition at every level. */
  function ResponseWith(definition: Json): Json {
    Wrap("results", Wrap("lexicalEntries", Wrap("entries", Wrap("senses", Wrap("definitions", definition)))))
  }

  /** Any response that holds the definition path, whatever else it carries, yields the definition at its end. */
  lemma ExtractFromWellFormed(response: Json, definition: Json)
    requires Follow(response, DefinitionPath) == Some(definition)
    ensures ExtractDefinition(response) == Some(definition)
  {
    ExtractFollowsPath(response);
  }

  /** The smallest such response: one-member objects and one-item lists along the path. */
  lemma ExtractFromMinimalResponse(definition: Json)
    ensures ExtractDefinition(ResponseWith(definition)) == Some(definition)
  {
  }

  /** An empty `results` list has no definition. */
  lemma ExtractFromEmptyResults(members: map<string, Json>)
    ensures ExtractDefinition(JObj(members["results" := JArr([])])) == None
  {
  }

  /** Only the first result counts: any further results are ignored. */
  lemma ExtractIgnoresLaterResults(members: map<string, Json>, first: Json, rest: seq<Json>)
    ensures ExtractDefinition(JObj(members["results" := JArr([first] + rest)]))
         == ExtractDefinition(JObj(members["results" := JArr([first])]))
  {
  }

  /**
   * `fetch_definition`: fails on a tag without a service code before any
   * request; otherwise returns what the path holds in the service's answer,
   * or, when any step of the path is missing, what the operator types.
   */
  function FetchDefinition(word: string, usage: int, lang: string, cred: Credentials,
                           service: Service, operator: Operator): (r: Result<Json, FetchError>)
    ensures r.Failure? <==> LangCode(lang).None?
    ensures r.Failure? ==> r.error == UnsupportedLanguage(lang)
    ensures r.Success? ==>
      var response := service(RequestFor(word, lang, cred).value);
      r.value == if ExtractDefinition(response).Some? then ExtractDefinition(response).value
                 else JStr(operator(word, usage))
  {
    var request :- RequestFor(word, lang, cred);
    var response := service(request);
    match ExtractDefinition(response)
    case Some(definition) => Success(definition)
    case None => Success(JStr(operator(word, usage)))
  }

  /** With an answer that holds the definition path the fetcher returns its definition and never prompts. */
  lemma FetchReturnsServiceDefinition(word: string, usage: int, lang: string, cred: Credentials,
                                      service: Service, operator: Operator, definition: Json)
    requires LangCode(lang).Some?
    requires Follow(service(RequestFor(word, lang, cred).value), DefinitionPath) == Some(definition)
    ensures FetchDefinition(word, usage, lang, cred, service, operator) == Success(definition)
  {
    ExtractFollowsPath(service(RequestFor(word, lang, cred).value));
  }

  /** With an answer that lacks the path the fetcher returns exactly the operator's text. */
  lemma FetchFallsBackToOperator(word: string, usage: int, lang: string, cred: Credentials,
                                 service: Service, operator: Operator)
    requires LangCode(lang).Some?
    requires ExtractDefinition(service(RequestFor(word, lang, cred).value)).None?
    ensures FetchDefinition(word, usage, lang, cred, service, operator) == Success(JStr(operator(word, usage)))
  {
  }

  /** An unsupported tag fails whatever the service or the operator would answer. */
  lemma UnsupportedLanguageIgnoresService(word: string, usage: int, lang: string, cred: Credentials,
                                          service: Service, operator: Operator,
                                          service': Service, operator': Operator)
    requires LangCode(lang).None?
    ensures FetchDefinition(word, usage, lang, cred, service, operator)
         == FetchDefinition(word, usage, lang, cred, service', operator')
         == Failure(UnsupportedLanguage(lang))
  {
  }
}
