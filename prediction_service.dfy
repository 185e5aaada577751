/**
 * The `/predict` handler: it reads the "url" member of the request's JSON
 * body, answers 400 when that member is missing or falsy, otherwise runs the
 * feature extractor and the classifier and answers 200 with the
 * classifier's output, or 500 with the message of whatever was raised.
 *
 * The page fetch and the classifier are parameters: `fetch` gives the
 * outcome of requesting a URL (`None` when the request raised), `model`
 * gives the classifier's answer for a batch of rows, or the text of the
 * exception it raised.
 */
module PredictionService {
  import opened Wrappers
  import opened UrlSplit
  import opened FeatureExtractor

  /** A JSON value as Python's `json` module decodes it. */
  datatype Json =
    | Null
    | Bool(b: bool)
    | Int(i: int)
    | Float(r: real)
    | Str(s: string)
    | Array(items: seq<Json>)
    | Object(members: map<string, Json>)

  /**
   * Python's truth value of the decoded JSON value: false exactly for
   * `None`, `False`, zero and the empty string, list and dict.
   */
  function Truthy(v: Json): (b: bool)
    ensures !b <==> v == Null || v == Bool(false) || v == Int(0) || v == Float(0.0)
                    || v == Str("") || v == Array([]) || v == Object(map[])
  {
    match v
    case Null => false
    case Bool(b) => b
    case Int(i) => i != 0
    case Float(r) => r != 0.0
    case Str(s) => s != []
    case Array(items) => items != []
    case Object(members) => members != map[]
  }

  /** The Python type name of the decoded value, as an AttributeError message shows it. */
  function TypeName(v: Json): string {
    match v
    case Null => "NoneType"
    case Bool(_) => "bool"
    case Int(_) => "int"
    case Float(_) => "float"
    case Str(_) => "str"
    case Array(_) => "list"
    case Object(_) => "dict"
  }

  const UrlKey: string := "url"
  const NoUrlMessage: string := "URL이 제공되지 않았습니다."
  const ErrorPrefix: string := "예측 중 오류 발생: "

  datatype Payload = PredictionPayload(prediction: seq<real>) | ErrorPayload(error: string)

  datatype Response = Response(status: nat, payload: Payload)

  /** `str(e)` for the ValueError `urlparse` raises. */
  function SplitErrorText(e: SplitError): string {
    match e
    case InvalidIPv6URL => "Invalid IPv6 URL"
  }

  /** `str(e)` for the AttributeError raised when a value that is not a string is asked for `startswith`. */
  function NoStartswithText(v: Json): string {
    "'" + TypeName(v) + "' object has no attribute 'startswith'"
  }

  /**
   * `data.get('url')`, with Python's `None` for a missing member: a missing
   * member reads as false, and a value that reads as true is the member.
   */
  function UrlMember(body: map<string, Json>): (v: Json)
    ensures UrlKey !in body ==> !Truthy(v)
    ensures Truthy(v) ==> UrlKey in body && body[UrlKey] == v
  {
    if UrlKey in body then body[UrlKey] else Null
  }

  /** An error payload whose text starts with the handler's prefix. */
  predicate Prefixed(p: Payload) {
    p.ErrorPayload? && |p.error| >= |ErrorPrefix| && p.error[..|ErrorPrefix|] == ErrorPrefix
  }

  /**
   * The 500 answer for an exception caught by the handler: its text is the
   * prefix followed by the exception's own text.
   */
  function ServerError(message: string): (r: Response)
    ensures r.status == 500 && Prefixed(r.payload)
    ensures r.payload.error[|ErrorPrefix|..] == message
  {
    Response(500, ErrorPayload(ErrorPrefix + message))
  }

  /** The part of the handler inside its `try`, for a URL that is a non-empty string. */
  function Answer(url: string, fetch: string -> Option<Page>, model: seq<seq<real>> -> Result<seq<real>, string>)
    : (r: Response)
    ensures r.status == 200 || r.status == 500
    ensures r.status == 200 <==> r.payload.PredictionPayload?
    ensures r.status == 500 ==> Prefixed(r.payload)
  {
    match ExtractVector(url, fetch(Normalize(url)))
    case Failure(e) => ServerError(SplitErrorText(e))
    case Success(row) =>
      match model([row])
      case Failure(message) => ServerError(message)
      case Success(prediction) => Response(200, PredictionPayload(prediction))
  }

  /**
   * The handler for a request whose JSON body is the object `body`. It
   * answers 400 exactly when the "url" member is missing or falsy, and
   * every answer is 200 with a prediction, 400 or 500 with an error text.
   */
  function Predict(body: map<string, Json>, fetch: string -> Option<Page>, model: seq<seq<real>> -> Result<seq<real>, string>)
    : (r: Response)
    ensures r.status == 400 <==> !Truthy(UrlMember(body))
    ensures r.status == 200 || r.status == 400 || r.status == 500
    ensures r.status == 200 <==> r.payload.PredictionPayload?
  {
    var url := UrlMember(body);
    if !Truthy(url) then Response(400, ErrorPayload(NoUrlMessage))
    else if url.Str? then Answer(url.s, fetch, model)
    else ServerError(NoStartswithText(url))
  }

  /**
   * A missing or falsy "url" is answered with the 400 message before
   * anything is fetched or classified: the answer is the same whatever the
   * fetch and the classifier would do.
   */
  lemma MissingUrlIsRejected(
    body: map<string, Json>,
    fetch1: string -> Option<Page>, model1: seq<seq<real>> -> Result<seq<real>, string>,
    fetch2: string -> Option<Page>, model2: seq<seq<real>> -> Result<seq<real>, string>)
    requires !Truthy(UrlMember(body))
    ensures Predict(body, fetch1, model1) == Predict(body, fetch2, model2) == Response(400, ErrorPayload(NoUrlMessage))
  {
  }

  /**
   * The handler answers 200 exactly when the "url" member is a non-empty
   * string, features can be extracted from it and the page fetched for it,
   * and the classifier accepts the one-row batch of those features; the
   * prediction is then the classifier's output, unchanged.
   */
  lemma PredictSucceeds(body: map<string, Json>, fetch: string -> Option<Page>, model: seq<seq<real>> -> Result<seq<real>, string>)
    ensures var r := Predict(body, fetch, model);
            var url := UrlMember(body);
            r.status == 200 <==>
              url.Str? && url.s != []
              && ExtractVector(url.s, fetch(Normalize(url.s))).Success?
              && model([ExtractVector(url.s, fetch(Normalize(url.s))).value]).Success?
    ensures var r := Predict(body, fetch, model);
            var url := UrlMember(body);
            r.status == 200 ==>
              r.payload.prediction == model([ExtractVector(url.s, fetch(Normalize(url.s))).value]).value
  {
  }

  /** Every error answered with 500 carries the handler's prefix before the exception text. */
  lemma ServerErrorsArePrefixed(body: map<string, Json>, fetch: string -> Option<Page>, model: seq<seq<real>> -> Result<seq<real>, string>)
    ensures var r := Predict(body, fetch, model);
            r.status == 500 ==> Prefixed(r.payload)
  {
  }

  /**
   * Which text each 500 answer carries: the classifier's message when it
   * raised on the extracted row, "Invalid IPv6 URL" when `urlparse` raised
   * during extraction, and the AttributeError text when the url is truthy
   * but not a string.
   */
  lemma ServerErrorTexts(body: map<string, Json>, fetch: string -> Option<Page>, model: seq<seq<real>> -> Result<seq<real>, string>)
    ensures var r, url := Predict(body, fetch, model), UrlMember(body);
            Truthy(url) && !url.Str? ==>
              r == Response(500, ErrorPayload(ErrorPrefix + NoStartswithText(url)))
    ensures var r, url := Predict(body, fetch, model), UrlMember(body);
            Truthy(url) && url.Str? && ExtractVector(url.s, fetch(Normalize(url.s))).Failure? ==>
              r == Response(500, ErrorPayload(ErrorPrefix + "Invalid IPv6 URL"))
    ensures var r, url := Predict(body, fetch, model), UrlMember(body);
            Truthy(url) && url.Str? && ExtractVector(url.s, fetch(Normalize(url.s))).Success?
            && model([ExtractVector(url.s, fetch(Normalize(url.s))).value]).Failure? ==>
              r == Response(500, ErrorPayload(ErrorPrefix + model([ExtractVector(url.s, fetch(Normalize(url.s))).value]).error))
  {
  }

  /**
   * A fetch that raised does not stop the prediction: when the URL itself
   * parses, the row handed to the classifier has zero lines, zero longest
   * line, zero images and zero external references, and the handler
   * answers 200 exactly when the classifier accepts that row.
   */
  lemma FetchFailureStillPredicts(body: map<string, Json>, fetch: string -> Option<Page>, model: seq<seq<real>> -> Result<seq<real>, string>)
    requires UrlMember(body).Str? && UrlMember(body).s != []
    requires fetch(Normalize(UrlMember(body).s)) == None
    requires Netloc(Normalize(UrlMember(body).s)).Success?
    ensures var row := ExtractVector(UrlMember(body).s, None);
            row.Success? && |row.value| == 8
            && row.value[0] == 0.0 && row.value[1] == 0.0 && row.value[3] == 0.0 && row.value[4] == 0.0
    ensures Predict(body, fetch, model).status == 200 <==>
              model([ExtractVector(UrlMember(body).s, None).value]).Success?
  {
    FetchFailureFeatures(UrlMember(body).s);
  }

  /**
   * The request {"url": host}, for a bare host name such as "example.com",
   * whose fetch raises: the row handed to the classifier has the length of
   * "https://" + host as URL length, the host's length as domain length and
   * zeros for the page features, and the handler answers 200 exactly when
   * the classifier accepts that row.
   */
  lemma BareHostOffline(host: string, fetch: string -> Option<Page>, model: seq<seq<real>> -> Result<seq<real>, string>)
    requires host != [] && NoDelimiter(host) && NoUnsafe(host)
    requires '[' !in host && ']' !in host
    requires !HasHttpScheme(host)
    requires fetch(HttpsPrefix + host) == None
    ensures var row := ExtractVector(host, None);
            row.Success? && row.value[2] == (|host| + 8) as real && row.value[7] == |host| as real
            && row.value[0] == 0.0 && row.value[1] == 0.0 && row.value[3] == 0.0 && row.value[4] == 0.0
    ensures Predict(map[UrlKey := Str(host)], fetch, model).status == 200 <==>
              model([ExtractVector(host, None).value]).Success?
  {
    assert host + [] == host;
    BareHostDomain(host, []);
    var body := map[UrlKey := Str(host)];
    assert UrlMember(body) == Str(host);
    FetchFailureStillPredicts(body, fetch, model);
    ExtractUrlFeatures(host, None);
  }
}
