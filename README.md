# Phishing URL back end: feature extraction and the prediction handler

This project models, in Dafny, the core of the Phishing-URL back end: the
function `extract_features`, which turns a URL into the eight-number row the
phishing classifier was trained on, and the `/predict` handler, which checks
the request's `url` member, extracts the features and answers with the
classifier's prediction or with an error.

The row is, in order: the number of lines of the fetched page, the length of
its longest line, the URL length, the number of `<img>` tags, the number of
anchors whose href points to another netloc, the ratio of special characters
in the URL, the ratio of letters in the URL, and the length of the URL's
netloc.

Modules, one per concern of the source:

- `Wrappers`: `Option` and `Result`.
- `Lines`: `bytes.splitlines()` over the page body (LF, CR and CR LF end a
  line; a final terminator adds no empty line) and the longest line.
- `CharClasses`: the ASCII classes behind the two regular expressions
  (`[a-zA-Z]` for letters, `[^a-zA-Z0-9]` for special characters, and the
  ASCII digits as the third class neither expression matches), their counts
  and the ratios with the zero-length guard.
- `UrlSplit`: the part of `urllib.parse.urlsplit` that decides the netloc,
  as of Python 3.12 (leading C0 controls and spaces stripped, tab/CR/LF removed, the scheme
  taken off, the authority after `//` up to the first `/`, `?` or `#`, and
  the `ValueError("Invalid IPv6 URL")` for unbalanced brackets, as a
  `Result` failure).
- `FeatureExtractor`: the `https://` default scheme, the external-reference
  filter, the specification function `Extract` and the method
  `ExtractFeatures`, which builds the row entry by entry as the source does
  and is proved equal to it.
- `PredictionService`: the handler over the decoded JSON object, with the
  page fetch and the classifier as function parameters.

The model follows the code on these points:

- The longest line is measured in bytes, because the page content is a
  `bytes` value and is split as bytes.
- Letters and digits are ASCII only, so every non-ASCII character counts as
  special.
- The handler answers 400 for every falsy `url` value (`0`, `false`, `[]`,
  `{}`, `""`, `null` or a missing member), not only a missing or empty one.
- A truthy `url` that is not a string reaches `startswith` and is answered
  with 500 and the AttributeError text.
- `urlparse` can raise on the URL or on an href (unbalanced brackets). The
  model keeps that error and it ends in the handler's 500 answer.

## Model

| member | source | states |
|---|---|---|
| FeatureExtractor.Normalize | BE/main.py:21-22 | the result starts with "http://" or "https://"; it equals the input exactly when the input already starts with one of them, otherwise it is "https://" followed by the input |
| FeatureExtractor.NormalizeIdempotent | BE/main.py:21-22 | normalizing an already normalized URL changes nothing |
| Lines.SplitLines | BE/main.py:35-36 | there are no lines exactly when the body is empty; no line holds a CR or LF and none is longer than the body |
| Lines.SplitLinesRoundTrip | BE/main.py:35 | the lines, each followed by LF, give back the body with every line break written as LF, plus one LF when the body is non-empty and its last byte is neither CR nor LF |
| Lines.TrailingBreakAddsNoLine | BE/main.py:35-36 | appending one LF, CR or CR LF to a body whose last line is unterminated yields the same lines |
| Lines.LargestLineLength | BE/main.py:40 | zero when there are no lines; otherwise at least the length of every line and equal to the length of one of them |
| CharClasses.Classify | BE/main.py:62-67 | every character above 0x7F is special; a digit is one of 0x30 to 0x39 |
| CharClasses.Count | BE/main.py:62-68 | the count is at most the length, and equals it exactly when every character is in the class |
| CharClasses.CountPartition | BE/main.py:62-68 | letters, digits and special characters together count every character once |
| CharClasses.Ratio | BE/main.py:63-68 | zero for a zero length; otherwise the ratio times the length is the count, and it lies in [0, 1] when the count does not exceed the length |
| CharClasses.RatiosSumToOne | BE/main.py:62-68 | for a non-empty URL the letter, digit and special ratios add up to exactly one |
| UrlSplit.Netloc | BE/main.py:56 | a netloc found is never longer than the URL |
| UrlSplit.NetlocShape | BE/main.py:56 | a netloc found holds no `/`, `?`, `#`, tab, CR or LF |
| UrlSplit.SchemeAuthority | BE/main.py:72 | after "scheme://" the authority holds no delimiter and is never longer than the tail; when the tail holds no tab, CR or LF, the authority is a prefix of the tail ending at the tail's end or at its first delimiter |
| UrlSplit.SchemeHostNetloc | BE/main.py:56 | for a valid scheme, a host holding no delimiter, tab, CR, LF or bracket, and a rest holding no tab, CR or LF that is empty or starts with a delimiter, the netloc of "scheme://" + host + rest is exactly the host |
| UrlSplit.PathOnlyNetloc | BE/main.py:57 | a string that starts with `/` whose second character, if any, is not `/`, tab, CR or LF has an empty netloc |
| FeatureExtractor.ExternalRefs | BE/main.py:57 | the external references found with the URL parser are never more than the hrefs |
| FeatureExtractor.FilterExternal | BE/main.py:57-58 | the external references are never more than the hrefs |
| FeatureExtractor.FilterExternalFailure | BE/main.py:57 | collecting fails exactly when parsing some href fails |
| FeatureExtractor.FilterExternalMembers | BE/main.py:57 | an href is collected exactly when it is one of the hrefs and its netloc differs from the page's |
| FeatureExtractor.FilterExternalAppend | BE/main.py:57 | filtering a concatenation is filtering each part and concatenating, so order is kept |
| FeatureExtractor.Extract | BE/main.py:19-77 | the URL length is that of the normalized URL and at least seven; the page features are zero when nothing was fetched; the external count is at most the number of hrefs |
| FeatureExtractor.ExtractFeatures | BE/main.py:19-77 | the list built entry by entry equals the row of the specification `Extract`, and has eight entries |
| FeatureExtractor.ExtractFailure | BE/main.py:56-57 | extraction fails exactly when the normalized URL, or an href of a fetched page, cannot be parsed |
| FeatureExtractor.FetchFailureFeatures | BE/main.py:43-59 | when the request raised, extraction succeeds exactly when the URL parses, and the two line features, the image count and the external count are zero |
| FeatureExtractor.UrlFeaturesIgnorePage | BE/main.py:47-73 | the URL length, both ratios and the domain length do not depend on the page |
| FeatureExtractor.LineFeatures | BE/main.py:34-41 | the line count is zero exactly when the body is empty; the longest line is no longer than the body and is zero when there are no lines |
| FeatureExtractor.SchemeUrlRatios | BE/main.py:61-69 | a URL with an http or https scheme is at least 7 long, has at least three special characters, a special ratio in (0, 1], a letter ratio in [0, 1], and the three ratios add up to one |
| FeatureExtractor.RatioFeatures | BE/main.py:61-69 | the same facts for the ratio features of every successful extraction |
| FeatureExtractor.DomainLengthBound | BE/main.py:71-73 | the domain length plus the seven characters of "http://" never exceeds the URL length |
| FeatureExtractor.BareHostDomain | BE/main.py:56 | a host holding no delimiter, tab, CR, LF or bracket, followed by a rest holding no tab, CR or LF that is empty or starts with a delimiter, and not already starting with "http://" or "https://", gets "https://" and its netloc is the host |
| FeatureExtractor.RelativeHrefIsExternal | BE/main.py:57 | an href that starts with `/` whose second character, if any, is not `/`, tab, CR or LF (such as "/local") counts as external on a page with a non-empty netloc, whenever the page's hrefs all parse |
| FeatureExtractor.ExternalRefExample | BE/main.py:55-58 | on a page at "example.com", the anchors "https://other.com/x" and "/local" are both external, giving a count of 2 |
| FeatureExtractor.ExampleComPage | BE/main.py:19-77 | "example.com" with the anchors "https://other.com/x" and "/local" gives two external references and a domain length of 11 |
| PredictionService.Truthy | BE/main.py:108 | a url value reads as false exactly when it is `None`, `False`, `0`, `0.0`, `""`, `[]` or `{}` |
| PredictionService.UrlMember | BE/main.py:107 | a missing member reads as false, and a value that reads as true is the body's "url" member |
| PredictionService.ServerError | BE/main.py:116-118 | a caught exception is answered with 500 and an error text that is the handler's prefix followed by the exception's own text |
| PredictionService.ServerErrorTexts | BE/main.py:111-118 | each 500 answer carries the prefix followed by the cause's text: the AttributeError text for a truthy url that is not a string, "Invalid IPv6 URL" when extraction fails, and the classifier's message when it fails on the row |
| PredictionService.Answer | BE/main.py:111-118 | the answer inside the try is 200 or 500, 200 exactly when it carries a prediction, and every 500 text starts with the prefix |
| PredictionService.Predict | BE/main.py:106-118 | 400 exactly when the url member is missing or falsy; every answer is 200, 400 or 500; 200 exactly when it carries a prediction |
| PredictionService.MissingUrlIsRejected | BE/main.py:107-109 | a missing or falsy url gets the 400 message whatever the fetch and the classifier would do |
| PredictionService.PredictSucceeds | BE/main.py:111-115 | 200 exactly when the url is a non-empty string, features are extracted and the classifier accepts the row; the prediction is the classifier's output |
| PredictionService.ServerErrorsArePrefixed | BE/main.py:116-118 | every 500 answer's error text starts with the handler's prefix |
| PredictionService.FetchFailureStillPredicts | BE/main.py:112-115 | when the url is a non-empty string whose normalized form parses, a fetch that raised still gives an eight-entry row with zero page features, and the answer is 200 exactly when the classifier accepts it |
| PredictionService.BareHostOffline | BE/main.py:106-115 | for {"url": host} with a failing fetch, the row has URL length host+8, domain length host and zero page features, and the answer is 200 exactly when the classifier accepts it |

## Left out

- The Flask application, the Swagger documentation, `jsonify` and the
  server start-up are not modelled. A body that is not a JSON object fails
  before the handler's `try`; the model starts from the decoded object.
- Loading the classifier with `joblib` and its internals: the classifier is
  a function parameter that yields a prediction or an exception text.
- `requests.get`: the network fetch is a function parameter that yields the
  page, or `None` when a `RequestException` was raised. Any other exception
  the fetch raises is not caught by the extractor and would end in the
  handler's 500 answer; that path is not modelled. A request that hangs
  for lack of a timeout is not modelled.
- BeautifulSoup and lxml: a page is reduced to its body bytes, its `<img>`
  count and the hrefs of its anchors in document order. Parser errors that
  escape the `try` are not modelled.
- Floating point: features and ratios are exact reals, so float rounding of
  the two ratios is not modelled.
- The two `print` calls write diagnostic output only and are not modelled.
- UrlSplit.Netloc: the IPv6 literal validation of bracketed netlocs and the
  NFKC check of non-ASCII netlocs are not modelled; only the unbalanced
  bracket error is.
- UrlSplit.Netloc: scheme lowercasing, `urlparse`'s `params` split and the
  path, query and fragment are not modelled, because the features read only
  the netloc.
