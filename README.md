# ProgImage request logic in Dafny

ProgImage is an image service with two parts. The server (`progimage/src/progimage.py`)
accepts uploads and serves `/image` requests. Each request names a source image: an
uploaded `image_id` or a `url` to fetch. The server decodes the image and re-encodes it
with the requested `format` and the `compress_level` or `quality` options. Then it sends
the bytes through the transformation workers (filter, mask, rotate, thumbnail) in the
catalog's fixed order. The client (`api/src/api.py`) is the `ProgImageApi` class. It
builds form-urlencoded URLs against a reassignable `endpoint`, sends GET and POST
requests, and offers `get_image` and `upload_from_buffer`.

The model has six modules:

- `Common`: bytes, `Option` and `Result`, Python truthiness, and UTF-8 encoding and
  decoding.
- `PyInt`: Python's `int()` and `str()` on integers.
- `FormEncoding`: `urllib.parse.quote_plus` and `urlencode`, plus a query parser that
  follows the `application/x-www-form-urlencoded` parser of the WHATWG URL Standard,
  section 5.1. The parser is the inverse against which the round trip is proved. It
  differs from the Standard in one respect: where the Standard's UTF-8 decoding puts
  U+FFFD in place of a malformed byte sequence, the parser gives no result. Encoder
  output is always well-formed UTF-8, so the round trip never meets that case.
- `ByteStream`: an `io.BytesIO` class with a data buffer and a position.
- `ProgImage`: the server.
- `Api`: the client. `ProgImageApi` is a class with a mutable `endpoint` field.

The outside world appears as parameters:

- `fetch` stands for `requests.get(url).content`.
- `post` stands for `requests.post(url, files=...)` returning the reply's content.
- An `Imaging` value stands for the image library's decoder, encoder and compositing.
- The image store is a map from path to bytes.
- The fresh upload identifier is an argument.

On the client side, `_get` and `_post` return the request they would send.

Where the code and the repository's tests differ, the model follows the code. The
client requests `/image` on `http://web:5000` (api/src/api.py:11 and 49). The client
tests expect `/get_image` (api/src/test.py:7 and 104-119) and `localhost:5000`
(api/src/test.py:17-23).

The model also keeps these behaviours of the code:

- The server accepts a request that carries both `image_id` and `url`, and `image_id`
  wins.
- A transformation argument with an empty value is skipped, the same as an absent one.
- Worker replies are piped on without any status check.

## Model

| member | source | states |
|---|---|---|
| `ProgImage.ArgGetFirst` | progimage/src/progimage.py:92-93 | `request.args.get` finds the first pair with the key, and finds nothing exactly when no pair has that key |
| `ProgImage.ArgGetDistinct` | progimage/src/progimage.py:135 | when each key occurs once, `get` returns v exactly when (key, v) is among the arguments |
| `ProgImage.CatalogShape` | progimage/src/progimage.py:15-20 | the four catalog names are distinct, and every worker's query-argument name consists of unreserved characters |
| `ProgImage.NewInvalidUsage` | progimage/src/progimage.py:24-32 | the error keeps its message and payload; its status is 400 unless a status code is given, in which case it is that code |
| `ProgImage.ToDict` | progimage/src/progimage.py:34-37 | the dictionary has the payload's keys plus `message`; `message` maps to the message, and every other payload entry is kept |
| `ProgImage.StorePathOf` | progimage/src/progimage.py:59 | `os.path.join` of the image directory and a relative name is the directory, `/` and the name |
| `ProgImage.Upload` | progimage/src/progimage.py:49-60 | a missing `file` part raises `InvalidUsage` and an empty filename raises `BadPayload`, each with its message; otherwise the contents are stored under the new id, which is returned; success holds exactly when neither error applies |
| `ProgImage.GetInPath` | progimage/src/progimage.py:87-99 | an error exactly when neither `image_id` nor `url` is non-empty; otherwise `image_id` gives a store path and only a lone `url` is fetched |
| `ProgImage.GetInPathFetchesOnlyUrl` | progimage/src/progimage.py:97-99 | when `image_id` is given, or no source at all, the result does not depend on what fetching would return |
| `ProgImage.UploadThenResolve` | progimage/src/progimage.py:58-59 | after an upload, a request carrying the returned id resolves to a path whose stored bytes are the uploaded file |
| `ProgImage.Open` | progimage/src/progimage.py:82 | a store path that does not exist is `FileNotFound`; for stored or fetched bytes, opening succeeds exactly when the decoder accepts them, gives their decoded image, and is `Unidentified` otherwise |
| `ProgImage.GetFileConversionArgs` | progimage/src/progimage.py:102-111 | the loop computes `Collect` over the attributes `compress_level` and `quality` |
| `ProgImage.CollectErrSticks` | progimage/src/progimage.py:110 | once `int()` fails on an attribute, the error is the result whatever attributes follow |
| `ProgImage.CollectOk` | progimage/src/progimage.py:107-110 | the conversion succeeds exactly when no optional attribute has a non-empty value that `int()` rejects |
| `ProgImage.CollectKeys` | progimage/src/progimage.py:104-105 | a successful result maps `format` to the requested format, or else the detected one, and has no keys other than the attributes |
| `ProgImage.CollectValues` | progimage/src/progimage.py:107-110 | each attribute appears exactly when its value is non-empty, and then holds the integer `int()` reads from that value |
| `ProgImage.CollectErr` | progimage/src/progimage.py:110 | a failure is the `ValueError` for the value of the first attribute that `int()` rejects |
| `ProgImage.ConversionExample` | progimage/src/test.py:183-190 | `format=JPEG&quality=75`, with any spelling that `int()` reads as 75, gives `{"format": "JPEG", "quality": 75}` |
| `ProgImage.Save` | progimage/src/progimage.py:114-126 | succeeds exactly when `SaveResult` does, with its bytes as the stream's contents and its error otherwise: a successful encoding is the contents; on `OSError` an image with four bands is composited over white and encoded once more after the bytes already written, and fewer bands give `IndexError`; any other error propagates; a successful stream is rewound to 0 |
| `ProgImage.ConvertImage` | progimage/src/progimage.py:73-84 | succeeds exactly when `Convert` does, with its error otherwise; on success the stream is fresh, rewound to 0, holds the converted bytes, and the format is the converted one |
| `ProgImage.ConvertStages` | progimage/src/progimage.py:73-84 | the first failing stage decides the error: source selection, then `Image.open`, then `int()` in `get_file_conversion_args`, then `save`; when all succeed, the bytes are what `save` writes with the arguments `get_file_conversion_args` builds, and the format is their `format` entry |
| `ProgImage.CallWorkers` | progimage/src/progimage.py:134-140 | the loop's calls and final bytes are `Pipe` over the URLs of the requested entries, in order; with no call the same stream object comes back, otherwise a fresh stream at position 0 |
| `ProgImage.ApplyTransformations` | progimage/src/progimage.py:129-140 | `apply_transformations` is the loop over the fixed catalog |
| `ProgImage.ServeImage` | progimage/src/progimage.py:63-70 | succeeds exactly when the conversion does; a failed conversion makes no worker call and reports the conversion's error; on success the calls pipe the converted bytes through the planned URLs, the result is the last reply, and the format is the converted one |
| `ProgImage.PipeThreads` | progimage/src/progimage.py:139 | call k goes to URL k; the first call carries the input and each later call the previous reply; the result is the last reply |
| `ProgImage.PositionsMatch` | progimage/src/progimage.py:134-136 | the k-th requested step is the catalog entry at the k-th recorded position, and that entry's argument is non-empty |
| `ProgImage.PositionsIncrease` | progimage/src/progimage.py:134 | the recorded positions strictly increase |
| `ProgImage.PositionsComplete` | progimage/src/progimage.py:135-136 | every catalog entry with a non-empty argument has its position recorded |
| `ProgImage.CallsInCatalogOrder` | progimage/src/progimage.py:134-139 | workers are called in catalog order whatever the order of the arguments; call k goes to the k-th requested entry's worker with its value, and no requested entry is skipped |
| `ProgImage.OnlyCatalogArgsMatter` | progimage/src/progimage.py:134-136 | two requests that agree on the catalog names plan the same steps |
| `ProgImage.ArgumentOrderIrrelevant` | progimage/src/progimage.py:134-140 | reordering a request's arguments, with each key given once, changes neither the calls nor the result |
| `ProgImage.CallCount` | progimage/src/progimage.py:134-139 | there are as many worker calls as distinct catalog names with a non-empty argument |
| `ProgImage.NoTransformations` | progimage/src/progimage.py:134-140 | without any transformation argument no call is made and the payload comes back unchanged |
| `ProgImage.WorkerUrlShape` | progimage/src/progimage.py:137-138 | the worker URL is the endpoint, `?`, the query-argument name, `=` and the `quote_plus` of the value |
| `ProgImage.WorkerReadsValue` | progimage/src/progimage.py:137-138 | parsing the worker URL's query gives back exactly one pair: the query argument and the client's value |
| `ProgImage.RotateExample` | progimage/src/test.py:226-235 | `rotate=90` makes the single call `http://rotate:5001/rotate?degrees=90` with the payload, and the result is the worker's reply |
| `Common.Utf8RoundTrip` | progimage/src/progimage.py:137 | UTF-8 decoding undoes the encoding `quote_plus` applies to text |
| `PyInt.IntRoundTrip` | progimage/src/progimage.py:110 | `int(str(n)) == n` for every integer |
| `PyInt.NonNumericRejected` | progimage/src/progimage.py:110 | a value holding a character that is not whitespace, a digit, a sign or an underscore makes `int()` fail |
| `FormEncoding.QuotePlusRoundTrip` | progimage/src/progimage.py:137 | percent-decoding a `quote_plus` result gives back the original string |
| `FormEncoding.UrlencodeRoundTrip` | progimage/src/progimage.py:137 | parsing a `urlencode` result as the URL Standard prescribes recovers every pair, in order |
| `FormEncoding.UnreservedUnchanged` | api/src/api.py:16 | letters, digits and `-._~` pass through `quote_plus` unchanged |
| `FormEncoding.ReservedAsciiEscaped` | api/src/api.py:16 | any other ASCII character except space becomes `%` followed by two upper-case hex digits |
| `FormEncoding.SpaceAndPlus` | api/src/api.py:16 | a space becomes `+`, and `+` itself becomes `%2B` |
| `FormEncoding.NonAsciiEscaped` | api/src/api.py:16 | a non-ASCII character is escaped byte by byte, with no byte left bare |
| `FormEncoding.QuotePlusAppend` | api/src/api.py:16 | `quote_plus` of a concatenation is the concatenation of the two `quote_plus` results |
| `ByteStream.Overwrite` | progimage/src/progimage.py:117 | a write replaces the bytes at the position, grows the stream when it runs past the end, and fills any gap with zeros; the bytes before the position are unchanged |
| `ByteStream.BytesIO.Write` | progimage/src/progimage.py:117 | the contents become the overwrite at the old position, and the position moves past the bytes written |
| `ByteStream.BytesIO.Seek` | progimage/src/progimage.py:125 | the position becomes the target and the contents are unchanged |
| `Api.ProgImageApi.constructor` | api/src/api.py:11 | a new client's endpoint is `http://web:5000` |
| `Api.ProgImageApi.BuildUrl` | api/src/api.py:13-17 | with no argument dictionary, or an empty one, the URL is `endpoint + path`; otherwise it starts with `endpoint + path` followed by `?` |
| `Api.BuildUrlWithoutArgs` | api/src/test.py:17-28 | for every endpoint, including a reassigned one, the URL without a query is the endpoint followed by the path |
| `Api.BuildUrlQuery` | api/src/api.py:15-16 | what follows `?` parses back to every key with `str` of its value, in insertion order |
| `Api.QueryOfPlainArgs` | api/src/test.py:21-23 | `{rotate: 90, filter: "blur"}` and every dictionary of that shape become `?rotate=90&filter=blur`, the integer written by `str` |
| `Api.EncodedPath` | api/src/api.py:16 | a path of unreserved segments joined by `/` keeps every segment and has each `/` escaped as `%2F` |
| `Api.EncodedUrl` | api/src/test.py:30-37 | a URL with an unreserved scheme and any number of unreserved pieces between its `/` has `:` escaped as `%3A` and every `/` as `%2F`, with the pieces unchanged; the test's URL is of this shape |
| `Api.ProgImageApi.Get` | api/src/api.py:19-21 | a GET of the built URL, without files |
| `Api.ProgImageApi.Post` | api/src/api.py:23-25 | a POST of the built URL that forwards `files` unchanged |
| `Api.ProgImageApi.PostCall` | api/src/api.py:23 | the call raises `TypeError` exactly when the positional `query_args` is left out; otherwise it is the POST |
| `Api.ProgImageApi.UploadFromBufferAsWritten` | api/src/api.py:34-38 | as written, every upload raises `TypeError` before any request is sent |
| `Api.ProgImageApi.UploadFromBuffer` | api/src/api.py:34-38 | as intended, a POST to `endpoint + "/upload"` with no query, carrying the buffer as the `file` part |
| `Api.ProgImageApi.GetImage` | api/src/api.py:40-49 | `BadRequest` exactly when neither source is truthy; otherwise a GET of `/image` with the effect arguments followed by `image_id` when it is truthy, or else by `url` |
| `Api.GetImageOneSource` | api/src/test.py:94-119 | a successful `get_image` query parses to the effect arguments plus exactly one source key, last: `image_id` when it is truthy, otherwise `url` |
| `Api.GetImageKeepsDistinct` | api/src/api.py:41-45 | the source key `get_image` adds is new, so the arguments sent hold each key once when the effects do |

## Left out

- Flask routing, `send_file` and the response mimetype: `ServeImage` returns the stream and the format, and does not build the HTTP response.
- Writing to disk: `file.save` becomes an update of the store map. `uuid.uuid4()` becomes the `newId` argument of `Upload`.
- `requests`: the server's `fetch` and `post` are function parameters and only the response content is modelled. The client returns the request it would send, not a response.
- The read position of a stream given to `requests.post`: each worker receives whatever is unread in the current stream, and the stream's position after the call is not modelled.
- The image library is not modelled. Decoding, encoding and compositing over white are parameters, and pixel data is opaque.
- The transformation workers (`filter`, `mask`, `rotate`, `thumbnail`) are not part of this model. Only the URL and payload each one receives is modelled.
- `hello_world`, `upload_from_file`, the file opening it does and the client's `__main__` block: none of these is part of the request logic modelled here.
- Concurrency between requests, and exceptions a library raises beyond those listed in `ServerError` and `ClientError`.
- A reassignment `api.endpoint = ...` is an ordinary field update. There is no distinction between a class attribute and an instance attribute.
- Multi-valued `files` parts and form fields other than `file`.
- `PyInt.NonNumericRejected`: states the rejection for one bad character. It does not characterise everything `int()` rejects. Non-ASCII digits and whitespace, which Python also accepts, are not modelled.
- `FormEncoding.UrlencodeRoundTrip`: stated for `quote_plus` with its default safe set. `urlencode` options such as `doseq` and `safe` are not used by the source.
- `ProgImage.ArgumentOrderIrrelevant`: requires each key to occur once, because with a repeated key `get` takes the first occurrence, so order can matter.
- `ProgImage.WorkerUrlShape`: requires the query-argument name to be unreserved. `CatalogShape` proves this for every catalog entry.
- `ProgImage.CollectKeys`: requires that `format` is not among the attributes, which holds for `compress_level` and `quality`.
- `ProgImage.CollectValues`: requires that `format` is not among the attributes, which holds for `compress_level` and `quality`.
- `Api.ProgImageApi.GetImage`: requires that the effect arguments hold neither `image_id` nor `url`. Python binds those keywords to the named parameters, so they never reach `**transform_effects`.
- `Api.QueryOfPlainArgs`: requires keys and the string value to be unreserved. `FormEncoding.ReservedAsciiEscaped` and `FormEncoding.NonAsciiEscaped` cover the other characters.
- `Api.EncodedUrl`: requires the scheme and the pieces between the `/` to be unreserved. The URL of api/src/test.py:31 is of that shape; the lemma is not instantiated with that literal.
- `PyInt.ParseInt`: accepts decimal strings of any length. Python releases from 3.11, 3.10.7, 3.9.14, 3.8.14 and 3.7.14 on raise `ValueError` for more than 4300 digits, so a `quality` or `compress_level` that long fails there but succeeds in the model.
- `PyInt.IntRoundTrip`: holds for every integer in the model. On the Python releases named above, `str()` of an integer with more than 4300 digits raises `ValueError`, so there the round trip holds only up to that size.
- The query parser is the inverse of the encoder. It is not compared with the URL Standard's serializer, which keeps `*` unescaped and escapes `~`, whereas `quote_plus` does the opposite.

## Findings

| source | as written | input that shows it | evidently intended | confidence | as-written member | corrected member |
|---|---|---|---|---|---|---|
| api/src/api.py:38 | `upload_from_buffer` calls `self._post("/upload", files={"file": buffer})`, but `_post(self, path, query_args, files=None)` at api/src/api.py:23 has no default for `query_args`, so the call raises `TypeError` | any buffer, for example `upload_from_buffer(b"img")` | a POST to `/upload` without a query, carrying the buffer as `file` | high, not executed | `Api.ProgImageApi.UploadFromBufferAsWritten` | `Api.ProgImageApi.UploadFromBuffer` |
