/** The ProgImage client: a `ProgImageApi` object whose `endpoint` callers may
    reassign, the URL builder that appends a form-urlencoded query to
    `endpoint + path`, the GET and POST requests it sends there, the upload
    of an in-memory buffer, and `get_image`, which adds the image source to
    the transformation arguments.

    The network is not modelled: `_get` and `_post` give the request that
    `requests.get` and `requests.post` would send. */
module Api {
  import opened Common
  import opened PyInt
  import opened FormEncoding

  // ---------------------------------------------------------------------
  // Python values

  /** The Python values a caller passes as query arguments. */
  datatype Value = Str(s: string) | Int(i: int) | Bool(b: bool) | Null

  /** `str(v)`, which `urlencode` applies to every value that is not already
      a string. */
  function ToStr(v: Value): (r: string)
    ensures v.Str? ==> r == v.s
  {
    match v
    case Str(s) => s
    case Int(i) => IntToStr(i)
    case Bool(b) => if b then "True" else "False"
    case Null => "None"
  }

  /** Python's truth test: a non-empty string, a non-zero integer, `True`. */
  predicate IsTrue(v: Value)
  {
    match v
    case Str(s) => s != ""
    case Int(i) => i != 0
    case Bool(b) => b
    case Null => false
  }

  /** A Python `dict` of keyword arguments, in insertion order. A Python
      dict holds each key once; a contract that relies on that says so with
      `DistinctKeys`. */
  type Dict = seq<(string, Value)>

  predicate DistinctKeys(d: Dict)
  {
    forall i, j :: 0 <= i < j < |d| ==> d[i].0 != d[j].0
  }

  predicate HasKey(d: Dict, k: string)
  {
    exists i :: 0 <= i < |d| && d[i].0 == k
  }

  lemma {:induction false} HasKeyAppend(d: Dict, p: (string, Value), k: string)
    ensures HasKey(d + [p], k) <==> HasKey(d, k) || p.0 == k
  {
    var e := d + [p];
    if HasKey(e, k) {
      var i :| 0 <= i < |e| && e[i].0 == k;
      if i < |d| {
        assert d[i].0 == k;
      }
    }
    if HasKey(d, k) {
      var i :| 0 <= i < |d| && d[i].0 == k;
      assert e[i].0 == k;
    }
    assert e[|d|] == p;
  }

  /** The pairs `urlencode` serialises: each key with `str` of its value. */
  function Stringified(d: Dict): (r: seq<(string, string)>)
    ensures |r| == |d|
    ensures forall i :: 0 <= i < |d| ==> r[i] == (d[i].0, ToStr(d[i].1))
  {
    if d == [] then [] else [(d[0].0, ToStr(d[0].1))] + Stringified(d[1..])
  }

  /** Whether `if query_args:` holds: an argument dictionary that is given
      and not empty. */
  predicate HasArgs(queryArgs: Option<Dict>)
  {
    queryArgs.Some? && queryArgs.value != []
  }

  // ---------------------------------------------------------------------
  // Requests

  datatype Verb = GET | POST

  /** The `files` of a multipart POST: form field name to contents. */
  type Files = map<string, seq<byte>>

  /** The request `requests.get(url)` or `requests.post(url, files=files)`
      sends. */
  datatype Request = Request(verb: Verb, url: string, files: Option<Files>)

  datatype ClientError = BadRequest(message: string) | TypeError(message: string)

  const DefaultEndpoint: string := "http://web:5000"
  const MissingSourceMessage: string := "Must include an image_id or url when using get_image"
  const MissingQueryArgsMessage: string := "_post() missing 1 required positional argument: 'query_args'"

  class ProgImageApi {
    /** The server address; a class attribute that callers may reassign. */
    var endpoint: string

    constructor ()
      ensures endpoint == DefaultEndpoint
    {
      endpoint := DefaultEndpoint;
    }

    /** `_build_url(path, query_args=None)`: the endpoint and the path, then,
        when there are query arguments, `?` and their serialisation. */
    function BuildUrl(path: string, queryArgs: Option<Dict>): (url: string)
      reads this
      ensures !HasArgs(queryArgs) ==> url == endpoint + path
      ensures HasArgs(queryArgs) ==>
                |url| > |endpoint + path| && url[..|endpoint + path|] == endpoint + path
                && url[|endpoint + path|] == '?'
    {
      var base := endpoint + path;
      if HasArgs(queryArgs) then base + "?" + Urlencode(Stringified(queryArgs.value)) else base
    }

    /** `_get(path, query_args)`: a GET of the built URL, without files. */
    function Get(path: string, queryArgs: Option<Dict>): (r: Request)
      reads this
      ensures r.verb == GET && r.url == BuildUrl(path, queryArgs) && r.files.None?
    {
      Request(GET, BuildUrl(path, queryArgs), None)
    }

    /** `_post(path, query_args, files=None)`: a POST of the built URL that
        forwards `files` unchanged. */
    function Post(path: string, queryArgs: Option<Dict>, files: Option<Files>): (r: Request)
      reads this
      ensures r.verb == POST && r.url == BuildUrl(path, queryArgs) && r.files == files
    {
      Request(POST, BuildUrl(path, queryArgs), files)
    }

    /** A call of `_post` as Python binds its arguments: `queryArgs` is None
        when the caller leaves out the positional `query_args`, which has no
        default, and the call then raises `TypeError`. */
    function PostCall(path: string, queryArgs: Option<Option<Dict>>, files: Option<Files>)
      : (r: Result<Request, ClientError>)
      reads this
      ensures r.Err? <==> queryArgs.None?
      ensures r.Err? ==> r.error == TypeError(MissingQueryArgsMessage)
      ensures r.Ok? ==> r.value == Post(path, queryArgs.value, files)
    {
      if queryArgs.None? then Err(TypeError(MissingQueryArgsMessage))
      else Ok(Post(path, queryArgs.value, files))
    }

    /** `upload_from_buffer(buffer)` as written: `_post("/upload",
        files={"file": buffer})`, which leaves out `query_args`. */
    function UploadFromBufferAsWritten(buffer: seq<byte>): (r: Result<Request, ClientError>)
      reads this
      ensures r == Err(TypeError(MissingQueryArgsMessage))
    {
      PostCall("/upload", None, Some(map["file" := buffer]))
    }

    /** `upload_from_buffer(buffer)` as intended: a POST to `/upload`, with no
        query, carrying the buffer as the `file` part. */
    function UploadFromBuffer(buffer: seq<byte>): (r: Request)
      reads this
      ensures r.verb == POST && r.url == endpoint + "/upload"
      ensures r.files == Some(map["file" := buffer])
    {
      var call := PostCall("/upload", Some(None), Some(map["file" := buffer]));
      call.value
    }

    /** `get_image(image_id=None, url=None, **transform_effects)`: add
        `image_id` when it is truthy, else `url` when it is, to the effect
        arguments, and GET `/image` with them; with neither, `BadRequest` and
        no request. Python binds the keywords `image_id` and `url` to the
        parameters, so the effect arguments never hold those keys. */
    method GetImage(imageId: Value, url: Value, transformEffects: Dict)
      returns (r: Result<Request, ClientError>)
      requires !HasKey(transformEffects, "image_id") && !HasKey(transformEffects, "url")
      ensures r.Err? <==> !IsTrue(imageId) && !IsTrue(url)
      ensures r.Err? ==> r.error == BadRequest(MissingSourceMessage)
      ensures IsTrue(imageId) ==>
                r == Ok(Get("/image", Some(transformEffects + [("image_id", imageId)])))
      ensures !IsTrue(imageId) && IsTrue(url) ==>
                r == Ok(Get("/image", Some(transformEffects + [("url", url)])))
    {
      // the keys are new, so setting them appends
      var kwargs := transformEffects;
      if IsTrue(imageId) {
        kwargs := kwargs + [("image_id", imageId)];
      } else if IsTrue(url) {
        kwargs := kwargs + [("url", url)];
      }
      if !(IsTrue(imageId) || IsTrue(url)) {
        return Err(BadRequest(MissingSourceMessage));
      }
      return Ok(Get("/image", Some(kwargs)));
    }
  }

  // ---------------------------------------------------------------------
  // Properties of the URL builder

  /** Without query arguments, or with an empty dictionary, the URL is the
      endpoint followed by the path, whatever the endpoint is. */
  lemma BuildUrlWithoutArgs(api: ProgImageApi, path: string)
    ensures api.BuildUrl(path, None) == api.endpoint + path
    ensures api.BuildUrl(path, Some([])) == api.endpoint + path
  {
  }

  /** With query arguments, what follows `?` parses, as the URL Standard
      prescribes, back into every key with the string of its value, in
      insertion order. */
  lemma BuildUrlQuery(api: ProgImageApi, path: string, queryArgs: Dict)
    requires queryArgs != []
    ensures var base := api.endpoint + path;
      var url := api.BuildUrl(path, Some(queryArgs));
      ParseQuery(url[|base| + 1..]) == Some(Stringified(queryArgs))
  {
    var base := api.endpoint + path;
    var q := Urlencode(Stringified(queryArgs));
    assert api.BuildUrl(path, Some(queryArgs))[|base| + 1..] == q;
    UrlencodeRoundTrip(Stringified(queryArgs));
  }

  lemma {:induction false} StringifiedAppend(d: Dict, p: (string, Value))
    ensures Stringified(d + [p]) == Stringified(d) + [(p.0, ToStr(p.1))]
  {
  }

  /** A successful `get_image` sends exactly one source key, last, after the
      effect arguments in their order: `image_id` when it is truthy,
      otherwise `url`. */
  lemma GetImageOneSource(api: ProgImageApi, imageId: Value, url: Value, transformEffects: Dict)
    requires !HasKey(transformEffects, "image_id") && !HasKey(transformEffects, "url")
    requires IsTrue(imageId) || IsTrue(url)
    ensures var source := if IsTrue(imageId) then ("image_id", imageId) else ("url", url);
      var request := api.Get("/image", Some(transformEffects + [source]));
      var base := api.endpoint + "/image";
      && request.url[..|base|] == base
      && ParseQuery(request.url[|base| + 1..]) == Some(Stringified(transformEffects) + [(source.0, ToStr(source.1))])
      && (HasKey(transformEffects + [source], "image_id") <==> IsTrue(imageId))
      && (HasKey(transformEffects + [source], "url") <==> !IsTrue(imageId))
  {
    var source := if IsTrue(imageId) then ("image_id", imageId) else ("url", url);
    var d := transformEffects + [source];
    BuildUrlQuery(api, "/image", d);
    StringifiedAppend(transformEffects, source);
    HasKeyAppend(transformEffects, source, "image_id");
    HasKeyAppend(transformEffects, source, "url");
  }

  /** The dictionary `get_image` sends stays a dictionary: the source key is
      new, so every key still occurs once. */
  lemma GetImageKeepsDistinct(transformEffects: Dict, source: (string, Value))
    requires !HasKey(transformEffects, "image_id") && !HasKey(transformEffects, "url")
    requires source.0 == "image_id" || source.0 == "url"
    requires DistinctKeys(transformEffects)
    ensures DistinctKeys(transformEffects + [source])
  {
    var d := transformEffects + [source];
    forall i, j | 0 <= i < j < |d| ensures d[i].0 != d[j].0 {
      if j == |transformEffects| {
        assert d[i] == transformEffects[i];
      } else {
        assert d[i] == transformEffects[i] && d[j] == transformEffects[j];
      }
    }
  }

  /** Keys and a value made of unreserved characters, and an integer, pass
      into the query as they are: for example `{rotate: 90, filter: "blur"}`
      becomes `?rotate=90&filter=blur`. */
  lemma QueryOfPlainArgs(api: ProgImageApi, path: string, k1: string, n: int, k2: string, v2: string)
    requires forall i :: 0 <= i < |k1| ==> IsUnreservedChar(k1[i])
    requires forall i :: 0 <= i < |k2| ==> IsUnreservedChar(k2[i])
    requires forall i :: 0 <= i < |v2| ==> IsUnreservedChar(v2[i])
    ensures api.BuildUrl(path, Some([(k1, Int(n)), (k2, Str(v2))]))
            == api.endpoint + path + "?" + (k1 + "=" + IntToStr(n) + "&" + k2 + "=" + v2)
  {
    var d := [(k1, Int(n)), (k2, Str(v2))];
    var v1 := IntToStr(n);
    assert Stringified(d) == [(k1, v1), (k2, v2)];
    IntToStrPlain(n);
    PlainPairs(k1, v1, k2, v2);
  }

  lemma PlainPairs(k1: string, v1: string, k2: string, v2: string)
    requires forall i :: 0 <= i < |k1| ==> IsUnreservedChar(k1[i])
    requires forall i :: 0 <= i < |v1| ==> IsUnreservedChar(v1[i])
    requires forall i :: 0 <= i < |k2| ==> IsUnreservedChar(k2[i])
    requires forall i :: 0 <= i < |v2| ==> IsUnreservedChar(v2[i])
    ensures Urlencode([(k1, v1), (k2, v2)]) == k1 + "=" + v1 + "&" + k2 + "=" + v2
  {
    UnreservedUnchanged(k1);
    UnreservedUnchanged(v1);
    UnreservedUnchanged(k2);
    UnreservedUnchanged(v2);
    UrlencodeTwo(k1, v1, k2, v2);
  }

  /** `str` of a non-negative integer is its digits, all unreserved; a
      negative one starts with `-`, unreserved as well. */
  lemma IntToStrPlain(n: int)
    ensures forall i :: 0 <= i < |IntToStr(n)| ==> IsUnreservedChar(IntToStr(n)[i])
  {
    var d := NatToDigits(if n < 0 then -n else n);
    assert forall i :: 0 <= i < |d| ==> IsUnreservedChar(d[i]);
  }

  /** `sep.join(parts)` with a separator of several characters. */
  function JoinWith(parts: seq<string>, sep: string): string
  {
    if |parts| == 0 then ""
    else if |parts| == 1 then parts[0]
    else parts[0] + sep + JoinWith(parts[1..], sep)
  }

  predicate Unreserved(s: string)
  {
    forall i :: 0 <= i < |s| ==> IsUnreservedChar(s[i])
  }

  /** A path of unreserved segments keeps its segments and has each `/`
      escaped as `%2F`. */
  lemma {:induction false} EncodedPath(segments: seq<string>)
    requires forall k :: 0 <= k < |segments| ==> Unreserved(segments[k])
    ensures QuotePlus(Join(segments, '/')) == JoinWith(segments, "%2F")
    decreases |segments|
  {
    if |segments| == 1 {
      UnreservedUnchanged(segments[0]);
    } else if |segments| > 1 {
      var head := segments[0];
      var rest := Join(segments[1..], '/');
      EncodedPath(segments[1..]);
      UnreservedUnchanged(head);
      QuotePlusAppend(head + "/", rest);
      QuotePlusAppend(head, "/");
      ColonAndSlash();
      assert Join(segments, '/') == (head + "/") + rest;
    }
  }

  /** A URL as a query value: `:` and every `/` are escaped and the
      unreserved pieces between them pass through, so
      `https://pbs.twimg.com/profile_images/3543879283/1509e34005183da5ea4eb29150f341e5_400x400.jpeg`,
      whose pieces after `https:` are two empty ones, the host and three
      path segments, becomes
      `https%3A%2F%2Fpbs.twimg.com%2Fprofile_images%2F3543879283%2F1509e34005183da5ea4eb29150f341e5_400x400.jpeg`. */
  lemma EncodedUrl(scheme: string, segments: seq<string>)
    requires Unreserved(scheme)
    requires forall k :: 0 <= k < |segments| ==> Unreserved(segments[k])
    ensures QuotePlus(scheme + ":" + Join(segments, '/')) == scheme + "%3A" + JoinWith(segments, "%2F")
  {
    QuotePlusAppend(scheme + ":", Join(segments, '/'));
    QuotePlusAppend(scheme, ":");
    UnreservedUnchanged(scheme);
    ColonAndSlash();
    EncodedPath(segments);
  }
}
