/** The request logic of the ProgImage server: the effect catalog, the error
    value its handlers raise, upload validation, choosing the source image,
    deriving the encoder arguments, encoding with one fallback, and the
    orchestrator that pipes the image through the transformation workers in
    catalog order.

    The libraries the server calls are parameters: `fetch` stands for
    `requests.get(url).content`, `post` for
    `requests.post(url, files={"file": buffer}).content`, and an `Imaging`
    value for the image library (decoding, encoding, and compositing over
    white). The image store is a map from file path to bytes. */
module ProgImage {
  import opened Common
  import opened PyInt
  import opened FormEncoding
  import opened ByteStream

  // ---------------------------------------------------------------------
  // Request arguments

  /** The query arguments of a request, in the order the client sent them. */
  type Args = seq<(string, string)>

  /** `request.args.get(key)`: the value of the first argument with that key. */
  function ArgGet(args: Args, key: string): Option<string>
  {
    if args == [] then None
    else if args[0].0 == key then Some(args[0].1)
    else ArgGet(args[1..], key)
  }

  /** `get` finds the first argument with the key, and finds nothing only when
      no argument has it. */
  lemma {:induction false} ArgGetFirst(args: Args, key: string)
    ensures ArgGet(args, key).None? <==> forall i :: 0 <= i < |args| ==> args[i].0 != key
    ensures ArgGet(args, key).Some? ==>
              exists i :: 0 <= i < |args| && args[i] == (key, ArgGet(args, key).value)
                          && forall j :: 0 <= j < i ==> args[j].0 != key
  {
    if args != [] && args[0].0 != key {
      var tail := args[1..];
      ArgGetFirst(tail, key);
      assert forall i :: 0 < i < |args| ==> args[i] == tail[i - 1];
      if ArgGet(tail, key).Some? {
        var i :| 0 <= i < |tail| && tail[i] == (key, ArgGet(tail, key).value)
                 && forall j :: 0 <= j < i ==> tail[j].0 != key;
        assert args[i + 1] == tail[i];
      }
    }
  }

  predicate DistinctKeys(args: Args)
  {
    forall i, j :: 0 <= i < j < |args| ==> args[i].0 != args[j].0
  }

  /** When every key occurs once, `get` returns the value paired with the key. */
  lemma ArgGetDistinct(args: Args, key: string, value: string)
    requires DistinctKeys(args)
    ensures ArgGet(args, key) == Some(value) <==> (key, value) in args
  {
    ArgGetFirst(args, key);
    if (key, value) in args {
      var i :| 0 <= i < |args| && args[i] == (key, value);
      var r := ArgGet(args, key);
      assert r.Some?;
      var i' :| 0 <= i' < |args| && args[i'] == (key, r.value)
                && forall j :: 0 <= j < i' ==> args[j].0 != key;
      assert i' == i;
    }
  }

  // ---------------------------------------------------------------------
  // Effect catalog

  /** One transformation: the worker's address and the one query argument
      the worker reads its parameter from. */
  datatype CatalogEntry = CatalogEntry(name: string, endpoint: string, queryArg: string)

  /** `TRANSFORMATIONS`, in its fixed order. */
  const Transformations: seq<CatalogEntry> := [
    CatalogEntry("filter", "http://filter:5003/filter", "effect"),
    CatalogEntry("mask", "http://mask:5004/mask", "shape"),
    CatalogEntry("rotate", "http://rotate:5001/rotate", "degrees"),
    CatalogEntry("thumbnail", "http://thumbnail:5002/thumbnail", "size")
  ]

  predicate DistinctNames(entries: seq<CatalogEntry>)
  {
    forall i, j :: 0 <= i < j < |entries| ==> entries[i].name != entries[j].name
  }

  lemma CatalogShape()
    ensures DistinctNames(Transformations)
    ensures forall i :: 0 <= i < |Transformations| ==>
              forall k :: 0 <= k < |Transformations[i].queryArg| ==>
                IsUnreservedChar(Transformations[i].queryArg[k])
  {
  }

  /** The `app.config["IMAGES"]` directory of the image store. */
  const Images: string := "/images"

  // ---------------------------------------------------------------------
  // The error value

  /** `InvalidUsage`, and its subclass `BadPayload`. */
  datatype UsageKind = InvalidUsageKind | BadPayloadKind

  datatype InvalidUsage = InvalidUsage(
    kind: UsageKind, message: string, statusCode: int, payload: Option<map<string, string>>)

  const DefaultStatusCode: int := 400

  /** `InvalidUsage(message, status_code, payload)`: the status is 400 unless
      one is given. */
  function NewInvalidUsage(kind: UsageKind, message: string, statusCode: Option<int>,
                           payload: Option<map<string, string>>): (e: InvalidUsage)
    ensures e.kind == kind && e.message == message && e.payload == payload
    ensures statusCode.None? ==> e.statusCode == DefaultStatusCode
    ensures statusCode.Some? ==> e.statusCode == statusCode.value
  {
    InvalidUsage(kind, message, if statusCode.Some? then statusCode.value else DefaultStatusCode, payload)
  }

  /** `to_dict()`: the payload's entries with `message` set to the message. */
  function ToDict(e: InvalidUsage): (r: map<string, string>)
    ensures var p := if e.payload.Some? then e.payload.value else map[];
      && r.Keys == p.Keys + {"message"}
      && r["message"] == e.message
      && forall k :: k in p && k != "message" ==> r[k] == p[k]
  {
    var p := if e.payload.Some? then e.payload.value else map[];
    p["message" := e.message]
  }

  /** What a request of the server can fail with. */
  datatype ServerError =
    | Raised(usage: InvalidUsage)   // InvalidUsage or BadPayload
    | FileNotFound(path: string)    // Image.open of a path the store lacks
    | Unidentified                  // bytes the image library cannot decode
    | ValueError(literal: string)   // int() of a value that is not an integer
    | SaveFailed(cause: SaveError)  // an exception from the encoder
    | IndexError                    // split()[3] of an image without a fourth band

  datatype SaveError = OSError | OtherSaveError

  // ---------------------------------------------------------------------
  // Upload

  datatype FilePart = FilePart(filename: string, content: seq<byte>)

  /** The image store: file path to contents. */
  type Store = map<string, seq<byte>>

  const NoFilePartMessage: string := "The payload must contain a file in requestfiles with the key 'file'"
  const EmptyFilenameMessage: string := "There was no uploaded file"

  /** `os.path.join(a, b)` on POSIX. */
  function PathJoin(a: string, b: string): (r: string)
  {
    if |b| > 0 && b[0] == '/' then b
    else if a == [] || a[|a| - 1] == '/' then a + b
    else a + "/" + b
  }

  /** A relative name lands inside the store directory. */
  lemma StorePathOf(id: string)
    requires id == [] || id[0] != '/'
    ensures PathJoin(Images, id) == Images + "/" + id
  {
  }

  /** `upload()`: the multipart form must have a `file` part, and the part must
      have a filename; the file is then stored under the fresh identifier
      `newId` (the caller's `uuid4`), which is returned. */
  function Upload(files: map<string, FilePart>, newId: string, store: Store)
    : (r: Result<(string, Store), ServerError>)
    ensures "file" !in files ==>
              r == Err(Raised(NewInvalidUsage(InvalidUsageKind, NoFilePartMessage, None, None)))
    ensures "file" in files && files["file"].filename == "" ==>
              r == Err(Raised(NewInvalidUsage(BadPayloadKind, EmptyFilenameMessage, None, None)))
    ensures r.Ok? <==> "file" in files && files["file"].filename != ""
    ensures r.Ok? ==> r.value.0 == newId
    ensures r.Ok? ==> r.value.1 == store[PathJoin(Images, newId) := files["file"].content]
  {
    if "file" !in files then
      Err(Raised(NewInvalidUsage(InvalidUsageKind, NoFilePartMessage, None, None)))
    else
      var file := files["file"];
      if file.filename == "" then
        Err(Raised(NewInvalidUsage(BadPayloadKind, EmptyFilenameMessage, None, None)))
      else
        Ok((newId, store[PathJoin(Images, newId) := file.content]))
  }

  // ---------------------------------------------------------------------
  // Source selection

  /** What `get_in_path` hands to `Image.open`: a path in the store, or the
      bytes fetched from the URL wrapped in a stream. */
  datatype InPath = StorePath(path: string) | Fetched(content: seq<byte>)

  const MissingSourceMessage: string := "You must include an image_id or url get parameter."

  /** `get_in_path(request)`: an error when neither `image_id` nor `url` is a
      non-empty argument; otherwise `image_id` wins, and only without it is
      the URL fetched. */
  function GetInPath(args: Args, fetch: string -> seq<byte>): (r: Result<InPath, ServerError>)
    ensures r.Err? <==> !Truthy(ArgGet(args, "image_id")) && !Truthy(ArgGet(args, "url"))
    ensures r.Err? ==> r.error == Raised(NewInvalidUsage(InvalidUsageKind, MissingSourceMessage, None, None))
    ensures Truthy(ArgGet(args, "image_id")) ==>
              r == Ok(StorePath(PathJoin(Images, ArgGet(args, "image_id").value)))
    ensures !Truthy(ArgGet(args, "image_id")) && Truthy(ArgGet(args, "url")) ==>
              r == Ok(Fetched(fetch(ArgGet(args, "url").value)))
  {
    var imageId := ArgGet(args, "image_id");
    var url := ArgGet(args, "url");
    if !(Truthy(imageId) || Truthy(url)) then
      Err(Raised(NewInvalidUsage(InvalidUsageKind, MissingSourceMessage, None, None)))
    else if Truthy(imageId) then
      Ok(StorePath(PathJoin(Images, imageId.value)))
    else
      Ok(Fetched(fetch(url.value)))
  }

  /** The URL is fetched only when it is the source used: with an `image_id`,
      or with neither argument, the result does not depend on `fetch`. */
  lemma GetInPathFetchesOnlyUrl(args: Args, fetch1: string -> seq<byte>, fetch2: string -> seq<byte>)
    requires Truthy(ArgGet(args, "image_id")) || !Truthy(ArgGet(args, "url"))
    ensures GetInPath(args, fetch1) == GetInPath(args, fetch2)
  {
  }

  /** An uploaded file is what a later request with its identifier reads. */
  lemma UploadThenResolve(files: map<string, FilePart>, newId: string, store: Store,
                          args: Args, fetch: string -> seq<byte>)
    requires Upload(files, newId, store).Ok?
    requires ArgGet(args, "image_id") == Some(newId) && newId != ""
    ensures GetInPath(args, fetch).Ok? && GetInPath(args, fetch).value.StorePath?
    ensures var p := GetInPath(args, fetch).value.path;
      var s := Upload(files, newId, store).value.1;
      p in s && s[p] == files["file"].content
  {
  }

  // ---------------------------------------------------------------------
  // The image library, as parameters

  /** A decoded image: the format the decoder detected, its size, its number
      of bands, and its raster. */
  datatype Image = Image(format: string, width: nat, height: nat, bands: nat, raster: seq<byte>)

  /** The options `save` forwards to the encoder: `format` and, when given,
      `compress_level` and `quality`. */
  datatype ConversionArg = Text(text: string) | Number(number: int)

  type ConversionArgs = map<string, ConversionArg>

  /** The result of one call of the encoder. A failure keeps whatever bytes
      the encoder had already written to the stream. */
  datatype EncodeOutcome = Encoded(bytes: seq<byte>) | EncodeFailed(error: SaveError, written: seq<byte>)

  datatype Imaging = Imaging(
    decode: seq<byte> -> Option<Image>,
    encode: (Image, ConversionArgs) -> EncodeOutcome,
    flattenOnWhite: Image -> Image)

  /** `Image.open(in_path)`: read the file from the store, or take the fetched
      bytes, and decode them. */
  function Open(inPath: InPath, store: Store, lib: Imaging): (r: Result<Image, ServerError>)
    ensures inPath.StorePath? && inPath.path !in store ==> r == Err(FileNotFound(inPath.path))
    ensures inPath.Fetched? || inPath.path in store ==>
      var bytes := if inPath.StorePath? then store[inPath.path] else inPath.content;
      && (r.Ok? <==> lib.decode(bytes).Some?)
      && (lib.decode(bytes).None? ==> r == Err(Unidentified))
      && (r.Ok? ==> lib.decode(bytes) == Some(r.value))
  {
    match inPath
    case StorePath(p) =>
      if p !in store then Err(FileNotFound(p)) else Decode(store[p], lib)
    case Fetched(b) => Decode(b, lib)
  }

  function Decode(bytes: seq<byte>, lib: Imaging): (r: Result<Image, ServerError>)
  {
    match lib.decode(bytes)
    case None => Err(Unidentified)
    case Some(im) => Ok(im)
  }

  // ---------------------------------------------------------------------
  // Conversion arguments

  const OptionalAttributes: seq<string> := ["compress_level", "quality"]

  /** The output format: the `format` argument, or else the detected format. */
  function RequestedFormat(args: Args, im: Image): string
  {
    if Truthy(ArgGet(args, "format")) then ArgGet(args, "format").value else im.format
  }

  /** An optional attribute whose non-empty value `int()` rejects. */
  predicate BadOption(args: Args, attribute: string)
  {
    Truthy(ArgGet(args, attribute)) && ParseInt(ArgGet(args, attribute).value).None?
  }

  /** What `get_file_conversion_args` builds from a list of optional
      attributes, taken in order: the output format, then each attribute
      given a non-empty value as the integer `int()` makes of it; the first
      value `int()` rejects is a `ValueError` instead. */
  function Collect(attributes: seq<string>, args: Args, im: Image): Result<ConversionArgs, ServerError>
    decreases |attributes|
  {
    if attributes == [] then Ok(map["format" := Text(RequestedFormat(args, im))])
    else
      var n := |attributes| - 1;
      match Collect(attributes[..n], args, im)
      case Err(e) => Err(e)
      case Ok(m) =>
        var v := ArgGet(args, attributes[n]);
        if !Truthy(v) then Ok(m)
        else match ParseInt(v.value)
          case None => Err(ValueError(v.value))
          case Some(k) => Ok(m[attributes[n] := Number(k)])
  }

  /** `get_file_conversion_args(request, im)`. */
  method GetFileConversionArgs(args: Args, im: Image) returns (r: Result<ConversionArgs, ServerError>)
    ensures r == Collect(OptionalAttributes, args, im)
  {
    var conversionArgs: ConversionArgs := map["format" := Text(RequestedFormat(args, im))];
    for i := 0 to |OptionalAttributes|
      invariant Collect(OptionalAttributes[..i], args, im) == Ok(conversionArgs)
    {
      assert OptionalAttributes[..i + 1][..i] == OptionalAttributes[..i];
      var attribute := OptionalAttributes[i];
      var value := ArgGet(args, attribute);
      if Truthy(value) {
        var n := ParseInt(value.value);
        if n.None? {
          CollectErrSticks(OptionalAttributes, i + 1, args, im);
          return Err(ValueError(value.value));
        }
        conversionArgs := conversionArgs[attribute := Number(n.value)];
      }
    }
    assert OptionalAttributes[..|OptionalAttributes|] == OptionalAttributes;
    return Ok(conversionArgs);
  }

  /** An error in a prefix of the attributes is the error of the whole list. */
  lemma {:induction false} CollectErrSticks(attributes: seq<string>, i: nat, args: Args, im: Image)
    requires i <= |attributes| && Collect(attributes[..i], args, im).Err?
    ensures Collect(attributes, args, im) == Collect(attributes[..i], args, im)
    decreases |attributes| - i
  {
    if i < |attributes| {
      assert attributes[..i + 1][..i] == attributes[..i];
      CollectErrSticks(attributes, i + 1, args, im);
    } else {
      assert attributes[..i] == attributes;
    }
  }

  /** The conversion succeeds exactly when no optional attribute has a value
      `int()` rejects. */
  lemma {:induction false} CollectOk(attributes: seq<string>, args: Args, im: Image)
    ensures Collect(attributes, args, im).Ok? <==>
              forall i :: 0 <= i < |attributes| ==> !BadOption(args, attributes[i])
    decreases |attributes|
  {
    if attributes != [] {
      var n := |attributes| - 1;
      CollectOk(attributes[..n], args, im);
      assert forall i :: 0 <= i < n ==> attributes[..n][i] == attributes[i];
    }
  }

  /** One step of `Collect`: the last attribute is added when it has a
      non-empty value, and nothing else changes. */
  lemma CollectStep(attributes: seq<string>, args: Args, im: Image)
    requires attributes != [] && Collect(attributes, args, im).Ok?
    ensures var n := |attributes| - 1;
      var last := attributes[n];
      var v := ArgGet(args, last);
      && Collect(attributes[..n], args, im).Ok?
      && Collect(attributes, args, im).value
         == (if Truthy(v) then Collect(attributes[..n], args, im).value[last := Number(ParseInt(v.value).value)]
             else Collect(attributes[..n], args, im).value)
  {
  }

  /** A successful conversion has `format`, mapped to the requested format,
      and otherwise only keys from the attribute list. */
  lemma {:induction false} CollectKeys(attributes: seq<string>, args: Args, im: Image)
    requires "format" !in attributes
    requires Collect(attributes, args, im).Ok?
    ensures var m := Collect(attributes, args, im).value;
      && "format" in m && m["format"] == Text(RequestedFormat(args, im))
      && (forall a :: a in m && a != "format" ==> a in attributes)
    decreases |attributes|
  {
    if attributes != [] {
      var n := |attributes| - 1;
      var init := attributes[..n];
      assert forall i :: 0 <= i < n ==> init[i] == attributes[i];
      assert "format" !in init && attributes[n] != "format";
      CollectStep(attributes, args, im);
      CollectKeys(init, args, im);
      var m0 := Collect(init, args, im).value;
      var m := Collect(attributes, args, im).value;
      forall a | a in m && a != "format" ensures a in attributes {
        if a != attributes[n] {
          assert a in m0;
          var i :| 0 <= i < n && init[i] == a;
          assert attributes[i] == a;
        }
      }
    }
  }

  /** In a successful conversion each attribute of the list is present
      exactly when it has a non-empty value, and is then the integer `int()`
      makes of that value. */
  lemma {:induction false} CollectValues(attributes: seq<string>, args: Args, im: Image)
    requires "format" !in attributes
    requires Collect(attributes, args, im).Ok?
    ensures var m := Collect(attributes, args, im).value;
      forall i :: 0 <= i < |attributes| ==>
        var a := attributes[i];
        (a in m <==> Truthy(ArgGet(args, a)))
        && (a in m ==> m[a].Number? && ParseInt(ArgGet(args, a).value) == Some(m[a].number))
    decreases |attributes|
  {
    if attributes != [] {
      var n := |attributes| - 1;
      var init := attributes[..n];
      assert "format" !in init;
      CollectStep(attributes, args, im);
      CollectValues(init, args, im);
      CollectKeys(init, args, im);
      var m0 := Collect(init, args, im).value;
      var m := Collect(attributes, args, im).value;
      forall i | 0 <= i < |attributes|
        ensures var a := attributes[i];
          (a in m <==> Truthy(ArgGet(args, a)))
          && (a in m ==> m[a].Number? && ParseInt(ArgGet(args, a).value) == Some(m[a].number))
      {
        if i < n {
          assert init[i] == attributes[i];
        }
      }
    }
  }

  /** A failed conversion reports the value of the first attribute whose
      value `int()` rejects. */
  lemma {:induction false} CollectErr(attributes: seq<string>, args: Args, im: Image)
    requires Collect(attributes, args, im).Err?
    ensures exists i :: && 0 <= i < |attributes| && BadOption(args, attributes[i])
              && (forall j :: 0 <= j < i ==> !BadOption(args, attributes[j]))
              && Collect(attributes, args, im).error == ValueError(ArgGet(args, attributes[i]).value)
    decreases |attributes|
  {
    var n := |attributes| - 1;
    var init := attributes[..n];
    assert forall i :: 0 <= i < n ==> init[i] == attributes[i];
    if Collect(init, args, im).Err? {
      CollectErr(init, args, im);
      var i :| && 0 <= i < |init| && BadOption(args, init[i])
               && (forall j :: 0 <= j < i ==> !BadOption(args, init[j]))
               && Collect(init, args, im).error == ValueError(ArgGet(args, init[i]).value);
      assert attributes[i] == init[i];
    } else {
      CollectOk(init, args, im);
      assert BadOption(args, attributes[n]);
    }
  }

  lemma JpegFormatFirst(args: Args, im: Image)
    requires ArgGet(args, "compress_level") == None && RequestedFormat(args, im) == "JPEG"
    ensures Collect(OptionalAttributes[..1], args, im) == Ok(map["format" := Text("JPEG")])
  {
    var attrs := OptionalAttributes;
    assert attrs[..1][..0] == [];
    assert attrs[..1][0] == "compress_level";
  }

  /** `format=JPEG&quality=75` gives `{"format": "JPEG", "quality": 75}`, and
      so does any spelling of the quality that `int()` reads as 75. */
  lemma ConversionExample(args: Args, im: Image, quality: string)
    requires args == [("format", "JPEG"), ("quality", quality)]
    requires quality != "" && ParseInt(quality) == Some(75)
    ensures Collect(OptionalAttributes, args, im) == Ok(map["format" := Text("JPEG"), "quality" := Number(75)])
  {
    assert args[1..][1..] == [];
    assert ArgGet(args[1..], "compress_level") == None;
    assert ArgGet(args, "format") == Some("JPEG");
    assert ArgGet(args, "quality") == Some(quality);
    assert RequestedFormat(args, im) == "JPEG";
    JpegFormatFirst(args, im);
    assert OptionalAttributes[1] == "quality";
  }

  // ---------------------------------------------------------------------
  // Encoding with one fallback

  /** The bytes `save` leaves in its stream, or the error it raises: the
      encoding of the image; after an `OSError`, the bytes already written
      followed by the encoding of the image composited over white, which
      needs a fourth band as its mask. */
  function SaveResult(im: Image, conversionArgs: ConversionArgs, lib: Imaging): Result<seq<byte>, ServerError>
  {
    match lib.encode(im, conversionArgs)
    case Encoded(b) => Ok(b)
    case EncodeFailed(e, w) =>
      if e != OSError then Err(SaveFailed(e))
      else if im.bands < 4 then Err(IndexError)
      else match lib.encode(lib.flattenOnWhite(im), conversionArgs)
        case Encoded(b) => Ok(w + b)
        case EncodeFailed(e2, _) => Err(SaveFailed(e2))
  }

  /** `save(im, **conversion_args)`: encode into a fresh stream; when the
      encoder raises `OSError`, composite the image over white using its
      fourth band as the mask and encode that once more into the same stream;
      rewind the stream. `attempts` lists the images given to the encoder. */
  method Save(im: Image, conversionArgs: ConversionArgs, lib: Imaging)
    returns (r: Result<BytesIO, ServerError>, attempts: seq<Image>)
    ensures r.Ok? <==> SaveResult(im, conversionArgs, lib).Ok?
    ensures r.Err? ==> r.error == SaveResult(im, conversionArgs, lib).error
    ensures r.Ok? ==> r.value.data == SaveResult(im, conversionArgs, lib).value
    ensures |attempts| >= 1 && attempts[0] == im
    ensures match lib.encode(im, conversionArgs)
      case Encoded(b) => attempts == [im] && r.Ok? && r.value.data == b
      case EncodeFailed(e, w) =>
        if e != OSError then attempts == [im] && r == Err(SaveFailed(e))
        else if im.bands < 4 then attempts == [im] && r == Err(IndexError)
        else (attempts == [im, lib.flattenOnWhite(im)]
          && match lib.encode(lib.flattenOnWhite(im), conversionArgs)
             case Encoded(b) => r.Ok? && r.value.data == w + b
             case EncodeFailed(e2, _) => r == Err(SaveFailed(e2)))
    ensures r.Ok? ==> fresh(r.value) && r.value.pos == 0
  {
    var buffer := new BytesIO();
    attempts := [im];
    match lib.encode(im, conversionArgs) {
      case Encoded(b) =>
        WriteToEmpty(b);
        buffer.Write(b);
      case EncodeFailed(e, w) =>
        WriteToEmpty(w);
        buffer.Write(w);
        if e != OSError {
          return Err(SaveFailed(e)), attempts;
        }
        if im.bands < 4 {
          return Err(IndexError), attempts;
        }
        var rgb := lib.flattenOnWhite(im);
        attempts := attempts + [rgb];
        match lib.encode(rgb, conversionArgs) {
          case Encoded(b) =>
            OverwriteAtEnd(w, b);
            buffer.Write(b);
          case EncodeFailed(e2, _) =>
            return Err(SaveFailed(e2)), attempts;
        }
    }
    buffer.Seek(0);
    r := Ok(buffer);
  }

  /** What `convert_image` produces, stage by stage: the first of source
      selection, decoding, the conversion arguments and encoding that fails
      gives the error; otherwise the encoded bytes and the output format. */
  function Convert(args: Args, store: Store, fetch: string -> seq<byte>, lib: Imaging)
    : Result<(seq<byte>, string), ServerError>
  {
    match GetInPath(args, fetch)
    case Err(e) => Err(e)
    case Ok(inPath) =>
      match Open(inPath, store, lib)
      case Err(e) => Err(e)
      case Ok(im) =>
        match Collect(OptionalAttributes, args, im)
        case Err(e) => Err(e)
        case Ok(conversionArgs) =>
          match SaveResult(im, conversionArgs, lib)
          case Err(e) => Err(e)
          case Ok(bytes) => Ok((bytes, RequestedFormat(args, im)))
  }

  /** `convert_image(request)`: select the source, decode it, derive the
      conversion arguments and encode; the format returned is the one given
      to the encoder. */
  method ConvertImage(args: Args, store: Store, fetch: string -> seq<byte>, lib: Imaging)
    returns (r: Result<(BytesIO, string), ServerError>)
    ensures r.Ok? <==> Convert(args, store, fetch, lib).Ok?
    ensures r.Err? ==> r.error == Convert(args, store, fetch, lib).error
    ensures r.Ok? ==> r.value.0.data == Convert(args, store, fetch, lib).value.0
                      && r.value.1 == Convert(args, store, fetch, lib).value.1
    ensures r.Ok? ==> fresh(r.value.0) && r.value.0.pos == 0
  {
    var inPath := GetInPath(args, fetch);
    if inPath.Err? {
      return Err(inPath.error);
    }
    var decoded := Open(inPath.value, store, lib);
    if decoded.Err? {
      return Err(decoded.error);
    }
    var im := decoded.value;
    var conversionArgs := GetFileConversionArgs(args, im);
    if conversionArgs.Err? {
      return Err(conversionArgs.error);
    }
    CollectKeys(OptionalAttributes, args, im);
    var saved, _ := Save(im, conversionArgs.value, lib);
    if saved.Err? {
      return Err(saved.error);
    }
    r := Ok((saved.value, conversionArgs.value["format"].text));
  }

  /** The stages of the conversion: each stage's error is the result when
      every stage before it succeeds; the conversion succeeds exactly when
      all four do, and then gives what `save` wrote with the arguments
      `get_file_conversion_args` built, and the `format` among them. */
  lemma ConvertStages(args: Args, store: Store, fetch: string -> seq<byte>, lib: Imaging)
    ensures var c := Convert(args, store, fetch, lib);
      var p := GetInPath(args, fetch);
      && (p.Err? ==> c == Err(p.error))
      && (p.Ok? ==> var o := Open(p.value, store, lib);
          && (o.Err? ==> c == Err(o.error))
          && (o.Ok? ==> var a := Collect(OptionalAttributes, args, o.value);
              && (a.Err? ==> c == Err(a.error))
              && (a.Ok? ==> var s := SaveResult(o.value, a.value, lib);
                  && "format" in a.value && a.value["format"].Text?
                  && (s.Err? ==> c == Err(s.error))
                  && (s.Ok? ==> c == Ok((s.value, a.value["format"].text))))))
  {
    var p := GetInPath(args, fetch);
    if p.Ok? {
      var o := Open(p.value, store, lib);
      if o.Ok? && Collect(OptionalAttributes, args, o.value).Ok? {
        CollectKeys(OptionalAttributes, args, o.value);
      }
    }
  }

  // ---------------------------------------------------------------------
  // The orchestrator

  /** A request to a worker: the URL posted to and the bytes sent as `file`. */
  datatype WorkerCall = WorkerCall(url: string, payload: seq<byte>)

  /** The URL of a worker call: the endpoint, `?`, and the worker's one
      argument form-urlencoded. */
  function WorkerUrl(entry: CatalogEntry, value: string): string
  {
    entry.endpoint + "?" + Urlencode([(entry.queryArg, value)])
  }

  /** The catalog entries a request asks for, with their values, in catalog
      order: those whose name is a non-empty argument. */
  function Requested(entries: seq<CatalogEntry>, args: Args): (r: seq<(CatalogEntry, string)>)
    ensures |r| <= |entries|
    decreases |entries|
  {
    if entries == [] then []
    else
      var e := entries[|entries| - 1];
      var prefix := Requested(entries[..|entries| - 1], args);
      var v := ArgGet(args, e.name);
      if Truthy(v) then prefix + [(e, v.value)] else prefix
  }

  /** The worker URLs of a list of steps. */
  function StepUrls(steps: seq<(CatalogEntry, string)>): (urls: seq<string>)
    ensures |urls| == |steps|
    decreases |steps|
  {
    if steps == [] then []
    else
      var s := steps[|steps| - 1];
      StepUrls(steps[..|steps| - 1]) + [WorkerUrl(s.0, s.1)]
  }

  /** The URLs a request's transformations are posted to, in order. */
  function PlannedUrls(args: Args): seq<string>
  {
    StepUrls(Requested(Transformations, args))
  }

  /** Pipes a payload through a list of worker URLs: each worker gets the
      reply of the one before. Gives the calls made and the final bytes. */
  function Pipe(urls: seq<string>, payload: seq<byte>,
                post: (string, seq<byte>) -> seq<byte>): (r: (seq<WorkerCall>, seq<byte>))
    ensures |r.0| == |urls|
    decreases |urls|
  {
    if urls == [] then ([], payload)
    else
      var before := Pipe(urls[..|urls| - 1], payload, post);
      var url := urls[|urls| - 1];
      (before.0 + [WorkerCall(url, before.1)], post(url, before.1))
  }

  /** The loop of `apply_transformations` over a catalog: for each entry in
      order whose name is a non-empty argument, post the current stream to
      the entry's worker and continue with a fresh stream over the reply. The
      bytes sent the first time are what remains unread in `buffer`. */
  method CallWorkers(catalog: seq<CatalogEntry>, args: Args, buffer: BytesIO,
                     post: (string, seq<byte>) -> seq<byte>)
    returns (out: BytesIO, calls: seq<WorkerCall>)
    ensures (calls, out.Unread()) == Pipe(StepUrls(Requested(catalog, args)), buffer.Unread(), post)
    ensures calls == [] ==> out == buffer
    ensures calls != [] ==> fresh(out) && out.pos == 0
  {
    ghost var input := buffer.Unread();
    out := buffer;
    calls := [];
    assert Requested(catalog[..0], args) == [];
    assert Pipe([], input, post) == ([], input);
    for i := 0 to |catalog|
      invariant (calls, out.Unread()) == Pipe(StepUrls(Requested(catalog[..i], args)), input, post)
      invariant calls == [] ==> out == buffer
      invariant calls != [] ==> fresh(out) && out.pos == 0
    {
      var entry := catalog[i];
      var param := ArgGet(args, entry.name);
      ghost var urls := StepUrls(Requested(catalog[..i], args));
      RequestedStep(catalog, args, i);
      if Truthy(param) {
        var url := WorkerUrl(entry, param.value);
        PipeSnoc(urls, url, input, post);
        var reply := post(url, out.Unread());
        calls := calls + [WorkerCall(url, out.Unread())];
        out := new BytesIO.FromBytes(reply);
        assert StepUrls(Requested(catalog[..i + 1], args)) == urls + [url];
      } else {
        assert StepUrls(Requested(catalog[..i + 1], args)) == urls;
      }
    }
    assert catalog[..|catalog|] == catalog;
  }

  /** One more catalog entry adds its worker URL when the request names it. */
  lemma RequestedStep(catalog: seq<CatalogEntry>, args: Args, i: nat)
    requires i < |catalog|
    ensures var v := ArgGet(args, catalog[i].name);
      StepUrls(Requested(catalog[..i + 1], args))
        == StepUrls(Requested(catalog[..i], args)) + (if Truthy(v) then [WorkerUrl(catalog[i], v.value)] else [])
  {
    assert catalog[..i + 1][..i] == catalog[..i];
  }

  /** One more URL is one more call, carrying the reply so far. */
  lemma PipeSnoc(urls: seq<string>, url: string, payload: seq<byte>,
                 post: (string, seq<byte>) -> seq<byte>)
    ensures var before := Pipe(urls, payload, post);
      Pipe(urls + [url], payload, post) == (before.0 + [WorkerCall(url, before.1)], post(url, before.1))
  {
    assert (urls + [url])[..|urls|] == urls;
  }

  /** `apply_transformations(request, buffer)` over the catalog. With no
      transformation requested the very same stream object comes back. */
  method ApplyTransformations(args: Args, buffer: BytesIO, post: (string, seq<byte>) -> seq<byte>)
    returns (out: BytesIO, calls: seq<WorkerCall>)
    ensures (calls, out.Unread()) == Pipe(PlannedUrls(args), buffer.Unread(), post)
    ensures calls == [] ==> out == buffer
    ensures calls != [] ==> fresh(out) && out.pos == 0
  {
    out, calls := CallWorkers(Transformations, args, buffer, post);
  }

  /** The `/image` route: convert, then transform. A request that fails
      before the workers makes no worker call and reports the conversion's
      error; otherwise the first worker receives the whole converted
      encoding, since `save` rewinds it, and the format is the converted
      one. */
  method ServeImage(args: Args, store: Store, fetch: string -> seq<byte>, lib: Imaging,
                    post: (string, seq<byte>) -> seq<byte>)
    returns (r: Result<(BytesIO, string), ServerError>, calls: seq<WorkerCall>)
    ensures r.Ok? <==> Convert(args, store, fetch, lib).Ok?
    ensures r.Err? ==> r.error == Convert(args, store, fetch, lib).error && calls == []
    ensures r.Ok? ==> (calls, r.value.0.Unread()) == Pipe(PlannedUrls(args), Convert(args, store, fetch, lib).value.0, post)
                      && r.value.1 == Convert(args, store, fetch, lib).value.1
  {
    var c := ConvertImage(args, store, fetch, lib);
    if c.Err? {
      return Err(c.error), [];
    }
    var buffer := c.value.0;
    var out;
    out, calls := ApplyTransformations(args, buffer, post);
    r := Ok((out, c.value.1));
  }

  // ---------------------------------------------------------------------
  // Properties of the orchestrator

  /** The calls thread the payload: call k goes to URL k, the first call
      carries the input, each later call carries the reply to the one before,
      and the result is the last reply (or the input when there are no
      URLs). */
  lemma {:induction false} PipeThreads(urls: seq<string>, payload: seq<byte>,
                                       post: (string, seq<byte>) -> seq<byte>)
    ensures var r := Pipe(urls, payload, post);
      && (forall k :: 0 <= k < |urls| ==> r.0[k].url == urls[k])
      && (|urls| > 0 ==> r.0[0].payload == payload)
      && (forall k :: 0 <= k < |urls| - 1 ==> r.0[k + 1].payload == post(r.0[k].url, r.0[k].payload))
      && r.1 == (if urls == [] then payload else post(r.0[|urls| - 1].url, r.0[|urls| - 1].payload))
    decreases |urls|
  {
    if urls != [] {
      var init := urls[..|urls| - 1];
      PipeThreads(init, payload, post);
      assert forall k :: 0 <= k < |init| ==> init[k] == urls[k];
    }
  }

  lemma {:induction false} StepUrlsAt(steps: seq<(CatalogEntry, string)>, k: nat)
    requires k < |steps|
    ensures StepUrls(steps)[k] == WorkerUrl(steps[k].0, steps[k].1)
    decreases |steps|
  {
    if k < |steps| - 1 {
      StepUrlsAt(steps[..|steps| - 1], k);
    }
  }

  /** The positions in the catalog of the requested entries. */
  function RequestedPositions(entries: seq<CatalogEntry>, args: Args): seq<nat>
    decreases |entries|
  {
    if entries == [] then []
    else
      var n := |entries| - 1;
      var prefix := RequestedPositions(entries[..n], args);
      if Truthy(ArgGet(args, entries[n].name)) then prefix + [n] else prefix
  }

  /** The k-th requested step is the entry at the k-th position, with its
      argument. */
  lemma {:induction false} PositionsMatch(entries: seq<CatalogEntry>, args: Args)
    ensures var idx := RequestedPositions(entries, args);
      && |idx| == |Requested(entries, args)|
      && forall k :: 0 <= k < |idx| ==>
           idx[k] < |entries| && Truthy(ArgGet(args, entries[idx[k]].name))
           && Requested(entries, args)[k] == (entries[idx[k]], ArgGet(args, entries[idx[k]].name).value)
    decreases |entries|
  {
    if entries != [] {
      var n := |entries| - 1;
      PositionsMatch(entries[..n], args);
      var prefix := RequestedPositions(entries[..n], args);
      forall k | 0 <= k < |prefix| ensures entries[..n][prefix[k]] == entries[prefix[k]] {
      }
    }
  }

  /** The positions increase, so the steps follow catalog order. */
  lemma {:induction false} PositionsIncrease(entries: seq<CatalogEntry>, args: Args)
    ensures forall k :: 0 <= k < |RequestedPositions(entries, args)| ==>
              RequestedPositions(entries, args)[k] < |entries|
    ensures forall k, l :: 0 <= k < l < |RequestedPositions(entries, args)| ==>
              RequestedPositions(entries, args)[k] < RequestedPositions(entries, args)[l]
    decreases |entries|
  {
    if entries != [] {
      var n := |entries| - 1;
      PositionsIncrease(entries[..n], args);
      var prefix := RequestedPositions(entries[..n], args);
      assert forall k :: 0 <= k < |prefix| ==> prefix[k] < n;
    }
  }

  /** Every entry with a non-empty argument has its position listed. */
  lemma {:induction false} PositionsComplete(entries: seq<CatalogEntry>, args: Args)
    ensures forall i :: 0 <= i < |entries| && Truthy(ArgGet(args, entries[i].name)) ==>
              i in RequestedPositions(entries, args)
    decreases |entries|
  {
    if entries != [] {
      var n := |entries| - 1;
      PositionsComplete(entries[..n], args);
      assert forall i :: 0 <= i < n ==> entries[..n][i] == entries[i];
    }
  }

  /** Workers are called in catalog order, whatever order the arguments
      came in: the k-th call goes to the worker of the k-th requested entry,
      the requested entries appear at increasing catalog positions, and every
      entry whose name is a non-empty argument is among them. */
  lemma CallsInCatalogOrder(args: Args, payload: seq<byte>, post: (string, seq<byte>) -> seq<byte>)
    ensures var calls := Pipe(PlannedUrls(args), payload, post).0;
      var idx := RequestedPositions(Transformations, args);
      && |calls| == |idx|
      && (forall k :: 0 <= k < |calls| ==>
            && idx[k] < |Transformations|
            && Truthy(ArgGet(args, Transformations[idx[k]].name))
            && calls[k].url == WorkerUrl(Transformations[idx[k]], ArgGet(args, Transformations[idx[k]].name).value))
      && (forall k, l :: 0 <= k < l < |idx| ==> idx[k] < idx[l])
      && (forall i :: 0 <= i < |Transformations| && Truthy(ArgGet(args, Transformations[i].name)) ==> i in idx)
  {
    var steps := Requested(Transformations, args);
    PositionsMatch(Transformations, args);
    PositionsIncrease(Transformations, args);
    PositionsComplete(Transformations, args);
    PipeThreads(StepUrls(steps), payload, post);
    forall k | 0 <= k < |steps| ensures StepUrls(steps)[k] == WorkerUrl(steps[k].0, steps[k].1) {
      StepUrlsAt(steps, k);
    }
  }

  /** Only the catalog names in a request matter: two requests that agree on
      those ask for the same steps (keys outside the catalog never cause a
      call). */
  lemma {:induction false} OnlyCatalogArgsMatter(entries: seq<CatalogEntry>, args1: Args, args2: Args)
    requires forall e :: e in entries ==> ArgGet(args1, e.name) == ArgGet(args2, e.name)
    ensures Requested(entries, args1) == Requested(entries, args2)
    decreases |entries|
  {
    if entries != [] {
      var n := |entries| - 1;
      assert forall e :: e in entries[..n] ==> e in entries;
      OnlyCatalogArgsMatter(entries[..n], args1, args2);
      assert entries[n] in entries;
    }
  }

  /** Reordering the arguments of a request (each key given once) changes
      nothing about the worker calls or the result. */
  lemma ArgumentOrderIrrelevant(args1: Args, args2: Args, payload: seq<byte>,
                                post: (string, seq<byte>) -> seq<byte>)
    requires DistinctKeys(args1) && DistinctKeys(args2)
    requires forall p :: p in args1 <==> p in args2
    ensures Pipe(PlannedUrls(args1), payload, post) == Pipe(PlannedUrls(args2), payload, post)
  {
    forall e | e in Transformations ensures ArgGet(args1, e.name) == ArgGet(args2, e.name) {
      var v1 := ArgGet(args1, e.name);
      var v2 := ArgGet(args2, e.name);
      if v1.Some? {
        ArgGetDistinct(args1, e.name, v1.value);
        ArgGetDistinct(args2, e.name, v1.value);
      } else if v2.Some? {
        ArgGetDistinct(args2, e.name, v2.value);
        ArgGetDistinct(args1, e.name, v2.value);
      }
    }
    OnlyCatalogArgsMatter(Transformations, args1, args2);
  }

  /** The names among `entries` that a request gives a non-empty value. */
  function RequestedNames(entries: seq<CatalogEntry>, args: Args): set<string>
  {
    set e | e in entries && Truthy(ArgGet(args, e.name)) :: e.name
  }

  lemma RequestedNamesSnoc(entries: seq<CatalogEntry>, args: Args)
    requires entries != []
    ensures var n := |entries| - 1;
      RequestedNames(entries, args) == RequestedNames(entries[..n], args)
        + (if Truthy(ArgGet(args, entries[n].name)) then {entries[n].name} else {})
  {
    var n := |entries| - 1;
    assert entries == entries[..n] + [entries[n]];
    assert forall x :: x in entries <==> x in entries[..n] || x == entries[n];
  }

  lemma LastNameIsNew(entries: seq<CatalogEntry>, args: Args)
    requires entries != [] && DistinctNames(entries)
    ensures var n := |entries| - 1;
      entries[n].name !in RequestedNames(entries[..n], args)
  {
    var n := |entries| - 1;
    forall x | x in entries[..n] ensures x.name != entries[n].name {
      var i :| 0 <= i < n && entries[..n][i] == x;
      assert entries[i] == x;
    }
  }

  /** One call per catalog name with a non-empty argument. */
  lemma {:induction false} CallCount(entries: seq<CatalogEntry>, args: Args)
    requires DistinctNames(entries)
    ensures |Requested(entries, args)| == |RequestedNames(entries, args)|
    decreases |entries|
  {
    if entries != [] {
      var n := |entries| - 1;
      var init := entries[..n];
      assert DistinctNames(init) by {
        assert forall i :: 0 <= i < n ==> init[i] == entries[i];
      }
      CallCount(init, args);
      RequestedNamesSnoc(entries, args);
      LastNameIsNew(entries, args);
    }
  }

  /** Without any transformation argument nothing is sent and the payload
      comes back as it was. */
  lemma NoTransformations(args: Args, payload: seq<byte>, post: (string, seq<byte>) -> seq<byte>)
    requires forall e :: e in Transformations ==> !Truthy(ArgGet(args, e.name))
    ensures PlannedUrls(args) == []
    ensures Pipe(PlannedUrls(args), payload, post) == ([], payload)
  {
    assert Requested(Transformations, args) == [] by {
      CallCount(Transformations, args);
      CatalogShape();
      assert RequestedNames(Transformations, args) == {};
    }
  }

  /** The worker URL is the endpoint, `?`, the query argument, `=` and the
      encoded value. The requirement holds for every catalog entry
      (`CatalogShape`). */
  lemma WorkerUrlShape(entry: CatalogEntry, value: string)
    requires forall k :: 0 <= k < |entry.queryArg| ==> IsUnreservedChar(entry.queryArg[k])
    ensures WorkerUrl(entry, value) == entry.endpoint + "?" + (entry.queryArg + "=" + QuotePlus(value))
  {
    UrlencodeSingle(entry.queryArg, value);
    UnreservedUnchanged(entry.queryArg);
  }

  /** The worker reads back exactly the value it was given. */
  lemma WorkerReadsValue(entry: CatalogEntry, value: string)
    ensures var url := WorkerUrl(entry, value);
      ParseQuery(url[|entry.endpoint| + 1..]) == Some([(entry.queryArg, value)])
  {
    var url := WorkerUrl(entry, value);
    var query := Urlencode([(entry.queryArg, value)]);
    assert url[|entry.endpoint| + 1..] == query;
    UrlencodeRoundTrip([(entry.queryArg, value)]);
  }

  /** A request with only `rotate=90` asks for the rotate entry alone. */
  lemma RotateRequested(args: Args)
    requires args == [("rotate", "90")]
    ensures Requested(Transformations, args) == [(Transformations[2], "90")]
  {
    assert ArgGet(args, "filter") == None;
    assert ArgGet(args, "mask") == None;
    assert ArgGet(args, "rotate") == Some("90");
    assert ArgGet(args, "thumbnail") == None;
    var t := Transformations;
    assert t[..1][..0] == [];
    assert t[..2][..1] == t[..1];
    assert t[..3][..2] == t[..2];
    assert t[..4][..3] == t[..3];
    assert Requested(t[..1], args) == [];
    assert Requested(t[..2], args) == [];
    assert Requested(t[..3], args) == [(t[2], "90")];
    assert t[..4] == t;
  }

  /** The rotate worker's URL for 90 degrees. */
  lemma RotateUrl(e: CatalogEntry, v: string)
    requires e.endpoint == "http://rotate:5001/rotate" && e.queryArg == "degrees" && v == "90"
    ensures WorkerUrl(e, v) == "http://rotate:5001/rotate?degrees=90"
  {
    UrlencodeSingle(e.queryArg, v);
    UnreservedUnchanged(e.queryArg);
    UnreservedUnchanged(v);
  }

  /** The only URL planned for `rotate=90`. */
  lemma RotatePlanned(args: Args)
    requires args == [("rotate", "90")]
    ensures PlannedUrls(args) == ["http://rotate:5001/rotate?degrees=90"]
  {
    var rotate := Transformations[2];
    var v := ArgGet(args, "rotate").value;
    RotateRequested(args);
    assert StepUrls([(rotate, v)]) == [WorkerUrl(rotate, v)];
    RotateUrl(rotate, v);
  }

  /** A single URL: one call carrying the payload, and its reply. */
  lemma PipeSingle(url: string, payload: seq<byte>, post: (string, seq<byte>) -> seq<byte>)
    ensures Pipe([url], payload, post) == ([WorkerCall(url, payload)], post(url, payload))
  {
    assert [url][..0] == [];
    assert Pipe([url][..0], payload, post) == ([], payload);
    assert [] + [WorkerCall(url, payload)] == [WorkerCall(url, payload)];
  }

  /** `rotate=90` makes the single call `http://rotate:5001/rotate?degrees=90`
      and yields the worker's reply. */
  lemma RotateExample(args: Args, payload: seq<byte>, post: (string, seq<byte>) -> seq<byte>)
    requires args == [("rotate", "90")]
    ensures var url := "http://rotate:5001/rotate?degrees=90";
      Pipe(PlannedUrls(args), payload, post) == ([WorkerCall(url, payload)], post(url, payload))
  {
    RotatePlanned(args);
    PipeSingle("http://rotate:5001/rotate?degrees=90", payload, post);
  }
}
