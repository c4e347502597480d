/** The share target of public/sw.js. The service worker answers four
    requests and lets every other one through: the operating system's share
    sheet posts a form to /share-target, whose file and text the worker keeps
    in the `pending-share-v1` cache under the keys 'file' and 'meta'; the app
    reads them back with GET /_share/file and GET /_share/meta and drops them
    with POST /_share/clear. The cache is a map from key to stored response. */
module ServiceWorker {
  import opened Common

  /** A shared file: its name, MIME type (possibly empty) and size. */
  datatype SharedFile = SharedFile(name: string, mimeType: string, size: nat)

  /** The parsed form. A field is None when absent; `file` is None also when
      the entry is not a file. */
  datatype FormData = FormData(
    title: Option<string>, text: Option<string>, url: Option<string>, file: Option<SharedFile>)

  /** A request as the worker sees it; `form` is None when `formData()`
      throws. */
  datatype Request = Request(path: string, httpMethod: string, form: Option<FormData>)

  /** What the cache keeps: the shared file with its headers, or the JSON
      metadata `{ text, hasFile }`. The file name is kept as it is, not
      URI-encoded. */
  datatype Stored =
    | FileResponse(file: SharedFile, contentType: string, fileName: string)
    | MetaResponse(text: string, hasFile: bool)

  datatype Response =
    | PassThrough                 // not intercepted: the browser fetches it
    | SeeOther(location: string)  // `Response.redirect(location, 303)`
    | Cached(stored: Stored)      // a cache hit, returned as stored
    | NotFound                    // an empty 404
    | EmptyMeta                   // `{}` as JSON, status 200
    | NoContent                   // an empty 204

  type Cache = map<string, Stored>

  // ---------------------------------------------------------------------
  // Routing

  datatype Route = ShareTarget | ServeFile | ServeMeta | Clear | Other

  function RouteOf(path: string, httpMethod: string): (r: Route)
    ensures r == ShareTarget <==> path == "/share-target" && httpMethod == "POST"
    ensures r == ServeFile <==> path == "/_share/file" && httpMethod == "GET"
    ensures r == ServeMeta <==> path == "/_share/meta" && httpMethod == "GET"
    ensures r == Clear <==> path == "/_share/clear" && httpMethod == "POST"
  {
    if path == "/share-target" && httpMethod == "POST" then ShareTarget
    else if path == "/_share/file" && httpMethod == "GET" then ServeFile
    else if path == "/_share/meta" && httpMethod == "GET" then ServeMeta
    else if path == "/_share/clear" && httpMethod == "POST" then Clear
    else Other
  }

  // ---------------------------------------------------------------------
  // The shared text

  /** `formData.get(name) ?? ''` */
  function OrEmpty(v: Option<string>): string {
    if v.Some? then v.value else ""
  }

  /** `.filter(Boolean)` on strings: the non-empty ones, in order. */
  function NonEmpty(parts: seq<string>): (r: seq<string>)
    ensures forall k :: 0 <= k < |r| ==> r[k] != ""
    ensures forall s :: s in r <==> s in parts && s != ""
  {
    if parts == [] then []
    else (if parts[0] != "" then [parts[0]] else []) + NonEmpty(parts[1..])
  }

  /** The shared text: title, text and url, the empty ones left out, joined
      by single spaces and trimmed. */
  function ShareText(form: FormData): (t: string)
    ensures NoSpaceAtEnds(t)
  {
    Trim(JoinSpaces(NonEmpty([OrEmpty(form.title), OrEmpty(form.text), OrEmpty(form.url)])))
  }

  lemma NonEmptyCons(v: string, rest: seq<string>)
    ensures NonEmpty([v] + rest) == (if v != "" then [v] else []) + NonEmpty(rest)
  {
    assert ([v] + rest)[1..] == rest;
  }

  /** Nothing shared gives no text. */
  lemma NoFieldsNoText(form: FormData)
    requires OrEmpty(form.title) == "" && OrEmpty(form.text) == "" && OrEmpty(form.url) == ""
    ensures ShareText(form) == ""
  {
    NonEmptyCons("", ["", ""]);
    NonEmptyCons("", [""]);
    NonEmptyCons("", []);
    assert NonEmpty(["", "", ""]) == [];
    assert JoinSpaces([]) == "";
  }

  /** With a single non-empty field the text is that field, trimmed. */
  lemma OneFieldIsTheText(form: FormData)
    requires OrEmpty(form.title) == "" && OrEmpty(form.url) == ""
    ensures ShareText(form) == Trim(OrEmpty(form.text))
  {
    var x := OrEmpty(form.text);
    NonEmptyCons("", [x, ""]);
    NonEmptyCons(x, [""]);
    NonEmptyCons("", []);
    if x == "" {
      assert NonEmpty(["", x, ""]) == [];
    } else {
      assert NonEmpty(["", x, ""]) == [x];
    }
  }

  lemma JoinThree(t: string, x: string, u: string)
    requires t != "" && x != "" && u != ""
    ensures JoinSpaces(NonEmpty([t, x, u])) == t + " " + x + " " + u
  {
    NonEmptyCons(t, [x, u]);
    NonEmptyCons(x, [u]);
    NonEmptyCons(u, []);
    assert NonEmpty([t, x, u]) == [t, x, u];
    assert [t, x, u][1..] == [x, u] && [x, u][1..] == [u];
    assert JoinSpaces([u]) == u;
    assert JoinSpaces([x, u]) == x + " " + u;
  }

  /** With all three fields present, they are separated by single spaces. */
  lemma ThreeFieldsJoined(form: FormData)
    requires OrEmpty(form.title) != "" && OrEmpty(form.text) != "" && OrEmpty(form.url) != ""
    ensures ShareText(form) == Trim(OrEmpty(form.title) + " " + OrEmpty(form.text) + " " + OrEmpty(form.url))
  {
    JoinThree(OrEmpty(form.title), OrEmpty(form.text), OrEmpty(form.url));
  }

  /** Filtering a concatenation filters each part. */
  lemma {:induction false} NonEmptyAppend(a: seq<string>, b: seq<string>)
    ensures NonEmpty(a + b) == NonEmpty(a) + NonEmpty(b)
  {
    if a == [] {
      assert a + b == b;
    } else {
      assert a + b == [a[0]] + (a[1..] + b) && a == [a[0]] + a[1..];
      NonEmptyCons(a[0], a[1..] + b);
      NonEmptyCons(a[0], a[1..]);
      NonEmptyAppend(a[1..], b);
    }
  }

  /** The fields that are present, in the order title, text, url. */
  function Present(form: FormData): (p: seq<string>)
    ensures |p| <= 3
  {
    (if OrEmpty(form.title) != "" then [OrEmpty(form.title)] else [])
    + (if OrEmpty(form.text) != "" then [OrEmpty(form.text)] else [])
    + (if OrEmpty(form.url) != "" then [OrEmpty(form.url)] else [])
  }

  /** The filter keeps exactly the present fields, in their order. */
  lemma {:induction false} FieldsInOrder(form: FormData)
    ensures NonEmpty([OrEmpty(form.title), OrEmpty(form.text), OrEmpty(form.url)]) == Present(form)
  {
    var t, x, u := OrEmpty(form.title), OrEmpty(form.text), OrEmpty(form.url);
    assert [t, x, u] == [t] + [x] + [u];
    NonEmptyAppend([t] + [x], [u]);
    NonEmptyAppend([t], [x]);
    NonEmptyCons(t, []);
    NonEmptyCons(x, []);
    NonEmptyCons(u, []);
  }

  /** Whichever fields are present, the text is those fields in order, one
      space between each two, trimmed. */
  lemma {:induction false} PresentFieldsJoined(form: FormData)
    ensures var p := Present(form);
      ShareText(form) == Trim(JoinSpaces(p))
      && (|p| == 0 ==> ShareText(form) == "")
      && (|p| == 1 ==> ShareText(form) == Trim(p[0]))
      && (|p| == 2 ==> ShareText(form) == Trim(p[0] + " " + p[1]))
      && (|p| == 3 ==> ShareText(form) == Trim(p[0] + " " + p[1] + " " + p[2]))
  {
    FieldsInOrder(form);
    JoinSmall(Present(form));
  }

  /** A title and a link shared without text are joined by one space. */
  lemma {:induction false} TitleAndUrlJoined(form: FormData)
    requires OrEmpty(form.title) != "" && OrEmpty(form.text) == "" && OrEmpty(form.url) != ""
    ensures ShareText(form) == Trim(OrEmpty(form.title) + " " + OrEmpty(form.url))
  {
    PresentFieldsJoined(form);
  }

  // ---------------------------------------------------------------------
  // Handlers

  /** `file instanceof File && file.size > 0` */
  predicate HasFile(form: FormData) {
    form.file.Some? && form.file.value.size > 0
  }

  /** `file.type || 'application/octet-stream'` */
  function ContentType(f: SharedFile): (c: string)
    ensures c != ""
    ensures f.mimeType != "" ==> c == f.mimeType
  {
    if f.mimeType != "" then f.mimeType else "application/octet-stream"
  }

  /** The cache after a share: the file stored or removed, the metadata
      always written. */
  function Shared(cache: Cache, form: FormData): Cache {
    var withFile :=
      if HasFile(form) then cache["file" := FileResponse(form.file.value, ContentType(form.file.value), form.file.value.name)]
      else cache - {"file"};
    withFile["meta" := MetaResponse(ShareText(form), HasFile(form))]
  }

  /** One fetch: the response and the cache afterwards. */
  function Fetch(cache: Cache, req: Request): (Response, Cache) {
    match RouteOf(req.path, req.httpMethod)
    case ShareTarget =>
      if req.form.None? then (SeeOther("/"), cache)
      else (SeeOther("/?share=1"), Shared(cache, req.form.value))
    case ServeFile =>
      (if "file" in cache then Cached(cache["file"]) else NotFound, cache)
    case ServeMeta =>
      (if "meta" in cache then Cached(cache["meta"]) else EmptyMeta, cache)
    case Clear =>
      (NoContent, cache - {"file", "meta"})
    case Other =>
      (PassThrough, cache)
  }

  /** Only the four share routes are answered; everything else passes
      through and leaves the cache alone. */
  lemma OthersPassThrough(cache: Cache, req: Request)
    ensures Fetch(cache, req).0 == PassThrough <==> RouteOf(req.path, req.httpMethod) == Other
    ensures RouteOf(req.path, req.httpMethod) == Other ==> Fetch(cache, req).1 == cache
  {
  }

  /** A share stores a non-empty file under 'file' and otherwise removes any
      file there; 'meta' is always written, its flag the same test; no other
      key changes; the app is sent to /?share=1. */
  lemma ShareEffect(cache: Cache, form: FormData)
    ensures var (resp, c) := Fetch(cache, Request("/share-target", "POST", Some(form)));
      resp == SeeOther("/?share=1")
      && (HasFile(form) <==> "file" in c)
      && (HasFile(form) ==> c["file"].file == form.file.value)
      && "meta" in c && c["meta"] == MetaResponse(ShareText(form), HasFile(form))
      && forall k :: k != "file" && k != "meta" ==> (k in c <==> k in cache) && (k in cache ==> c[k] == cache[k])
  {
    var c := Shared(cache, form);
    assert RouteOf("/share-target", "POST") == ShareTarget;
    assert Fetch(cache, Request("/share-target", "POST", Some(form))) == (SeeOther("/?share=1"), c);
    SharedKeys(cache, form);
  }

  lemma SharedKeys(cache: Cache, form: FormData)
    ensures var c := Shared(cache, form);
      (HasFile(form) <==> "file" in c)
      && (HasFile(form) ==> c["file"].file == form.file.value)
      && "meta" in c && c["meta"] == MetaResponse(ShareText(form), HasFile(form))
      && forall k :: k != "file" && k != "meta" ==> (k in c <==> k in cache) && (k in cache ==> c[k] == cache[k])
  {
    var withFile :=
      if HasFile(form) then cache["file" := FileResponse(form.file.value, ContentType(form.file.value), form.file.value.name)]
      else cache - {"file"};
    forall k | k != "file" && k != "meta"
      ensures (k in withFile <==> k in cache) && (k in cache ==> withFile[k] == cache[k])
    {
    }
  }

  /** A form that cannot be read goes back to the start page and changes
      nothing. */
  lemma UnreadableFormRedirects(cache: Cache, path: string, httpMethod: string)
    requires RouteOf(path, httpMethod) == ShareTarget
    ensures Fetch(cache, Request(path, httpMethod, None)) == (SeeOther("/"), cache)
  {
  }

  /** What a share stores, the app reads back: the file, or a 404 without
      one, and the metadata with its text. */
  lemma ShareThenRead(cache: Cache, form: FormData, fileReq: Request, metaReq: Request)
    requires RouteOf(fileReq.path, fileReq.httpMethod) == ServeFile
    requires RouteOf(metaReq.path, metaReq.httpMethod) == ServeMeta
    ensures var c := Shared(cache, form);
      (HasFile(form) ==> Fetch(c, fileReq).0 == Cached(FileResponse(form.file.value, ContentType(form.file.value), form.file.value.name)))
      && (!HasFile(form) ==> Fetch(c, fileReq).0 == NotFound)
      && Fetch(c, metaReq).0 == Cached(MetaResponse(ShareText(form), HasFile(form)))
  {
    var c := Shared(cache, form);
    SharedKeys(cache, form);
    assert HasFile(form) ==> c["file"] == FileResponse(form.file.value, ContentType(form.file.value), form.file.value.name);
  }

  /** After a clear both reads answer as if nothing had been shared, and
      reading never changes the cache. */
  lemma ClearThenRead(cache: Cache, clearReq: Request, fileReq: Request, metaReq: Request)
    requires RouteOf(clearReq.path, clearReq.httpMethod) == Clear
    requires RouteOf(fileReq.path, fileReq.httpMethod) == ServeFile
    requires RouteOf(metaReq.path, metaReq.httpMethod) == ServeMeta
    ensures var (resp, c) := Fetch(cache, clearReq);
      resp == NoContent && Fetch(c, fileReq) == (NotFound, c) && Fetch(c, metaReq) == (EmptyMeta, c)
  {
  }

  /** The worker and its cache. */
  class Worker {
    var cache: Cache

    constructor ()
      ensures cache == map[]
    {
      cache := map[];
    }

    /** The fetch listener together with `handleShareTarget`, updating the
        cache in place: it runs `Fetch`, the function the lemmas above are
        about. */
    method OnFetch(req: Request) returns (resp: Response)
      modifies this
      ensures (resp, cache) == Fetch(old(cache), req)
    {
      var route := RouteOf(req.path, req.httpMethod);
      if route == ShareTarget {
        if req.form.None? {
          return SeeOther("/");
        }
        var form := req.form.value;
        var text := ShareText(form);
        ghost var before := cache;
        if form.file.Some? && form.file.value.size > 0 {
          var f := form.file.value;
          cache := cache["file" := FileResponse(f, ContentType(f), f.name)];
        } else {
          cache := cache - {"file"};
        }
        cache := cache["meta" := MetaResponse(text, form.file.Some? && form.file.value.size > 0)];
        assert cache == Shared(before, form);
        resp := SeeOther("/?share=1");
      } else if route == ServeFile {
        resp := if "file" in cache then Cached(cache["file"]) else NotFound;
      } else if route == ServeMeta {
        resp := if "meta" in cache then Cached(cache["meta"]) else EmptyMeta;
      } else if route == Clear {
        cache := cache - {"file", "meta"};
        resp := NoContent;
      } else {
        resp := PassThrough;
      }
    }
  }
}
