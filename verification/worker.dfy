/**
  The edge worker of `_worker.js`: requests under `/Image-processing` are
  forwarded to the Pages origin with that prefix removed, and the origin's
  response is returned with an open CORS header; every other request is
  fetched as it is. The upstream `fetch` is outside the model: its response
  is a parameter.
 */
module Worker {

  import opened Text

  const Prefix: string := "/Image-processing"
  const Origin: string := "https://your-project.pages.dev"

  /** The parts of `new URL(request.url)` the worker reads. */
  datatype Url = Url(href: string, pathname: string, search: string)

  /** `verb` is the HTTP method. */
  datatype Request = Request(url: Url, verb: string, headers: map<string, string>, body: string)

  /** Header names are kept in lower case, as the `Headers` object compares them. */
  datatype Response = Response(status: int, headers: map<string, string>, body: string)

  /** Where a request goes: unchanged to `fetch`, or rebuilt for the origin. */
  datatype Upstream =
    | PassThrough(request: Request)
    | Proxied(target: string, verb: string, headers: map<string, string>, body: string)

  /**
    `pathname.replace('/Image-processing', '') || '/'` on a matched path:
    the leading prefix and only it is removed, and an empty remainder
    becomes the root.
   */
  function NewPath(pathname: string): (r: string)
    requires StartsWith(pathname, Prefix)
    ensures r != ""
    ensures |pathname| > |Prefix| ==> r == pathname[|Prefix|..]
    ensures |pathname| == |Prefix| ==> r == "/"
  {
    ReplaceLeadingPrefix(pathname, Prefix);
    var rest := ReplaceFirst(pathname, Prefix, "");
    if rest == "" then "/" else rest
  }

  /** Prefixing a path that starts with `/` and rewriting it gives the path back. */
  lemma NewPathUndoesPrefix(rest: string)
    requires |rest| > 0 && rest[0] == '/'
    ensures StartsWith(Prefix + rest, Prefix)
    ensures NewPath(Prefix + rest) == rest
  {
    assert (Prefix + rest)[..|Prefix|] == Prefix;
    assert (Prefix + rest)[|Prefix|..] == rest;
  }

  /**
    The match is on characters, not path segments: the prefix alone maps to
    `/`, and a longer first segment keeps its tail without a leading slash.
   */
  lemma NewPathExamples()
    ensures NewPath("/Image-processing") == "/"
    ensures StartsWith("/Image-processingX", Prefix) && NewPath("/Image-processingX") == "X"
    ensures NewPath("/Image-processing/a.png") == "/a.png"
  {
    assert "/Image-processing" == Prefix;
    assert "/Image-processingX" == Prefix + "X";
    assert (Prefix + "X")[..|Prefix|] == Prefix;
    assert (Prefix + "X")[|Prefix|..] == "X";
    NewPathUndoesPrefix("/a.png");
    assert Prefix + "/a.png" == "/Image-processing/a.png";
  }

  /** `https://your-project.pages.dev${newPath}${url.search}`: origin, path, then the query verbatim. */
  function TargetUrl(pathname: string, search: string): (r: string)
    requires StartsWith(pathname, Prefix)
    ensures StartsWith(r, Origin)
    ensures r[|Origin|..] == NewPath(pathname) + search
    ensures r[|r| - |search|..] == search
  {
    Origin + NewPath(pathname) + search
  }

  /**
    The routing decision of `fetch(request)`: rewritten iff the path starts
    with the prefix, keeping method, headers and body; any other request is
    passed on untouched.
   */
  function Route(req: Request): (r: Upstream)
    ensures r.PassThrough? <==> !StartsWith(req.url.pathname, Prefix)
    ensures r.PassThrough? ==> r.request == req
    ensures r.Proxied? ==> && r.target == TargetUrl(req.url.pathname, req.url.search)
                           && r.verb == req.verb && r.headers == req.headers && r.body == req.body
  {
    if StartsWith(req.url.pathname, Prefix) then
      Proxied(TargetUrl(req.url.pathname, req.url.search), req.verb, req.headers, req.body)
    else PassThrough(req)
  }

  /**
    The response the worker returns for the upstream answer `upstream`: a
    proxied answer gains `access-control-allow-origin: *` (replacing any
    value it had) and keeps status, body and every other header; a passed
    through answer is returned as it is.
   */
  function Respond(req: Request, upstream: Response): (r: Response)
    ensures Route(req).PassThrough? ==> r == upstream
    ensures Route(req).Proxied? ==>
              && r.status == upstream.status && r.body == upstream.body
              && "access-control-allow-origin" in r.headers
              && r.headers["access-control-allow-origin"] == "*"
              && (forall h :: h in upstream.headers && h != "access-control-allow-origin" ==>
                    h in r.headers && r.headers[h] == upstream.headers[h])
              && (forall h :: h in r.headers ==> h in upstream.headers || h == "access-control-allow-origin")
  {
    if Route(req).Proxied? then
      upstream.(headers := upstream.headers["access-control-allow-origin" := "*"])
    else upstream
  }

  /** Responding is idempotent on the header: a second pass changes nothing. */
  lemma RespondIdempotent(req: Request, upstream: Response)
    ensures Respond(req, Respond(req, upstream)) == Respond(req, upstream)
  {
  }
}
