/** The batch service's request handler: which route a request takes, how a
    single-page request names its target, and the origin and method checks
    on the batch endpoint. */
module Intake {
  import opened Common
  import opened Text

  /** The parts of an incoming request the handler looks at: the URL, the HTTP
      method (`verb`) and the `Origin` header, which is
      absent when the client sent none. */
  datatype Request = Request(url: string, verb: string, origin: Option<string>)

  /** A JavaScript value handed to `responseError`: a number or a string. */
  datatype Arg = Code(n: nat) | Str(s: string) {

    /** JavaScript truthiness: 0 and "" are false. */
    predicate Truthy() {
      match this
      case Code(n) => n != 0
      case Str(s) => s != ""
    }

    /** The value converted to a string, as `+` on strings does. */
    function Show(): string {
      match this
      case Code(n) => NatToString(n)
      case Str(s) => s
    }
  }

  /** What the handler does with a request. */
  datatype Route =
    | SinglePage(target: string, nocache: bool)
      // render one page, then serve the file
    | Preflight(allowOrigin: string, allowMethods: string)
      // status 200 with the two CORS headers and an empty body
    | StartBatch
      // read the JSON body and run a batch
    | Reply(status: nat, body: string)
      // `responseError`: `writeHead(status)` then `write(body)`
    | InvalidStatus(given: string)
      // `responseError` with a status `writeHead` rejects: it throws before
      // anything is written
    | UnreadStatus(given: string)
      // `responseError` with a status text in a numeric form this model does
      // not convert (see `StatusValue`)
    | MissingOrigin
      // `request.headers.origin.endsWith` on an absent header throws
    | Static(path: string)
      // handed to the static file server

  /** A render starts only on these two routes. */
  predicate StartsRender(r: Route) {
    r.SinglePage? || r.StartBatch?
  }

  /** The path the handler routes on: the first "print/" anywhere is removed. */
  function RoutedPath(url: string): (p: string)
    ensures !Contains(url, "print/") ==> p == url
    ensures Contains(url, "print/") ==>
      exists i: nat :: FirstAt(url, "print/", i) && p == url[..i] + url[i + 6..]
  {
    var p := ReplaceFirst(url, "print/", "");
    if Contains(url, "print/") then
      var i: nat :| FirstAt(url, "print/", i) && p == url[..i] + "" + url[i + 6..];
      assert p == url[..i] + url[i + 6..];
      p
    else p
  }

  /** JavaScript's `ToInt32`: the integer taken modulo 2^32 into the signed
      range. */
  function Int32(n: int): (v: int)
    ensures -0x8000_0000 <= v < 0x8000_0000
    ensures 0 <= n < 0x8000_0000 ==> v == n
  {
    var m := n % 0x1_0000_0000;
    if m >= 0x8000_0000 then m - 0x1_0000_0000 else m
  }

  /** A space with a letter or digit on each side. */
  predicate InnerSpace(t: string) {
    exists j :: 0 < j < |t| - 1 && t[j] == ' ' && AsciiAlnum(t[j - 1]) && AsciiAlnum(t[j + 1])
  }

  predicate AsciiAlnum(c: char) {
    'a' <= c <= 'z' || 'A' <= c <= 'Z' || '0' <= c <= '9'
  }

  /** The status `writeHead` works with, `status | 0`, for the values the
      model reads. A number is taken modulo 2^32 (the handler passes only
      small integer literals). A text goes through ECMA-262's StringToNumber,
      which trims white space and then needs the whole rest to be one numeric
      literal. The model reads two kinds of text:
      - up to 15 decimal digits: the number they spell, exact in a double;
      - a text with a space between two letters or digits: that space
        survives the trimming and no numeric literal holds a space, so the
        text is NaN, and NaN | 0 is 0.
      Any other text (signs, fractions, exponents, "0x" forms, surrounding
      white space, long digit strings) is left unread: `None`. */
  function StatusValue(a: Arg): (v: Option<int>)
    ensures a.Code? ==> v.Some?
    ensures a.Code? && a.n < 0x8000_0000 ==> v == Some(a.n)
    ensures a.Str? && IsDigits(a.s) && |a.s| <= 15 ==> v == Some(Int32(DecimalValue(a.s)))
    ensures a.Str? && InnerSpace(a.s) ==> v == Some(0)
    ensures v.None? <==> a.Str? && !(IsDigits(a.s) && |a.s| <= 15) && !InnerSpace(a.s)
  {
    match a
    case Code(n) => Some(Int32(n))
    case Str(t) =>
      if IsDigits(t) && |t| <= 15 then Some(Int32(DecimalValue(t)))
      else if InnerSpace(t) then Some(0)
      else None
  }

  /** `responseError(message, status)`: a missing status means 400 and a
      missing message means the routed path. `writeHead` throws on a status
      outside 100..999, so then nothing at all is written. */
  function ResponseError(message: Option<Arg>, status: Option<Arg>, path: string): (r: Route)
    ensures r.Reply? || r.InvalidStatus? || r.UnreadStatus?
    ensures status.None? || !status.value.Truthy() ==> r.Reply? && r.status == 400
    ensures status.Some? && status.value.Code? && 100 <= status.value.n <= 999 ==>
      r.Reply? && r.status == status.value.n
    ensures status.Some? && status.value.Str? && InnerSpace(status.value.s) ==>
      r == InvalidStatus(status.value.s)
    ensures status.Some? && status.value.Str? && IsDigits(status.value.s) && 0 < |status.value.s| <= 15 ==>
      var n := Int32(DecimalValue(status.value.s));
      (100 <= n <= 999 ==> r.Reply? && r.status == n) && (n < 100 || n > 999 ==> r.InvalidStatus?)
    ensures r.UnreadStatus? <==> status.Some? && status.value.Truthy() && StatusValue(status.value).None?
    ensures r.Reply? ==> 100 <= r.status <= 999 && StartsWith(r.body, "Bad Request\n")
    ensures r.Reply? && message.Some? && message.value.Truthy() ==>
      r.body == "Bad Request\n" + message.value.Show()
    ensures r.Reply? && (message.None? || !message.value.Truthy()) ==>
      r.body == "Bad Request\n" + path
  {
    var code := if status.Some? && status.value.Truthy() then status.value else Code(400);
    var text := if message.Some? && message.value.Truthy() then message.value.Show() else path;
    match StatusValue(code)
    case None => UnreadStatus(code.Show())
    case Some(v) =>
      if 100 <= v <= 999 then Reply(v as nat, "Bad Request\n" + text) else InvalidStatus(code.Show())
  }

  /** The path with its first "?nocache" removed. The removal never touches a
      leading "/url=": that prefix holds no '?'. */
  function DropNocache(u: string): (v: string)
    ensures StartsWith(u, "/url=") ==> StartsWith(v, "/url=")
    ensures Contains(u, "?nocache") ==> |v| == |u| - 8
    ensures !Contains(u, "?nocache") ==> v == u
    ensures Contains(u, "?nocache") ==>
      exists i: nat :: FirstAt(u, "?nocache", i) && v == u[..i] + u[i + 8..]
  {
    var v := ReplaceFirst(u, "?nocache", "");
    match IndexOf(u, "?nocache")
    case None => v
    case Some(i) =>
      assert u[i] == '?' by {
        assert u[i..i + 8] == "?nocache";
      }
      assert StartsWith(u, "/url=") ==> i >= 5 by {
        if StartsWith(u, "/url=") {
          assert u[..5] == "/url=";
          assert forall k :: 0 <= k < 5 ==> u[k] != '?';
        }
      }
      assert v == u[..i] + u[i + 8..];
      assert FirstAt(u, "?nocache", i);
      assert StartsWith(u, "/url=") ==> v[..5] == u[..5];
      v
  }

  /** `u.split('/url=')[1]` for a path that starts with "/url=": the text after
      that prefix up to the next "/url=", or to the end. */
  function TargetSegment(u: string): (seg: string)
    requires StartsWith(u, "/url=")
    ensures StartsWith(u[5..], seg)
    ensures !Contains(seg, "/url=")
    ensures |seg| == |u| - 5 || StartsWith(u[5 + |seg|..], "/url=")
  {
    StartsWithIndex(u, "/url=");
    var parts := Split(u, "/url=");
    assert parts == [u[..0]] + Split(u[5..], "/url=");
    var seg := parts[1];
    assert seg == Before(u[5..], "/url=");
    assert u[5..][|seg|..] == u[5 + |seg|..];
    seg
  }

  /** One trailing ".pdf" removed, if present. */
  function StripPdf(t: string): (r: string)
    ensures EndsWith(t, ".pdf") ==> r + ".pdf" == t
    ensures !EndsWith(t, ".pdf") ==> r == t
  {
    if EndsWith(t, ".pdf") then t[..|t| - 4] else t
  }

  /** Exactly one ".pdf" is stripped, even from a name that ends in ".pdf". */
  lemma StripPdfOnce(name: string)
    ensures StripPdf(name + ".pdf") == name
  {
    assert (name + ".pdf")[|name|..] == ".pdf";
    assert (name + ".pdf")[..|name|] == name;
  }

  /** The single-page route's reading of a path that starts with "/url=":
      the cache-bypass flag, then the target. */
  function ParseSinglePage(u: string): (r: Route)
    requires StartsWith(u, "/url=")
    ensures r.SinglePage?
    ensures r.nocache <==> Contains(u, "?nocache")
    ensures r.target == StripPdf(TargetSegment(DropNocache(u)))
    ensures var v := DropNocache(u);
      |v| >= 5 && (!Contains(v[5..], "/url=") ==> r.target == StripPdf(v[5..]))
    ensures !Contains(u[5..], "?nocache") && !Contains(u[5..], "/url=") ==>
      r == SinglePage(StripPdf(u[5..]), false)
  {
    var v := DropNocache(u);
    assert !Contains(v[5..], "/url=") ==> TargetSegment(v) == v[5..] by {
      if !Contains(v[5..], "/url=") { WholeSegment(v); }
    }
    assert !Contains(u[5..], "?nocache") ==> !Contains(u, "?nocache") by {
      if !Contains(u[5..], "?nocache") { NocacheNotInPrefix(u); }
    }
    SinglePage(StripPdf(TargetSegment(v)), Contains(u, "?nocache"))
  }

  /** Without a second "/url=", the target segment is everything after the
      first. */
  lemma WholeSegment(v: string)
    requires StartsWith(v, "/url=") && !Contains(v[5..], "/url=")
    ensures TargetSegment(v) == v[5..]
  {
    var seg := TargetSegment(v);
    assert !OccursAt(v[5..], "/url=", |seg|);
    assert v[5..][|seg|..] == v[5 + |seg|..];
  }

  /** The "/url=" prefix holds no '?', so "?nocache" can only occur after it. */
  lemma NocacheNotInPrefix(u: string)
    requires StartsWith(u, "/url=") && !Contains(u[5..], "?nocache")
    ensures !Contains(u, "?nocache")
  {
    var pat := "?nocache";
    assert u[..5] == "/url=";
    forall j: nat
      ensures !OccursAt(u, pat, j)
    {
      if OccursAt(u, pat, j) {
        assert u[j] == '?' by {
          assert u[j..j + 8][0] == pat[0];
        }
        assert j >= 5 by {
          assert forall k :: 0 <= k < 5 ==> u[k] != '?';
        }
        assert u[5..][j - 5..j - 5 + 8] == u[j..j + 8];
        ContainsAt(u[5..], pat, j - 5);
      }
    }
  }

  /** The two route prefixes exclude each other. */
  lemma RoutePrefixesDisjoint(p: string)
    ensures !(StartsWith(p, "/Libretext=") && StartsWith(p, "/url="))
  {
    assert StartsWith(p, "/Libretext=") ==> p[1] == 'L';
    assert StartsWith(p, "/url=") ==> p[1] == 'u';
  }

  /** The batch endpoint's checks, in the source's order: origin first, then
      the method. */
  function BatchRoute(origin: Option<string>, verb: string, path: string): (r: Route)
    ensures r.StartBatch? <==>
      origin.Some? && EndsWith(origin.value, "libretexts.org") && verb == "PUT"
    ensures r.Preflight? <==>
      origin.Some? && EndsWith(origin.value, "libretexts.org") && verb == "OPTIONS"
    ensures r.Preflight? ==> r.allowMethods == "PUT" && Some(r.allowOrigin) == origin
    ensures r.MissingOrigin? <==> origin.None?
    ensures r.InvalidStatus? <==>
      origin.Some? && (!EndsWith(origin.value, "libretexts.org") || (verb != "OPTIONS" && verb != "PUT"))
    ensures !r.SinglePage? && !r.Static? && !r.Reply? && !r.UnreadStatus?
  {
    match origin
    case None => MissingOrigin
    case Some(o) =>
      if EndsWith(o, "libretexts.org") then
        if verb == "OPTIONS" then Preflight(o, "PUT")
        else if verb == "PUT" then StartBatch
        else
          MethodTextHasInnerSpace(verb);
          ResponseError(Some(Code(406)), Some(Str(verb + " Not Acceptable")), path)
      else
        CorsTextHasInnerSpace(o);
        ResponseError(Some(Code(403)), Some(Str("CORS Error " + o)), path)
  }

  /** "CORS Error <origin>" has a space between "CORS" and "Error", so it
      converts to NaN whatever the origin. */
  lemma CorsTextHasInnerSpace(origin: string)
    ensures InnerSpace("CORS Error " + origin)
  {
    var t := "CORS Error " + origin;
    assert t[3] == 'S' && t[4] == ' ' && t[5] == 'E';
  }

  /** "<METHOD> Not Acceptable" has a space between "Not" and "Acceptable",
      so it converts to NaN whatever the method. */
  lemma MethodTextHasInnerSpace(verb: string)
    ensures InnerSpace(verb + " Not Acceptable")
  {
    var t := verb + " Not Acceptable";
    var j := |verb| + 4;
    assert t[j - 1] == 't' && t[j] == ' ' && t[j + 1] == 'A';
  }

  /** The request handler's routing decision. */
  function Handle(req: Request): (r: Route)
    ensures var p := RoutedPath(req.url);
      r.SinglePage? <==> StartsWith(p, "/url=") && Contains(p, "libretexts.org")
    ensures var p := RoutedPath(req.url);
      r.Static? <==> !StartsWith(p, "/Libretext=") && !r.SinglePage?
    ensures var p := RoutedPath(req.url);
      StartsWith(p, "/Libretext=") ==> r == BatchRoute(req.origin, req.verb, p)
    ensures var p := RoutedPath(req.url);
      StartsWith(p, "/url=") && Contains(p, "libretexts.org") ==> r == ParseSinglePage(p)
    ensures r.Static? ==> r == Static(RoutedPath(req.url))
  {
    var p := RoutedPath(req.url);
    RoutePrefixesDisjoint(p);
    if StartsWith(p, "/url=") && Contains(p, "libretexts.org") then
      ParseSinglePage(p)
    else if StartsWith(p, "/Libretext=") then
      BatchRoute(req.origin, req.verb, p)
    else Static(p)
  }

  /** Batch intake: a PUT from an accepted origin starts a batch, an OPTIONS
      preflight is answered with PUT as the allowed method, and nothing else
      on the batch path starts a render — no origin, a foreign origin or any
      other method is turned away. */
  lemma BatchIntake(req: Request)
    requires StartsWith(RoutedPath(req.url), "/Libretext=")
    ensures var ok := req.origin.Some? && EndsWith(req.origin.value, "libretexts.org");
      && (Handle(req).StartBatch? <==> ok && req.verb == "PUT")
      && (Handle(req).Preflight? <==> ok && req.verb == "OPTIONS")
      && (StartsRender(Handle(req)) <==> ok && req.verb == "PUT")
  {
  }

  /** The single-page failure, `responseError("Server \n" + err, 500)`, is
      the one call with the arguments in order: a 500 whose body carries the
      error. */
  lemma SinglePageFailureReply(err: string, path: string)
    ensures ResponseError(Some(Str("Server \n" + err)), Some(Code(500)), path)
         == Reply(500, "Bad Request\n" + ("Server \n" + err))
  {
    var m := "Server \n" + err;
    assert m[0] == 'S';
    assert StatusValue(Code(500)) == Some(500);
  }

  /** A foreign origin is refused with `responseError(403, "CORS Error " + origin)`,
      whose arguments are in the wrong order: `writeHead` is handed the text
      as the status, converts it to 0 and throws, so the handler throws before
      anything is written. */
  lemma ForeignOriginReply(origin: string, verb: string, path: string)
    requires !EndsWith(origin, "libretexts.org")
    ensures BatchRoute(Some(origin), verb, path) == InvalidStatus("CORS Error " + origin)
  {
    CorsTextHasInnerSpace(origin);
  }

  /** A method other than OPTIONS or PUT on an accepted origin is refused the
      same way: the status "<METHOD> Not Acceptable" makes `writeHead` throw. */
  lemma ForeignMethodReply(origin: string, verb: string, path: string)
    requires EndsWith(origin, "libretexts.org")
    requires verb != "OPTIONS" && verb != "PUT"
    ensures BatchRoute(Some(origin), verb, path) == InvalidStatus(verb + " Not Acceptable")
  {
    MethodTextHasInnerSpace(verb);
  }

  /** The origin check is a bare suffix test, so a host that merely ends in
      "libretexts.org" without being a subdomain of it is let through. */
  lemma OriginSuffixAdmitsLookalike(path: string)
    ensures BatchRoute(Some("https://notlibretexts.org"), "PUT", path) == StartBatch
  {
    assert EndsWith("https://notlibretexts.org", "libretexts.org");
  }
}
