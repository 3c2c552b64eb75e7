/** How the export widget's requests meet the batch service's router: the
    page-PDF link comes back as a single-page render of the page, and the
    compile request never starts a batch. */
module Interplay {
  import opened Common
  import opened Text
  import Intake
  import ExportMenu
  import ExportBatch

  /** The router strips the "print/" of a path on the batch host. */
  lemma PrintStripped(u: string, rest: string)
    requires u == "/print/" + rest
    ensures Intake.RoutedPath(u) == "/" + rest
  {
    assert OccursAt(u, "print/", 1) by {
      assert u[1..7] == "print/";
    }
    assert !OccursAt(u, "print/", 0) by {
      assert u[0] == '/';
    }
    var i := IndexOf(u, "print/").value;
    assert i == 1;
    assert u[..1] + "" + u[7..] == "/" + rest;
  }

  /** Text free of '?' and '=' — a page address without a query. */
  predicate QueryFree(s: string) {
    forall k :: 0 <= k < |s| ==> s[k] != '?' && s[k] != '='
  }

  /** The single-page path for a page address free of '?' and '=' reads back
      as that address, without the cache bypass. */
  lemma ReadPlainPagePath(page: string)
    requires QueryFree(page)
    ensures var u := "/url=" + page + ".pdf";
      Intake.ParseSinglePage(u) == Intake.SinglePage(page, false)
  {
    var u := "/url=" + page + ".pdf";
    assert StartsWith(u, "/url=") by {
      assert u[..5] == "/url=";
    }
    assert forall k :: 0 <= k < |u| ==> u[k] != '?' by {
      assert forall k :: 5 <= k < 5 + |page| ==> u[k] == page[k - 5];
    }
    CharFreeNoOccurrence(u, "?nocache", 0);
    var tail := u[5..];
    assert tail == page + ".pdf";
    assert forall k :: 0 <= k < |tail| ==> tail[k] != '=' by {
      assert forall k :: 0 <= k < |page| ==> tail[k] == page[k];
    }
    CharFreeNoOccurrence(tail, "/url=", 4);
    assert Intake.TargetSegment(u) == tail;
    Intake.StripPdfOnce(page);
  }

  /** The page-PDF link of a page without a query, on a libretexts.org origin,
      routes to a single-page render of exactly that page. */
  lemma PageLinkRoutesToPage(loc: ExportMenu.Location, origin: Option<string>)
    requires loc.search == ""
    requires QueryFree(loc.origin + loc.pathname)
    requires Contains(loc.origin, "libretexts.org")
    ensures var link := ExportMenu.PagePdfLink(loc);
      && StartsWith(link, BatchHost)
      && Intake.Handle(Intake.Request(link[|BatchHost|..], "GET", origin))
         == Intake.SinglePage(loc.origin + loc.pathname, false)
  {
    var page := loc.origin + loc.pathname;
    var link := ExportMenu.PagePdfLink(loc);
    LinkShape(page, "", link);
    assert page + "" == page;
    var u := link[|BatchHost|..];
    PrintStripped(u, "url=" + page + ".pdf");
    SinglePagePath(loc.origin, page, u);
    assert Intake.RoutedPath(u) == "/" + ("url=" + page + ".pdf");
  }

  const BatchHost: string := "https://batch.libretexts.org"

  /** The routed single-page path of a page on a libretexts.org origin. */
  lemma SinglePagePath(origin: string, page: string, u: string)
    requires StartsWith(page, origin) && Contains(origin, "libretexts.org")
    requires QueryFree(page)
    requires Intake.RoutedPath(u) == "/" + ("url=" + page + ".pdf")
    ensures var p := Intake.RoutedPath(u);
      && StartsWith(p, "/url=") && Contains(p, "libretexts.org")
      && Intake.ParseSinglePage(p) == Intake.SinglePage(page, false)
  {
    var p := "/" + ("url=" + page + ".pdf");
    assert p == "/url=" + page + ".pdf";
    assert StartsWith(p, "/url=") by {
      assert p[..5] == "/url=";
    }
    OriginInPath(origin, page, p[5 + |page|..]);
    assert p == "/url=" + page + p[5 + |page|..];
    ReadPlainPagePath(page);
  }

  /** The widget's compile request is a GET to the batch path, which the
      router turns away whatever the origin: it never starts a batch. With no
      origin the request is left unanswered; with one, the refusal hands
      `writeHead` a text status, so the handler throws. */
  lemma CompileRequestNeverStartsBatch(target: Option<string>, extra: string, href: string,
                                       origin: Option<string>)
    ensures var a := ExportBatch.BatchClick(None, target, extra, href);
      && a.SendRequest? && a.verb == "GET" && StartsWith(a.url, BatchHost)
      && var r := Intake.Handle(Intake.Request(a.url[|BatchHost|..], a.verb, origin));
      && !Intake.StartsRender(r)
      && (origin.None? ==> r.MissingOrigin?)
      && (origin.Some? ==> r.InvalidStatus?)
  {
    var a := ExportBatch.BatchClick(None, target, extra, href);
    var what := a.url[|ExportBatch.BatchPrefix|..];
    ClickShape(a.url, what);
    var u := a.url[|BatchHost|..];
    PrintStripped(u, "Libretext=" + what);
    BatchPathPrefix(what);
    Intake.BatchIntake(Intake.Request(u, a.verb, origin));
  }

  lemma ClickShape(url: string, what: string)
    requires StartsWith(url, ExportBatch.BatchPrefix) && what == url[|ExportBatch.BatchPrefix|..]
    ensures StartsWith(url, BatchHost)
    ensures url[|BatchHost|..] == "/print/" + ("Libretext=" + what)
  {
    assert ExportBatch.BatchPrefix == BatchHost + "/print/" + "Libretext=";
    assert url == ExportBatch.BatchPrefix + what;
  }

  lemma BatchPathPrefix(what: string)
    ensures StartsWith("/" + ("Libretext=" + what), "/Libretext=")
  {
    var p := "/" + ("Libretext=" + what);
    assert p[..11] == "/Libretext=";
  }

  /** The widget turns a "?nocache" query into "?nocache=". */
  lemma NocacheQuery(search: string)
    requires search == "?nocache"
    ensures ExportMenu.PageQuery(search) == "?nocache="
  {
    var ps := [ExportMenu.Param("nocache", "")];
    NocacheParsed(search);
    assert ExportMenu.KeepCacheKeys(ps) == ps;
    NocacheSerialized(ps);
  }

  /** "?nocache" is read as one parameter named "nocache" with no value. */
  lemma NocacheParsed(search: string)
    requires search == "?nocache"
    ensures ExportMenu.ParseQuery(search) == [ExportMenu.Param("nocache", "")]
  {
    var body := search[1..];
    assert body == "nocache";
    assert forall k :: 0 <= k < |body| ==> body[k] != '&' && body[k] != '=';
    NoChar(body, '&');
    assert Split(body, "&") == [body];
    NoChar(body, '=');
    assert ExportMenu.NameValue(body) == ExportMenu.Param("nocache", "");
    assert ExportMenu.ParsePieces([body]) == [ExportMenu.NameValue(body)] + ExportMenu.ParsePieces([]);
  }

  /** The parameter "nocache" with no value is written back as "nocache=". */
  lemma NocacheSerialized(ps: seq<ExportMenu.Param>)
    requires ps == [ExportMenu.Param("nocache", "")]
    ensures ExportMenu.Serialize(ps) == "nocache="
  {
    assert ExportMenu.Pieces(ps) == [ps[0].name + "=" + ps[0].value] + ExportMenu.Pieces([]);
    assert ps[0].name + "=" + ps[0].value == "nocache=";
  }

  /** After the first "?nocache" is dropped from "/url=<page>?nocache=.pdf",
      the "=" stays behind on the target. */
  lemma ReadNocachePagePath(page: string)
    requires QueryFree(page) && !EndsWith(page, "/url")
    ensures var u := "/url=" + page + "?nocache=" + ".pdf";
      Intake.ParseSinglePage(u) == Intake.SinglePage(page + "=", true)
  {
    var u := "/url=" + page + "?nocache=" + ".pdf";
    assert StartsWith(u, "/url=") by {
      assert u[..5] == "/url=";
    }
    var v := "/url=" + page + "=.pdf";
    NocacheDropped(page);
    assert Intake.DropNocache(u) == v;
    EqualsTailSegment(page);
    assert Intake.TargetSegment(v) == (page + "=") + ".pdf";
    Intake.StripPdfOnce(page + "=");
  }

  /** In "/url=<page>?nocache=.pdf" the first "?nocache" follows the page,
      so dropping it leaves "/url=<page>=.pdf". */
  lemma NocacheDropped(page: string)
    requires QueryFree(page)
    ensures var u := "/url=" + page + "?nocache=" + ".pdf";
      && Contains(u, "?nocache")
      && Intake.DropNocache(u) == "/url=" + page + "=.pdf"
  {
    var u := "/url=" + page + "?nocache=" + ".pdf";
    var i := 5 + |page|;
    assert OccursAt(u, "?nocache", i) by {
      assert u[i..i + 8] == "?nocache";
    }
    assert forall k :: 0 <= k < i ==> u[k] != '?' by {
      assert forall k :: 5 <= k < i ==> u[k] == page[k - 5];
    }
    assert IndexOf(u, "?nocache") == Some(i) by {
      var r := IndexOf(u, "?nocache");
      assert r.Some? && r.value <= i;
      assert u[r.value..r.value + 8][0] == u[r.value];
    }
    ContainsAt(u, "?nocache", i);
    assert u[..i] + u[i + 8..] == "/url=" + page + "=.pdf";
  }

  /** The target segment of "/url=<page>=.pdf" is everything after "/url=". */
  lemma EqualsTailSegment(page: string)
    requires QueryFree(page) && !EndsWith(page, "/url")
    ensures var v := "/url=" + page + "=.pdf";
      StartsWith(v, "/url=") && Intake.TargetSegment(v) == page + "=.pdf"
  {
    var v := "/url=" + page + "=.pdf";
    assert v[..5] == "/url=";
    assert v[5..] == page + "=.pdf";
    EqualsTailNoUrl(page);
    Intake.WholeSegment(v);
  }

  /** The only '=' in "<page>=.pdf" follows the page, so "/url=" could only
      occur there if the page ended in "/url". */
  lemma EqualsTailNoUrl(page: string)
    requires QueryFree(page) && !EndsWith(page, "/url")
    ensures !Contains(page + "=.pdf", "/url=")
  {
    var t := page + "=.pdf";
    assert forall k :: 0 <= k < |page| ==> t[k] == page[k];
    assert t[|page|..] == "=.pdf";
    forall j: nat
      ensures !OccursAt(t, "/url=", j)
    {
      if j + 5 <= |t| {
        assert t[j..j + 5][4] == t[j + 4];
        assert t[j + 4] == '=' ==> j + 4 == |page|;
        assert j + 4 == |page| ==> t[j..j + 4] == page[|page| - 4..];
        assert t[j..j + 5][..4] == t[j..j + 4];
      }
    }
  }

  /** The widget's cache-bypass link for a page on a libretexts.org origin
      reaches the router as a cache-bypassing render of the page address
      with a stray "=" appended: the widget serialises the bare key as
      "nocache=", and the router removes only "?nocache". */
  lemma NocacheLinkKeepsEquals(loc: ExportMenu.Location, origin: Option<string>)
    requires loc.search == "?nocache"
    requires QueryFree(loc.origin + loc.pathname) && !EndsWith(loc.origin + loc.pathname, "/url")
    requires Contains(loc.origin, "libretexts.org")
    ensures var link := ExportMenu.PagePdfLink(loc);
      && StartsWith(link, BatchHost)
      && Intake.Handle(Intake.Request(link[|BatchHost|..], "GET", origin))
         == Intake.SinglePage(loc.origin + loc.pathname + "=", true)
  {
    var page := loc.origin + loc.pathname;
    var link := ExportMenu.PagePdfLink(loc);
    var rest := "url=" + page + "?nocache=" + ".pdf";
    NocacheQuery(loc.search);
    LinkShape(page, "?nocache=", link);
    PrintStripped(link[|BatchHost|..], rest);
    NocachePagePath(loc.origin, page, link[|BatchHost|..]);
    assert Intake.RoutedPath(link[|BatchHost|..]) == "/" + rest;
  }

  /** A page link is the batch host followed by the single-page path of the
      page address and its query. */
  lemma LinkShape(page: string, query: string, link: string)
    requires link == ExportMenu.SinglePageLink(page + query)
    ensures StartsWith(link, BatchHost)
    ensures link[|BatchHost|..] == "/print/" + ("url=" + page + query + ".pdf")
  {
    var prefix := ExportMenu.SinglePagePrefix;
    var n := |link|;
    assert link == prefix + (page + query) + ".pdf" by {
      assert link[..|prefix|] == prefix;
      assert link[|prefix|..n - 4] == page + query;
      assert link[n - 4..] == ".pdf";
      assert link == link[..|prefix|] + link[|prefix|..n - 4] + link[n - 4..];
    }
    SinglePagePrefixParts();
    assert link == BatchHost + ("/print/" + ("url=" + page + query + ".pdf"));
    assert link[..|BatchHost|] == BatchHost;
  }

  /** The single-page prefix is the batch host, "/print/" and "url=". */
  lemma SinglePagePrefixParts()
    ensures ExportMenu.SinglePagePrefix == BatchHost + "/print/" + "url="
  {
  }

  /** A path "/url=<page><tail>" mentions whatever the page's origin mentions. */
  lemma OriginInPath(origin: string, page: string, tail: string)
    requires StartsWith(page, origin) && Contains(origin, "libretexts.org")
    ensures Contains("/url=" + page + tail, "libretexts.org")
  {
    var pat := "libretexts.org";
    var j := IndexOf(origin, pat).value;
    assert page[..|origin|] == origin;
    OccursInPrefix(page, pat, |origin|, j);
    var t := page + tail;
    assert t[..|page|] == page;
    OccursInPrefix(t, pat, |page|, j);
    var p := "/url=" + page + tail;
    assert p[5..] == t;
    OccursInSuffix(p, pat, 5, j);
    ContainsAt(p, pat, 5 + j);
  }

  lemma NocachePagePath(origin: string, page: string, u: string)
    requires StartsWith(page, origin) && Contains(origin, "libretexts.org")
    requires QueryFree(page) && !EndsWith(page, "/url")
    requires Intake.RoutedPath(u) == "/" + ("url=" + page + "?nocache=" + ".pdf")
    ensures var p := Intake.RoutedPath(u);
      && StartsWith(p, "/url=") && Contains(p, "libretexts.org")
      && Intake.ParseSinglePage(p) == Intake.SinglePage(page + "=", true)
  {
    var p := "/" + ("url=" + page + "?nocache=" + ".pdf");
    assert p == "/url=" + page + "?nocache=" + ".pdf";
    assert StartsWith(p, "/url=") by {
      assert p[..5] == "/url=";
    }
    OriginInPath(origin, page, p[5 + |page|..]);
    assert p == "/url=" + page + p[5 + |page|..];
    ReadNocachePagePath(page);
  }
}
