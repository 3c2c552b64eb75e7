/** The export widget's menus: the query filtering behind the page-PDF link,
    the PDF menu's items and their order, and the prepared-downloads links. */
module ExportMenu {
  import opened Common
  import opened Text
  import ExportAccess

  // ---------------------------------------------------------------------
  // Query parameters
  // ---------------------------------------------------------------------

  /** One name/value pair of a `URLSearchParams` list. */
  datatype Param = Param(name: string, value: string)

  /** The cache-control names the page-PDF link keeps. */
  predicate CacheKey(name: string) {
    name == "no-cache" || name == "nocache"
  }

  /** One `&`-separated piece of a query: the name before its first `=` and
      the value after it, or the whole piece and an empty value. */
  function NameValue(piece: string): (p: Param)
    ensures !Contains(p.name, "=")
    ensures !Contains(piece, "=") ==> p == Param(piece, "")
    ensures Contains(piece, "=") ==> piece == p.name + "=" + p.value
  {
    var name := Before(piece, "=");
    if |name| < |piece| then
      assert piece[|name|..][..1] == "=";
      assert piece == name + "=" + piece[|name| + 1..];
      Param(name, piece[|name| + 1..])
    else Param(name, "")
  }

  function ParsePieces(pieces: seq<string>): seq<Param> {
    if pieces == [] then []
    else (if pieces[0] == "" then [] else [NameValue(pieces[0])]) + ParsePieces(pieces[1..])
  }

  /** The `URLSearchParams` list built from a query string: a leading `?` is
      dropped, empty pieces are skipped. Every pair read is plain: no `&`
      anywhere, no `=` in the name. */
  function ParseQuery(search: string): (ps: seq<Param>)
    ensures forall k :: 0 <= k < |ps| ==> Plain(ps[k])
    ensures search == "" || search == "?" ==> ps == []
  {
    var body := if |search| > 0 && search[0] == '?' then search[1..] else search;
    SplitFieldsFree(body, "&");
    ParsePiecesPlain(Split(body, "&"));
    assert search == "?" ==> body == "";
    assert body == "" ==> Split(body, "&") == [""];
    assert ParsePieces([""]) == [];
    ParsePieces(Split(body, "&"))
  }

  function Pieces(ps: seq<Param>): (pieces: seq<string>)
    ensures |pieces| == |ps|
  {
    if ps == [] then [] else [ps[0].name + "=" + ps[0].value] + Pieces(ps[1..])
  }

  /** `URLSearchParams.toString()`: `name=value` pairs joined by `&` (every
      pair gets its `=`, even with an empty value). */
  function Serialize(ps: seq<Param>): (q: string)
    ensures q == "" <==> ps == []
  {
    if ps == [] then "" else
      var q := Join(Pieces(ps), "&");
      JoinStartsWithFirst(Pieces(ps), "&");
      q
  }

  lemma JoinStartsWithFirst(parts: seq<string>, sep: string)
    requires |parts| >= 1
    ensures StartsWith(Join(parts, sep), parts[0])
  {
  }

  /** A pair that survives serialisation unchanged: no `&` anywhere and no
      `=` in the name, and something to mark the piece as present. */
  predicate Plain(p: Param) {
    && (forall j :: 0 <= j < |p.name| ==> p.name[j] != '&' && p.name[j] != '=')
    && (forall j :: 0 <= j < |p.value| ==> p.value[j] != '&')
  }

  /** Parsing a serialised list gives the list back. */
  lemma {:induction false} SerializeParseRoundTrip(ps: seq<Param>)
    requires forall k :: 0 <= k < |ps| ==> Plain(ps[k])
    ensures ParseQuery("?" + Serialize(ps)) == ps
  {
    if ps == [] {
      assert ("?" + Serialize(ps))[1..] == "";
      assert Split("", "&") == [""];
      assert ParsePieces([""]) == [];
    } else {
      var pieces := Pieces(ps);
      PiecesPlain(ps);
      JoinSplitChar(pieces, '&');
      assert ("?" + Serialize(ps))[1..] == Join(pieces, "&");
      ParsePiecesRoundTrip(ps);
    }
  }

  lemma {:induction false} PiecesPlain(ps: seq<Param>)
    requires forall k :: 0 <= k < |ps| ==> Plain(ps[k])
    ensures forall k, j :: 0 <= k < |Pieces(ps)| && 0 <= j < |Pieces(ps)[k]| ==> Pieces(ps)[k][j] != '&'
  {
    if ps != [] {
      PiecesPlain(ps[1..]);
      var piece := ps[0].name + "=" + ps[0].value;
      assert forall j :: 0 <= j < |piece| ==> piece[j] != '&' by {
        assert Plain(ps[0]);
      }
      assert forall k :: 1 <= k < |Pieces(ps)| ==> Pieces(ps)[k] == Pieces(ps[1..])[k - 1];
    }
  }

  lemma {:induction false} ParsePiecesRoundTrip(ps: seq<Param>)
    requires forall k :: 0 <= k < |ps| ==> Plain(ps[k])
    ensures ParsePieces(Pieces(ps)) == ps
  {
    if ps != [] {
      var p := ps[0];
      var piece := p.name + "=" + p.value;
      assert Plain(p);
      assert piece[|p.name|] == '=';
      BeforeChar(piece, '=', |p.name|);
      assert piece[..|p.name|] == p.name;
      assert piece[|p.name| + 1..] == p.value;
      assert NameValue(piece) == p;
      assert Pieces(ps)[1..] == Pieces(ps[1..]);
      ParsePiecesRoundTrip(ps[1..]);
    }
  }

  /** `URLSearchParams.delete(name)`: every pair with that name goes, the
      rest keep their order. */
  function RemoveName(ps: seq<Param>, name: string): (r: seq<Param>)
    ensures |r| <= |ps|
    ensures forall k :: 0 <= k < |r| ==> r[k].name != name && r[k] in ps
    ensures forall k :: 0 <= k < |ps| && ps[k].name != name ==> ps[k] in r
  {
    if ps == [] then []
    else (if ps[0].name == name then [] else [ps[0]]) + RemoveName(ps[1..], name)
  }

  /** Deleting from a joined list deletes from each part, so the survivors
      keep their relative order. */
  lemma {:induction false} RemoveNameAppend(a: seq<Param>, b: seq<Param>, name: string)
    ensures RemoveName(a + b, name) == RemoveName(a, name) + RemoveName(b, name)
  {
    if a == [] {
      assert a + b == b;
    } else {
      assert (a + b)[0] == a[0];
      assert (a + b)[1..] == a[1..] + b;
      RemoveNameAppend(a[1..], b, name);
    }
  }

  /** The intended filter: keep exactly the cache-control pairs, in order. */
  function KeepCacheKeys(ps: seq<Param>): (r: seq<Param>)
    ensures |r| <= |ps|
    ensures forall k :: 0 <= k < |r| ==> CacheKey(r[k].name)
  {
    if ps == [] then []
    else (if CacheKey(ps[0].name) then [ps[0]] else []) + KeepCacheKeys(ps[1..])
  }

  /** The filter keeps a pair exactly when it is a cache-control pair, and
      leaves an all-cache-control list as it is. */
  lemma {:induction false} KeepCacheKeysMembers(ps: seq<Param>)
    ensures forall p :: p in KeepCacheKeys(ps) <==> p in ps && CacheKey(p.name)
    ensures (forall k :: 0 <= k < |ps| ==> CacheKey(ps[k].name)) ==> KeepCacheKeys(ps) == ps
  {
    if ps != [] {
      KeepCacheKeysMembers(ps[1..]);
      assert forall p :: p in ps <==> p == ps[0] || p in ps[1..];
      if forall k :: 0 <= k < |ps| ==> CacheKey(ps[k].name) {
        assert forall k :: 0 <= k < |ps[1..]| ==> CacheKey(ps[1..][k].name);
        assert ps == [ps[0]] + ps[1..];
      }
    }
  }

  /** Filtering twice is filtering once. */
  lemma KeepCacheKeysIdempotent(ps: seq<Param>)
    ensures KeepCacheKeys(KeepCacheKeys(ps)) == KeepCacheKeys(ps)
  {
    KeepCacheKeysMembers(KeepCacheKeys(ps));
  }

  /** The loop as written: it walks `params.keys()` while deleting from the
      same list. The iterator is an index into the live list, so after a
      deletion the pair that moved into the deleted slot is never visited. */
  function LiveFilter(ps: seq<Param>, i: nat): (r: seq<Param>)
    ensures |r| <= |ps|
    ensures forall k :: 0 <= k < |r| ==> r[k] in ps
    decreases |ps| - i
  {
    if i >= |ps| then ps
    else if CacheKey(ps[i].name) then LiveFilter(ps, i + 1)
    else
      LiveFilter(RemoveName(ps, ps[i].name), i + 1)
  }

  /** Deleting a name that is not a cache key loses no cache-control pair. */
  lemma {:induction false} RemoveKeepsCacheKeys(ps: seq<Param>, name: string)
    requires !CacheKey(name)
    ensures KeepCacheKeys(RemoveName(ps, name)) == KeepCacheKeys(ps)
  {
    if ps != [] {
      RemoveKeepsCacheKeys(ps[1..], name);
      var head := if ps[0].name == name then [] else [ps[0]];
      assert RemoveName(ps, name) == head + RemoveName(ps[1..], name);
      KeepAppend(head, RemoveName(ps[1..], name));
    }
  }

  lemma {:induction false} KeepAppend(a: seq<Param>, b: seq<Param>)
    ensures KeepCacheKeys(a + b) == KeepCacheKeys(a) + KeepCacheKeys(b)
  {
    if a == [] {
      assert a + b == b;
    } else {
      assert (a + b)[0] == a[0];
      assert (a + b)[1..] == a[1..] + b;
      KeepAppend(a[1..], b);
      var head := if CacheKey(a[0].name) then [a[0]] else [];
      assert KeepCacheKeys(a + b) == head + KeepCacheKeys(a[1..] + b);
      assert KeepCacheKeys(a) == head + KeepCacheKeys(a[1..]);
    }
  }

  /** The loop as written never drops a cache-control pair: whatever it gets
      wrong, it gets wrong by keeping too much. */
  lemma {:induction false} LiveFilterKeepsCacheKeys(ps: seq<Param>, i: nat)
    ensures KeepCacheKeys(LiveFilter(ps, i)) == KeepCacheKeys(ps)
    decreases |ps| - i
  {
    if i < |ps| {
      if CacheKey(ps[i].name) {
        LiveFilterKeepsCacheKeys(ps, i + 1);
      } else {
        var rest := RemoveName(ps, ps[i].name);
        LiveFilterKeepsCacheKeys(rest, i + 1);
        RemoveKeepsCacheKeys(ps, ps[i].name);
      }
    }
  }

  /** Two ordinary parameters: the loop deletes the first, skips the second,
      and the second leaks into the link. */
  lemma LiveFilterSkipsNext(a: Param, b: Param)
    requires a == Param("a", "1") && b == Param("b", "2")
    ensures LiveFilter([a, b], 0) == [b]
    ensures KeepCacheKeys([a, b]) == []
  {
    assert RemoveName([a, b], "a") == [b];
  }

  /** The query part of a page link: `?` and the serialised pairs, or
      nothing when no pair is left. */
  function QueryPart(kept: seq<Param>): (q: string)
    ensures q == "" <==> kept == []
    ensures q != "" ==> q[0] == '?' && q[1..] == Serialize(kept)
  {
    var body := Serialize(kept);
    if body != "" then "?" + body else ""
  }

  /** The query part the page link carries, built with the intended filter;
      a page without a query string gets none. */
  function PageQuery(search: string): (q: string)
    ensures search == "" ==> q == ""
    ensures q == "" || q[0] == '?'
  {
    if search == "" then "" else QueryPart(KeepCacheKeys(ParseQuery(search)))
  }

  /** The same, with the loop as written. */
  function PageQueryAsWritten(search: string): (q: string)
    ensures search == "" ==> q == ""
  {
    if search == "" then "" else QueryPart(LiveFilter(ParseQuery(search), 0))
  }

  /** The page link as written still carries every cache-control pair of
      the page's query, in order; it may carry others besides. */
  lemma PageQueryAsWrittenKeepsCacheKeys(search: string)
    requires search != ""
    ensures KeepCacheKeys(ParseQuery(PageQueryAsWritten(search))) == KeepCacheKeys(ParseQuery(search))
  {
    var parsed := ParseQuery(search);
    var kept := LiveFilter(parsed, 0);
    LiveFilterKeepsCacheKeys(parsed, 0);
    if kept == [] {
      assert PageQueryAsWritten(search) == "";
    } else {
      assert forall k :: 0 <= k < |kept| ==> kept[k] in parsed;
      SerializeParseRoundTrip(kept);
    }
  }

  /** The page link's query names only cache-control parameters: reading
      it back gives exactly the cache-control pairs of the page's query. */
  lemma PageQueryOnlyCacheKeys(search: string)
    requires search != ""
    ensures ParseQuery(PageQuery(search)) == KeepCacheKeys(ParseQuery(search))
  {
    var kept := KeepCacheKeys(ParseQuery(search));
    if kept != [] {
      var parsed := ParseQuery(search);
      KeepCacheKeysMembers(parsed);
      assert forall p :: p in parsed ==> Plain(p);
      assert forall k :: 0 <= k < |kept| ==> kept[k] in parsed;
      SerializeParseRoundTrip(kept);
    }
  }

  lemma {:induction false} ParsePiecesPlain(pieces: seq<string>)
    requires forall k :: 0 <= k < |pieces| ==> !Contains(pieces[k], "&")
    ensures forall k :: 0 <= k < |ParsePieces(pieces)| ==> Plain(ParsePieces(pieces)[k])
  {
    if pieces != [] {
      ParsePiecesPlain(pieces[1..]);
      if pieces[0] != "" {
        PiecePlain(pieces[0]);
      }
    }
  }

  lemma PiecePlain(piece: string)
    requires !Contains(piece, "&")
    ensures Plain(NameValue(piece))
  {
    var p := NameValue(piece);
    forall j | 0 <= j < |piece|
      ensures piece[j] != '&'
    {
      if piece[j] == '&' {
        assert OccursAt(piece, "&", j);
        ContainsAt(piece, "&", j);
      }
    }
    forall j | 0 <= j < |p.name|
      ensures p.name[j] != '='
    {
      if p.name[j] == '=' {
        assert OccursAt(p.name, "=", j);
        ContainsAt(p.name, "=", j);
      }
    }
    if Contains(piece, "=") {
      assert piece == p.name + "=" + p.value;
      assert forall j :: 0 <= j < |p.name| ==> p.name[j] == piece[j];
      assert forall j :: 0 <= j < |p.value| ==> p.value[j] == piece[|p.name| + 1 + j];
    }
  }

  /** The browser location the widget reads. */
  datatype Location = Location(origin: string, pathname: string, search: string, href: string)

  const SinglePagePrefix: string := "https://batch.libretexts.org/print/url="

  /** The single-page address on the batch server for a page address. */
  function SinglePageLink(pageURL: string): (link: string)
    ensures var prefix := SinglePagePrefix;
      && StartsWith(link, prefix)
      && EndsWith(link, ".pdf")
      && |prefix| + 4 <= |link|
      && link[|prefix|..|link| - 4] == pageURL
  {
    var prefix := SinglePagePrefix;
    var link := prefix + pageURL + ".pdf";
    assert link[..|prefix|] == prefix;
    assert link[|prefix|..|link| - 4] == pageURL;
    assert link[|link| - 4..] == ".pdf";
    link
  }

  /** The three parts of a concatenation, read back by position. */
  lemma ThreeSlices(a: string, b: string, c: string)
    ensures var s := a + b + c;
      && s[..|a|] == a
      && s[|a|..|s| - |c|] == b
      && s[|s| - |c|..] == c
  {
    var s := a + b + c;
    assert s[..|a|] == a;
    assert s[|a|..|s| - |c|] == b;
  }

  /** A single-page link for a page and a query holds the page right after
      the prefix and the query right before ".pdf". */
  lemma LinkParts(page: string, q: string)
    ensures var link := SinglePageLink(page + q);
      var a := SinglePagePrefix + page;
      && StartsWith(link, a) && EndsWith(link, ".pdf")
      && |a| + 4 <= |link| && link[|a|..|link| - 4] == q
  {
    var link := SinglePageLink(page + q);
    var a := SinglePagePrefix + page;
    assert link == SinglePagePrefix + (page + q) + ".pdf";
    assert link == a + q + ".pdf";
    ThreeSlices(a, q, ".pdf");
  }

  /** The page-PDF link: the single-page address for the page's origin and
      path plus its cache-control query. */
  function PagePdfLink(loc: Location): (link: string)
    ensures var prefix := SinglePagePrefix;
      var page := loc.origin + loc.pathname;
      && StartsWith(link, prefix + page) && EndsWith(link, ".pdf")
      && |prefix + page| + 4 <= |link|
      && var q := link[|prefix + page|..|link| - 4];
      && (loc.search == "" ==> q == "")
      && (q == "" || q[0] == '?')
      && (loc.search != "" ==> ParseQuery(q) == KeepCacheKeys(ParseQuery(loc.search)))
  {
    var q := PageQuery(loc.search);
    LinkParts(loc.origin + loc.pathname, q);
    var link := SinglePageLink(loc.origin + loc.pathname + q);
    assert loc.search != "" ==> ParseQuery(q) == KeepCacheKeys(ParseQuery(loc.search)) by {
      if loc.search != "" { PageQueryOnlyCacheKeys(loc.search); }
    }
    link
  }

  // ---------------------------------------------------------------------
  // The PDF menu
  // ---------------------------------------------------------------------

  /** The PDF menu's items: the prepared full book, a chapter compile, the
      current page, a compile of the page with its subpages, a full
      recompile. */
  datatype MenuItem = FullBook(href: string) | Chapter | Page(href: string) | CompileBook | CompileFull

  /** The fixed position of each kind of item. */
  function Rank(item: MenuItem): nat {
    match item
    case FullBook(_) => 0
    case Chapter => 1
    case Page(_) => 2
    case CompileBook => 3
    case CompileFull => 4
  }

  /** A chapter page: a guide page of a text with no download entry. */
  predicate IsChapter(entry: Option<ExportAccess.Listing>, tags: string) {
    entry.None? && Contains(tags, "\"article:topic-guide\"")
  }

  /** A content page. The quoted tag does not match inside the guide tag. */
  predicate IsTopic(tags: string) {
    Contains(tags, "\"article:topic\"")
  }

  /** A one-item list when `b` holds, else empty. */
  function Opt(b: bool, item: MenuItem): (r: seq<MenuItem>)
    ensures forall x :: x in r <==> b && x == item
    ensures |r| == if b then 1 else 0
  {
    if b then [item] else []
  }

  /** The PDF menu from the facts the widget has gathered: the prepared
      book's link when there is one, whether the page is a chapter, the page
      link on a content page, basic access, and whether a full recompile is
      allowed. The compile item joins only after some earlier item. */
  function PdfMenu(fullBook: Option<string>, chapter: bool, page: Option<string>,
                   basic: bool, recompile: bool): (items: seq<MenuItem>)
    ensures |items| <= 5
    ensures forall h :: FullBook(h) in items <==> fullBook == Some(h)
    ensures Chapter in items <==> chapter
    ensures forall h :: Page(h) in items <==> page == Some(h)
    ensures CompileBook in items <==> basic && (fullBook.Some? || chapter || page.Some?)
    ensures CompileFull in items <==> recompile
  {
    var o0 := Opt(fullBook.Some?, FullBook(fullBook.GetOr("")));
    var o1 := Opt(chapter, Chapter);
    var o2 := Opt(page.Some?, Page(page.GetOr("")));
    var withPage := o0 + o1 + o2;
    assert |withPage| > 0 <==> fullBook.Some? || chapter || page.Some?;
    var o3 := Opt(basic && |withPage| > 0, CompileBook);
    var o4 := Opt(recompile, CompileFull);
    InFive(o0, o1, o2, o3, o4);
    withPage + o3 + o4
  }

  /** Membership in five joined lists is membership in one of them. */
  lemma InFive(o0: seq<MenuItem>, o1: seq<MenuItem>, o2: seq<MenuItem>, o3: seq<MenuItem>, o4: seq<MenuItem>)
    ensures forall x :: x in o0 + o1 + o2 + o3 + o4 <==> x in o0 || x in o1 || x in o2 || x in o3 || x in o4
  {
    assert forall x :: x in o0 + o1 <==> x in o0 || x in o1;
    assert forall x :: x in o0 + o1 + o2 <==> x in o0 + o1 || x in o2;
    assert forall x :: x in o0 + o1 + o2 + o3 <==> x in o0 + o1 + o2 || x in o3;
  }

  /** The menu the widget builds for a page. */
  function WidgetPdfMenu(access: ExportAccess.Access, entry: Option<ExportAccess.Listing>,
                         fullBook: Option<string>, tags: string, loc: Location): (items: seq<MenuItem>)
    ensures |items| <= 5
    ensures forall h :: FullBook(h) in items <==> fullBook == Some(h)
    ensures Chapter in items <==> entry.None? && Contains(tags, "\"article:topic-guide\"")
    ensures forall h :: Page(h) in items <==> IsTopic(tags) && h == PagePdfLink(loc)
    ensures CompileBook in items <==>
      access.basic && (fullBook.Some? || IsChapter(entry, tags) || IsTopic(tags))
    ensures CompileFull in items <==> access.full && entry.Some?
  {
    PdfMenu(fullBook, IsChapter(entry, tags), if IsTopic(tags) then Some(PagePdfLink(loc)) else None,
            access.basic, access.full && entry.Some?)
  }

  /** The items come in the fixed order Full Book, Chapter, Page, Compile
      Book, Compile Full, each at most once. */
  lemma PdfMenuOrder(fullBook: Option<string>, chapter: bool, page: Option<string>,
                     basic: bool, recompile: bool)
    ensures var items := PdfMenu(fullBook, chapter, page, basic, recompile);
      forall j, k :: 0 <= j < k < |items| ==> Rank(items[j]) < Rank(items[k])
  {
    var o0 := Opt(fullBook.Some?, FullBook(fullBook.GetOr("")));
    var o1 := Opt(chapter, Chapter);
    var o2 := Opt(page.Some?, Page(page.GetOr("")));
    var withPage := o0 + o1 + o2;
    var o3 := Opt(basic && |withPage| > 0, CompileBook);
    var o4 := Opt(recompile, CompileFull);
    AppendHigherRank([], o0, 0);
    AppendHigherRank(o0, o1, 1);
    AppendHigherRank(o0 + o1, o2, 2);
    AppendHigherRank(withPage, o3, 3);
    AppendHigherRank(withPage + o3, o4, 4);
  }

  /** Ranks strictly increase along the list. */
  predicate RankOrdered(items: seq<MenuItem>) {
    forall j, k :: 0 <= j < k < |items| ==> Rank(items[j]) < Rank(items[k])
  }

  /** Appending at most one item of a rank above every present item keeps
      the ranks increasing. */
  lemma AppendHigherRank(items: seq<MenuItem>, more: seq<MenuItem>, r: nat)
    requires RankOrdered(items) && |more| <= 1
    requires forall x :: x in items ==> Rank(x) < r
    requires forall x :: x in more ==> Rank(x) == r
    ensures RankOrdered(items + more)
    ensures forall x :: x in items + more ==> Rank(x) < r + 1
  {
    var all := items + more;
    forall j, k | 0 <= j < k < |all|
      ensures Rank(all[j]) < Rank(all[k])
    {
      if k < |items| {
        assert all[j] == items[j] && all[k] == items[k];
      } else {
        assert all[j] == items[j] && items[j] in items;
        assert all[k] == more[k - |items|] && more[k - |items|] in more;
      }
    }
  }

  /** The compile item never comes first: some other item precedes it. */
  lemma CompileBookNeverFirst(fullBook: Option<string>, chapter: bool, page: Option<string>,
                              basic: bool, recompile: bool, k: nat)
    requires var items := PdfMenu(fullBook, chapter, page, basic, recompile);
      k < |items| && items[k] == CompileBook
    ensures k > 0
  {
    var items := PdfMenu(fullBook, chapter, page, basic, recompile);
    PdfMenuOrder(fullBook, chapter, page, basic, recompile);
    assert CompileBook in items;
    var w := if fullBook.Some? then FullBook(fullBook.value)
             else if chapter then Chapter
             else Page(page.GetOr(""));
    assert w in items && Rank(w) < 3;
    var j :| 0 <= j < |items| && items[j] == w;
    assert j < k;
  }

  /** A chapter compile and a full recompile are never offered together. */
  lemma ChapterExcludesCompileFull(access: ExportAccess.Access, entry: Option<ExportAccess.Listing>,
                                   fullBook: Option<string>, tags: string, loc: Location)
    ensures var items := WidgetPdfMenu(access, entry, fullBook, tags, loc);
      !(Chapter in items && CompileFull in items)
  {
  }

  /** The menu the widget builds for a book whose first matching listing is
      tagged "luluPro": since availability is asked without the Pro flag, no
      reader — not even an administrator — is offered the full recompile. */
  lemma LuluProBookHidesCompileFull(h: ExportAccess.Holders, cover: ExportAccess.Cover,
                                    doc: ExportAccess.ListingsDoc, k: nat, tags: string, loc: Location)
    requires k < |ExportAccess.Entries(doc)|
    requires ExportAccess.Matches(ExportAccess.Entries(doc)[k], NatToString(cover.id))
    requires forall j :: 0 <= j < k ==> !ExportAccess.Matches(ExportAccess.Entries(doc)[j], NatToString(cover.id))
    requires "luluPro" in ExportAccess.Entries(doc)[k].tags
    ensures var entry := ExportAccess.DownloadsAvailability(Some(cover), doc, false);
      var items := WidgetPdfMenu(ExportAccess.ReadAccess(h), entry, ExportAccess.BookLink(Some(cover)), tags, loc);
      && CompileFull !in items
      && (Chapter in items <==> Contains(tags, "\"article:topic-guide\""))
  {
    ExportAccess.FirstMatchDecides(cover, doc, false, k);
    var entry := ExportAccess.DownloadsAvailability(Some(cover), doc, false);
  }

  // ---------------------------------------------------------------------
  // Prepared downloads
  // ---------------------------------------------------------------------

  /** One link of the downloads menu. */
  datatype DownloadOption = DownloadOption(key: string, href: string)


  /** The archive name as a template literal renders it. */
  function ShowZip(zip: Option<string>): string {
    match zip
    case None => "undefined"
    case Some(z) => z
  }

  /** The folder the prepared files live in: the archive name with its first
      "/Full.pdf" removed, under the finished-files prefix. */
  function LinkRoot(zip: Option<string>): (root: string)
    ensures StartsWith(root, ExportAccess.FinishedPrefix)
    ensures !TextTruthy(zip) ==> root == ExportAccess.FinishedPrefix
    ensures TextTruthy(zip) && !Contains(zip.value, "/Full.pdf") ==> root == ExportAccess.FinishedPrefix + zip.value
    ensures TextTruthy(zip) && Contains(zip.value, "/Full.pdf") ==>
      exists i: nat :: FirstAt(zip.value, "/Full.pdf", i)
        && root == ExportAccess.FinishedPrefix + (zip.value[..i] + zip.value[i + 9..])
  {
    var rest := if TextTruthy(zip) then ReplaceFirst(zip.value, "/Full.pdf", "") else "";
    var root := ExportAccess.FinishedPrefix + rest;
    assert root[..|ExportAccess.FinishedPrefix|] == ExportAccess.FinishedPrefix;
    if TextTruthy(zip) && Contains(zip.value, "/Full.pdf") then
      var i: nat :| FirstAt(zip.value, "/Full.pdf", i)
        && rest == zip.value[..i] + "" + zip.value[i + 9..];
      assert rest == zip.value[..i] + zip.value[i + 9..];
      root
    else root
  }

  /** The downloads menu: five links in a fixed order, four of them files in
      the archive's folder, one the bookstore page for the archive. */
  function DownloadLinks(entry: ExportAccess.Listing): (opts: seq<DownloadOption>)
    ensures |opts| == 5
    ensures [opts[0].key, opts[1].key, opts[2].key, opts[3].key, opts[4].key]
         == ["full", "lms", "zip", "bookstore", "publication"]
    ensures var root := LinkRoot(entry.zipFilename);
      && opts[0].href == root + "/Full.pdf"
      && opts[1].href == root + "/LibreText.imscc"
      && opts[2].href == root + "/Individual.zip"
      && opts[4].href == root + "/Publication.zip"
    ensures opts[3].href == "https://libretexts.org/bookstore/single.html?" + ShowZip(entry.zipFilename)
  {
    var root := LinkRoot(entry.zipFilename);
    [DownloadOption("full", root + "/Full.pdf"),
     DownloadOption("lms", root + "/LibreText.imscc"),
     DownloadOption("zip", root + "/Individual.zip"),
     DownloadOption("bookstore", "https://libretexts.org/bookstore/single.html?" + ShowZip(entry.zipFilename)),
     DownloadOption("publication", root + "/Publication.zip")]
  }

  /** The full-PDF download agrees with the book's full-PDF link whether the
      listing names the archive folder or the PDF inside it. */
  lemma FullDownloadMatchesBookLink(cover: ExportAccess.Cover, entry: ExportAccess.Listing)
    requires var key := cover.subdomain + "-" + NatToString(cover.id);
      && (forall j :: 0 <= j < |cover.subdomain| ==> cover.subdomain[j] != '/')
      && (entry.zipFilename == Some(key) || entry.zipFilename == Some(key + "/Full.pdf"))
    ensures DownloadLinks(entry)[0].href == ExportAccess.BookLink(Some(cover)).value
  {
    var key := cover.subdomain + "-" + NatToString(cover.id);
    NoSlashInKey(cover);
    NoChar(key, '/');
    NoFullPdfInKey(key);
    if entry.zipFilename == Some(key + "/Full.pdf") {
      StripFullPdf(key);
    }
  }

  lemma NoSlashInKey(cover: ExportAccess.Cover)
    requires forall j :: 0 <= j < |cover.subdomain| ==> cover.subdomain[j] != '/'
    ensures var key := cover.subdomain + "-" + NatToString(cover.id);
      forall j :: 0 <= j < |key| ==> key[j] != '/'
  {
    var digits := NatToString(cover.id);
    var key := cover.subdomain + "-" + digits;
    forall j | 0 <= j < |key|
      ensures key[j] != '/'
    {
      if j > |cover.subdomain| {
        assert key[j] == digits[j - |cover.subdomain| - 1];
      }
    }
  }

  /** A name without '/' holds no "/Full.pdf". */
  lemma NoFullPdfInKey(key: string)
    requires forall j :: 0 <= j < |key| ==> key[j] != '/'
    ensures !Contains(key, "/Full.pdf")
  {
    forall j: nat
      ensures !OccursAt(key, "/Full.pdf", j)
    {
      if j + 9 <= |key| {
        assert key[j..j + 9][0] == key[j];
      }
    }
  }

  /** Removing the first "/Full.pdf" from a slash-free name followed by
      "/Full.pdf" gives the name back. */
  lemma StripFullPdf(key: string)
    requires forall j :: 0 <= j < |key| ==> key[j] != '/'
    ensures ReplaceFirst(key + "/Full.pdf", "/Full.pdf", "") == key
  {
    var z := key + "/Full.pdf";
    assert OccursAt(z, "/Full.pdf", |key|);
    var i := IndexOf(z, "/Full.pdf").value;
    assert z[i..i + 9][0] == z[i] == '/';
    assert forall j :: 0 <= j < |key| ==> z[j] == key[j];
    assert i == |key|;
    assert z[..i] == key;
  }

  /** Without an archive name the links keep an empty folder segment and the
      bookstore link names "undefined". */
  lemma MissingArchiveName(entry: ExportAccess.Listing)
    requires entry.zipFilename.None?
    ensures DownloadLinks(entry)[0].href == "https://batch.libretexts.org/print/Finished//Full.pdf"
    ensures DownloadLinks(entry)[3].href == "https://libretexts.org/bookstore/single.html?undefined"
  {
  }
}
