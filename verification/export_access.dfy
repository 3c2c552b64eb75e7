/** What the export widget knows about the reader and the book: the access
    flags read from the page's holder elements, the book's entry in the
    downloads listing, and the link to the book's prepared full PDF. */
module ExportAccess {
  import opened Common
  import opened Text

  /** The texts of the page's Pro, Admin and group holders. */
  datatype Holders = Holders(proText: string, adminText: string, groups: string)

  /** The two levels of batch access the widget distinguishes. */
  datatype Access = Access(basic: bool, full: bool)

  /** A group list grants full access when it mentions either group name
      anywhere (a substring test, not a list lookup). */
  predicate PrivilegedGroups(groups: string) {
    Contains(groups, "Developer") || Contains(groups, "BatchAccess")
  }

  /** Access as the widget derives it: a holder counts only when its text is
      exactly "true"; basic access is Admin or Pro; full access is Admin, or
      Pro together with a privileged group. Full access never exceeds basic. */
  function ReadAccess(h: Holders): (a: Access)
    ensures a.full ==> a.basic
    ensures a.basic <==> h.proText == "true" || h.adminText == "true"
    ensures a.full <==> h.adminText == "true" || (h.proText == "true" && PrivilegedGroups(h.groups))
    ensures a.basic && !a.full ==> h.adminText != "true" && !PrivilegedGroups(h.groups)
  {
    var isPro := h.proText == "true";
    var isAdmin := h.adminText == "true";
    Access(isAdmin || isPro, isAdmin || (isPro && PrivilegedGroups(h.groups)))
  }

  /** Because groups are matched as substrings, any group whose name merely
      contains "Developer" lifts a Pro reader to full access, while a holder
      reading "True" grants nothing. */
  lemma GroupMatchIsSubstring()
    ensures ReadAccess(Holders("true", "false", "NotADeveloper")).full
    ensures !ReadAccess(Holders("True", "True", "Developer")).basic
  {
    assert OccursAt("NotADeveloper", "Developer", 4);
    ContainsAt("NotADeveloper", "Developer", 4);
  }

  /** One entry of the downloads listing. `tags` is the entry's tag array. */
  datatype Listing = Listing(
    id: string,
    altID: Option<string>,
    tags: seq<string>,
    failed: bool,
    zipFilename: Option<string>)

  /** The book's cover page, when the current page belongs to a book. */
  datatype Cover = Cover(subdomain: string, id: nat)

  /** An entry matches the cover when its id or its alternative id equals the
      cover id's decimal text. */
  predicate Matches(entry: Listing, coverID: string) {
    entry.id == coverID || entry.altID == Some(coverID)
  }

  /** `Array.prototype.find`: the index of the first matching entry. */
  function FindEntry(listings: seq<Listing>, coverID: string): (r: Option<nat>)
    ensures r.Some? ==> r.value < |listings| && Matches(listings[r.value], coverID)
    ensures r.Some? ==> forall j :: 0 <= j < r.value ==> !Matches(listings[j], coverID)
    ensures r.None? ==> forall j :: 0 <= j < |listings| ==> !Matches(listings[j], coverID)
  {
    if listings == [] then None
    else if Matches(listings[0], coverID) then Some(0)
    else match FindEntry(listings[1..], coverID)
      case None => None
      case Some(k) => Some(k + 1)
  }

  /** The listings file to fetch: "home" for the Spanish library, otherwise
      "Courses" when the page address contains "/Courses", else "Bookshelves". */
  function ListingsFile(subdomain: string, href: string): (file: string)
    ensures subdomain == "espanol" ==> file == "home"
    ensures subdomain != "espanol" && Contains(href, "/Courses") ==> file == "Courses"
    ensures subdomain != "espanol" && !Contains(href, "/Courses") ==> file == "Bookshelves"
    ensures file in {"home", "Courses", "Bookshelves"}
  {
    if subdomain == "espanol" then "home"
    else if Contains(href, "/Courses") then "Courses"
    else "Bookshelves"
  }

  /** The address of the listings file for the book's library. */
  function ListingsURL(cover: Cover, href: string): (url: string)
    ensures var dir := "https://api.libretexts.org/DownloadsCenter/" + cover.subdomain + "/";
      && StartsWith(url, dir) && EndsWith(url, ".json") && |dir| + 5 <= |url|
      && url[|dir|..|url| - 5] in {"home", "Courses", "Bookshelves"}
      && (cover.subdomain == "espanol" <==> url[|dir|..|url| - 5] == "home")
  {
    var dir := "https://api.libretexts.org/DownloadsCenter/" + cover.subdomain + "/";
    var file := ListingsFile(cover.subdomain, href);
    var url := dir + file + ".json";
    assert url[..|dir|] == dir;
    assert url[|dir|..|url| - 5] == file;
    assert url[|url| - 5..] == ".json";
    url
  }

  /** The fetched listings document: an object whose `items` hold the
      entries, or the bare array of entries. */
  datatype ListingsDoc = Wrapped(items: seq<Listing>) | Bare(entries: seq<Listing>)

  function Entries(doc: ListingsDoc): seq<Listing> {
    match doc
    case Wrapped(items) => items
    case Bare(entries) => entries
  }

  /** The download entry for the book: the first listing matching the cover
      id, provided it has not failed and, for a reader without Pro access,
      is not tagged "luluPro". No cover page, no entry. */
  function DownloadsAvailability(cover: Option<Cover>, doc: ListingsDoc, isPro: bool): (r: Option<Listing>)
    ensures cover.None? ==> r.None?
    ensures r.Some? ==>
      && r.value in Entries(doc)
      && Matches(r.value, NatToString(cover.value.id))
      && !r.value.failed
      && (isPro || "luluPro" !in r.value.tags)
    ensures r.Some? ==> exists k :: (0 <= k < |Entries(doc)| && Entries(doc)[k] == r.value
      && forall j :: 0 <= j < k ==> !Matches(Entries(doc)[j], NatToString(cover.value.id)))
  {
    match cover
    case None => None
    case Some(c) =>
      var listings := Entries(doc);
      match FindEntry(listings, NatToString(c.id))
      case None => None
      case Some(k) =>
        var entry := listings[k];
        var denyProAccess := !isPro && "luluPro" in entry.tags;
        if !entry.failed && !denyProAccess then Some(entry) else None
  }

  /** The entry is withheld, rather than a later match being used, when the
      first match failed or is Pro-only. */
  lemma FirstMatchDecides(cover: Cover, doc: ListingsDoc, isPro: bool, k: nat)
    requires k < |Entries(doc)|
    requires Matches(Entries(doc)[k], NatToString(cover.id))
    requires forall j :: 0 <= j < k ==> !Matches(Entries(doc)[j], NatToString(cover.id))
    ensures DownloadsAvailability(Some(cover), doc, isPro).Some?
      <==> !Entries(doc)[k].failed && (isPro || "luluPro" !in Entries(doc)[k].tags)
    ensures DownloadsAvailability(Some(cover), doc, isPro).Some? ==>
      DownloadsAvailability(Some(cover), doc, isPro).value == Entries(doc)[k]
  {
    var r := FindEntry(Entries(doc), NatToString(cover.id));
    assert r == Some(k);
  }

  /** The widget asks for availability without passing the Pro flag, so an
      entry tagged "luluPro" is withheld from every reader, Pro or not. */
  lemma LuluProAlwaysWithheld(cover: Cover, doc: ListingsDoc, entry: Listing)
    requires "luluPro" in entry.tags
    ensures DownloadsAvailability(Some(cover), doc, false) != Some(entry)
  {
  }

  /** Where the batch server publishes finished renders. */
  const FinishedPrefix: string := "https://batch.libretexts.org/print/Finished/"

  /** The link to the book's prepared full PDF, derived from the cover page;
      without a cover page there is none. */
  function BookLink(cover: Option<Cover>): (link: Option<string>)
    ensures cover.None? <==> link.None?
    ensures link.Some? ==>
      && StartsWith(link.value, FinishedPrefix)
      && EndsWith(link.value, "/Full.pdf")
      && |FinishedPrefix| + 9 <= |link.value|
      && link.value[|FinishedPrefix|..|link.value| - 9]
         == cover.value.subdomain + "-" + NatToString(cover.value.id)
  {
    match cover
    case None => None
    case Some(c) =>
      var prefix := FinishedPrefix;
      var key := c.subdomain + "-" + NatToString(c.id);
      var link := prefix + key + "/Full.pdf";
      assert link[..|prefix|] == prefix;
      assert link[|prefix|..|link| - 9] == key;
      assert link[|link| - 9..] == "/Full.pdf";
      Some(link)
  }
}
