/** One page render (`getPDF`) reduced to its decisions: where the PDF goes,
    what it is called, the footer's running-head label, the branding key, which
    failures are swallowed and which fail the render, and the clean-up that runs
    on every exit. The browser's work is an input: how navigation ended, what
    the in-page script found, whether the PDF export succeeded and how long it
    all took. `filenamify` is an uninterpreted function parameter. */
module Render {
  import opened Common
  import opened Text
  import Timing

  /** How navigation ended. Each of the three is caught and only logged. */
  datatype Navigation = Loaded | TimedOut | NavigationError

  /** What the in-page script reports: the text of the element with id
      "title" (absent when there is none), or that the script threw. */
  datatype Inspection = Inspected(title: Option<string>) | InspectionError

  /** What the browser did for this page. */
  datatype Browser = Browser(nav: Navigation, inspection: Inspection, exportOk: bool, elapsedMs: nat)

  /** The two branding tables, keyed by library subdomain. */
  datatype Assets = Assets(logos: map<string, string>, colors: map<string, string>)

  /** The branding used in the header and footer. An absent entry is an
      `undefined` in the markup, never an error. */
  datatype Branding = Branding(key: string, logo: Option<string>, color: Option<string>)

  /** Why a render failed. */
  datatype Failure =
    | InspectionFailed   // the in-page script threw
    | NoHostSegment      // `url.split("/")[2]` is undefined, so `.split` throws
    | ExportFailed       // `page.pdf` threw

  datatype Outcome =
    | Rendered(file: string, path: string, footerLabel: string, branding: Branding)
    | Failed(error: Failure)

  /** The console line written at the end: RENDERED or FAILED, the elapsed
      time in tenths of a second and the file name. */
  datatype LogLine = LogLine(rendered: bool, tenths: nat, name: string)

  /** Observable effects, in the order they happen. */
  datatype Effect = WritePdf(path: string) | ClosePage | ClearTimer | Log(line: LogLine)

  datatype RenderRun = RenderRun(outcome: Outcome, effects: seq<Effect>)

  /** The sub-directory under "./PDF/": none for a single page (or an empty
      batch name), otherwise "libretexts/<directory>/". */
  function OutputDir(directory: string): (d: string)
    ensures directory == "" <==> d == ""
    ensures directory != "" ==> StartsWith(d, "libretexts/") && EndsWith(d, "/")
  {
    if directory == "" then "" else "libretexts/" + directory + "/"
  }

  /** A concatenation starts with its first part and ends with its last. */
  lemma Ends(a: string, b: string, c: string)
    ensures StartsWith(a + b + c, a) && EndsWith(a + b + c, c)
    ensures |a + b + c| == |a| + |b| + |c|
  {
    var s := a + b + c;
    assert s[..|a|] == a;
    assert s[|s| - |c|..] == c;
  }

  /** Where the PDF of a page named `name` is written. */
  function OutputPath(directory: string, name: string): (path: string)
    ensures StartsWith(path, "./PDF/") && EndsWith(path, name + ".pdf")
    ensures directory != "" ==> StartsWith(path, "./PDF/libretexts/")
    ensures directory == "" ==> |path| == |"./PDF/"| + |name| + 4
  {
    var dir := OutputDir(directory);
    var file := name + ".pdf";
    var path := "./PDF/" + dir + name + ".pdf";
    assert path == "./PDF/" + dir + file;
    Ends("./PDF/", dir, file);
    assert directory != "" ==> StartsWith(path, "./PDF/libretexts/") by {
      if directory != "" {
        var rest := directory + "/" + file;
        assert path == "./PDF/" + ("libretexts/" + rest);
        PrefixOfPrefix("./PDF/", "libretexts/", rest);
        LibretextsDir();
      }
    }
    path
  }

  /** A text that starts with `a` and then `b` starts with `a + b`. */
  lemma PrefixOfPrefix(a: string, b: string, rest: string)
    ensures StartsWith(a + (b + rest), a + b)
  {
    assert a + (b + rest) == (a + b) + rest;
    assert ((a + b) + rest)[..|a + b|] == a + b;
  }

  /** The batch folder's full prefix, spelled as one literal. */
  lemma LibretextsDir()
    ensures "./PDF/" + "libretexts/" == "./PDF/libretexts/"
  {
  }

  /** The text the file name is made from: the title when it is non-empty,
      otherwise the URL. */
  function NameSource(url: string, title: Option<string>): (s: string)
    ensures title.Some? && title.value != "" ==> s == title.value
    ensures title.None? || title.value == "" ==> s == url
  {
    if TextTruthy(title) then title.value else url
  }

  /** The footer's running-head label: the title's text before its first ':'
      followed by '.', or "" when there is no title, no ':' or nothing before it. */
  function FooterLabel(title: Option<string>): (caption: string)
    ensures caption == "" <==> title.None? || !Contains(title.value, ":") || StartsWith(title.value, ":")
    ensures caption != "" ==>
      var head := caption[..|caption| - 1];
      && caption[|caption| - 1] == '.'
      && StartsWith(title.value, head)
      && !Contains(head, ":")
      && StartsWith(title.value[|head|..], ":")
  {
    match title
    case None => ""
    case Some(text) =>
      var prefix := if text != "" && Contains(text, ":") then Before(text, ":") else "";
      assert Contains(text, ":") ==> (prefix == "" <==> StartsWith(text, ":")) by {
        if Contains(text, ":") && StartsWith(text, ":") {
          assert OccursAt(text, ":", 0);
        }
      }
      if prefix != "" then prefix + "." else ""
  }

  /** The branding key: the URL's third '/'-separated segment (its host) up to
      the first '.'. Absent when the URL has fewer than two '/'. */
  function BrandingKey(url: string): (key: Option<string>)
    ensures key.Some? <==> |Split(url, "/")| >= 3
    ensures key.Some? ==> !Contains(key.value, ".") && StartsWith(Split(url, "/")[2], key.value)
    ensures key.Some? ==> var host := Split(url, "/")[2];
      && (Contains(host, ".") ==> StartsWith(host[|key.value|..], "."))
      && (!Contains(host, ".") ==> key.value == host)
  {
    match Field(url, "/", 2)
    case None => None
    case Some(host) => Some(Before(host, "."))
  }

  /** The branding tables consulted with `key`; absent entries stay absent. */
  function LookUp(key: string, assets: Assets): (b: Branding)
    ensures b.key == key
    ensures b.logo.Some? <==> key in assets.logos
    ensures b.color.Some? <==> key in assets.colors
  {
    Branding(key,
             if key in assets.logos then Some(assets.logos[key]) else None,
             if key in assets.colors then Some(assets.colors[key]) else None)
  }

  /** The effects of a failed render: page closed, timer cleared, FAILED logged. */
  function FailedRun(error: Failure, tenths: nat, name: string): RenderRun {
    RenderRun(Failed(error), [ClosePage, ClearTimer, Log(LogLine(false, tenths, name))])
  }

  /** `getPDF(url, directory)`. Navigation errors and time-outs are swallowed;
      the in-page script, the host segment and the PDF export can fail the
      task. The file name is fixed once the script has answered, so a failure
      before that logs the URL's name. */
  function RenderPage(url: string, directory: string, browser: Browser, assets: Assets,
                      filenamify: string -> string): (run: RenderRun)
    ensures run.outcome.Rendered? <==>
      browser.inspection.Inspected? && BrandingKey(url).Some? && browser.exportOk
    ensures |run.effects| == if run.outcome.Rendered? then 4 else 3
    ensures run.outcome.Rendered? ==>
      var name := filenamify(NameSource(url, browser.inspection.title));
      && run.outcome.file == name + ".pdf"
      && run.outcome.path == "./PDF/" + OutputDir(directory) + name + ".pdf"
      && run.outcome.footerLabel == FooterLabel(browser.inspection.title)
      && run.outcome.branding == LookUp(BrandingKey(url).value, assets)
      && run.effects[0] == WritePdf(run.outcome.path)
    ensures run.effects[|run.effects| - 3..|run.effects| - 1] == [ClosePage, ClearTimer]
    ensures var last := run.effects[|run.effects| - 1];
      && last.Log?
      && last.line.rendered == run.outcome.Rendered?
      && last.line.tenths == Timing.ElapsedTenths(browser.elapsedMs)
  {
    var tenths := Timing.ElapsedTenths(browser.elapsedMs);
    match browser.inspection
    case InspectionError => FailedRun(InspectionFailed, tenths, filenamify(url))
    case Inspected(title) =>
      var name := filenamify(NameSource(url, title));
      match BrandingKey(url)
      case None => FailedRun(NoHostSegment, tenths, name)
      case Some(key) =>
        if !browser.exportOk then FailedRun(ExportFailed, tenths, name)
        else
          var path := OutputPath(directory, name);
          RenderRun(Rendered(name + ".pdf", path, FooterLabel(title), LookUp(key, assets)),
                    [WritePdf(path), ClosePage, ClearTimer, Log(LogLine(true, tenths, name))])
  }

  /** A PDF is written exactly when the render succeeds, and the page is
      closed and the timer cleared before the outcome is logged on every path. */
  lemma WriteOnlyOnSuccess(url: string, directory: string, browser: Browser, assets: Assets,
                           filenamify: string -> string)
    ensures var run := RenderPage(url, directory, browser, assets, filenamify);
      (exists k :: 0 <= k < |run.effects| && run.effects[k].WritePdf?) <==> run.outcome.Rendered?
  {
    var run := RenderPage(url, directory, browser, assets, filenamify);
    if !run.outcome.Rendered? {
      assert forall k :: 0 <= k < |run.effects| ==> !run.effects[k].WritePdf? by {
        assert run.effects == run.effects[0..2] + [run.effects[2]];
      }
    }
  }

  /** How navigation ended never changes anything: a soft time-out or a
      navigation error still renders whatever loaded. */
  lemma NavigationNeverDecides(url: string, directory: string, browser: Browser, assets: Assets,
                               filenamify: string -> string, nav: Navigation)
    ensures RenderPage(url, directory, browser.(nav := nav), assets, filenamify)
         == RenderPage(url, directory, browser, assets, filenamify)
  {
  }

  /** The segment between the second and third '/' of a URL with a scheme:
      `scheme//host/rest` gives `host`. */
  lemma HostSegment(scheme: string, host: string, rest: string)
    requires !Contains(scheme, "/") && !Contains(host, "/")
    ensures Field(scheme + "//" + host + "/" + rest, "/", 2) == Some(host)
  {
    var url := scheme + "//" + host + "/" + rest;
    SplitScheme(scheme, host, rest);
    SplitHost(host, rest);
    var parts := Split(url, "/");
    assert parts == [scheme] + ([""] + ([host] + Split(rest, "/")));
    assert |parts| >= 3 && parts[2] == host;
  }

  lemma SplitScheme(scheme: string, host: string, rest: string)
    requires !Contains(scheme, "/")
    ensures Split(scheme + "//" + host + "/" + rest, "/") == [scheme] + Split("/" + host + "/" + rest, "/")
  {
    var s0 := "//" + host + "/" + rest;
    assert scheme + "//" + host + "/" + rest == scheme + s0;
    assert s0[1..] == "/" + host + "/" + rest;
    SplitAfterSlash(scheme, s0);
  }

  lemma SplitHost(host: string, rest: string)
    requires !Contains(host, "/")
    ensures Split("/" + host + "/" + rest, "/") == [""] + ([host] + Split(rest, "/"))
  {
    var s1 := "/" + host + "/" + rest;
    var s2 := "/" + rest;
    assert s1 == "" + s1 && s1[1..] == host + s2;
    NoChar("", '/');
    SplitAfterSlash("", s1);
    SplitAfterSlash(host, s2);
  }

  /** Splitting `x + y` on '/' where `x` holds none and `y` starts with one. */
  lemma SplitAfterSlash(x: string, y: string)
    requires !Contains(x, "/") && |y| > 0 && y[0] == '/'
    ensures Split(x + y, "/") == [x] + Split(y[1..], "/")
  {
    FirstSlash(x, y);
    var s := x + y;
    assert s[..|x|] == x && s[|x| + 1..] == y[1..];
    SplitAt(s, "/", |x|);
  }

  /** In `x + y` where `x` holds no '/' and `y` starts with one, the first '/'
      is at `|x|`. */
  lemma FirstSlash(x: string, y: string)
    requires !Contains(x, "/") && |y| > 0 && y[0] == '/'
    ensures IndexOf(x + y, "/") == Some(|x|)
  {
    var s := x + y;
    assert OccursAt(s, "/", |x|);
    forall j: nat | j < |x|
      ensures !OccursAt(s, "/", j)
    {
      if OccursAt(s, "/", j) {
        assert OccursAt(x, "/", j) by {
          assert s[j..j + 1] == x[j..j + 1];
        }
        ContainsAt(x, "/", j);
      }
    }
  }

  /** The branding key of any page "https://bio.libretexts.org/<page>" is "bio". */
  lemma BioBrandingKey(url: string, page: string)
    requires url == "https:" + "//" + "bio.libretexts.org" + "/" + page
    ensures BrandingKey(url) == Some("bio")
  {
    var scheme, host := "https:", "bio.libretexts.org";
    NoChar(scheme, '/');
    NoChar(host, '/');
    BioHostLabel(host);
    BrandingKeyOfHost(scheme, host, page);
  }

  lemma BioHostLabel(host: string)
    requires host == "bio.libretexts.org"
    ensures Before(host, ".") == "bio"
  {
    assert host[0] == 'b' && host[1] == 'i' && host[2] == 'o' && host[3] == '.';
    BeforeChar(host, '.', 3);
    assert host[..3] == "bio";
  }

  /** The branding key of `scheme//host/rest` is the host's first label. */
  lemma BrandingKeyOfHost(scheme: string, host: string, rest: string)
    requires !Contains(scheme, "/") && !Contains(host, "/")
    ensures BrandingKey(scheme + "//" + host + "/" + rest) == Some(Before(host, "."))
  {
    HostSegment(scheme, host, rest);
  }

  /** The title "Ch1: Intro" gives the footer label "Ch1.". */
  lemma ChapterFooterLabel(title: string)
    requires title == "Ch1: Intro"
    ensures FooterLabel(Some(title)) == "Ch1."
  {
    assert title[0] == 'C' && title[1] == 'h' && title[2] == '1' && title[3] == ':';
    BeforeChar(title, ':', 3);
    assert title[..3] == "Ch1";
    assert OccursAt(title, ":", 3);
    assert !StartsWith(title, ":");
  }

  /** A page with title "Ch1: Intro" on a library missing from both branding
      tables, whose navigation timed out, still renders: its file is named
      after the whole title, its footer label is "Ch1." and its branding is
      absent. */
  lemma TitledPageScenario(url: string, page: string, title: string, filenamify: string -> string)
    requires url == "https:" + "//" + "bio.libretexts.org" + "/" + page && title == "Ch1: Intro"
    ensures var browser := Browser(TimedOut, Inspected(Some(title)), true, 1234);
      RenderPage(url, "", browser, Assets(map[], map[]), filenamify).outcome
        == Rendered(filenamify(title) + ".pdf", "./PDF/" + filenamify(title) + ".pdf",
                    "Ch1.", Branding("bio", None, None))
  {
    BioBrandingKey(url, page);
    ChapterFooterLabel(title);
    assert OutputDir("") == "";
  }

  /** JavaScript values the kill timer's test can meet. */
  datatype JsValue = Undefined | Boolean(b: bool) | FunctionRef

  predicate Truthy(v: JsValue) {
    match v
    case Undefined => false
    case Boolean(b) => b
    case FunctionRef => true
  }

  /** `page.isClosed` read as a property: the method itself, whether or not
      the page is still open. */
  function IsClosedProperty(pageOpen: bool): JsValue {
    FunctionRef
  }

  /** The 40-second kill timer closes the page when `!page.isClosed` holds.
      That tests a method reference, which is always truthy, so the timer
      never closes anything — even a page that is still open. The member
      exists to state that quirk; `RenderPage` has no timer event at all. */
  function KillTimerCloses(pageOpen: bool): (closes: bool)
    ensures !closes
  {
    !Truthy(IsClosedProperty(pageOpen))
  }

  /** The single-page route's answer: after a successful render it serves
      "../PDF/" + filenamify(target) + ".pdf" (relative to the public
      directory, the same folder as "./PDF/"); a failure becomes
      `responseError("Server \n" + err, 500)`. */
  datatype SingleReply = ServeFile(path: string) | ServerError(status: nat, body: string)

  function SinglePageReply(target: string, run: RenderRun, filenamify: string -> string,
                           describe: Failure -> string): (reply: SingleReply)
    ensures run.outcome.Rendered? <==> reply.ServeFile?
    ensures reply.ServerError? ==> reply.status == 500
  {
    match run.outcome
    case Rendered(_, _, _, _) => ServeFile("../PDF/" + filenamify(target) + ".pdf")
    case Failed(e) => ServerError(500, "Bad Request\nServer \n" + describe(e))
  }

  /** Two paths built around names agree exactly when the names do. */
  lemma WrappedNamesAgree(a: string, b: string)
    ensures "/PDF/" + a + ".pdf" == "/PDF/" + b + ".pdf" <==> a == b
  {
    var x, y := "/PDF/" + a + ".pdf", "/PDF/" + b + ".pdf";
    if x == y {
      assert x[5..|x| - 4] == a;
      assert y[5..|y| - 4] == b;
    }
  }

  /** The single-page route serves the file named after the URL, but the
      render wrote the file named after the title: they are the same file
      exactly when `filenamify` gives the same name for both. */
  lemma SinglePageServesUrlName(target: string, browser: Browser, assets: Assets,
                                filenamify: string -> string, describe: Failure -> string)
    requires RenderPage(target, "", browser, assets, filenamify).outcome.Rendered?
    ensures var run := RenderPage(target, "", browser, assets, filenamify);
      var reply := SinglePageReply(target, run, filenamify, describe);
      var written := filenamify(NameSource(target, browser.inspection.title));
      && reply.path == "../PDF/" + filenamify(target) + ".pdf"
      && run.outcome.path == "./PDF/" + written + ".pdf"
      && (reply.path[2..] == run.outcome.path[1..] <==> filenamify(target) == written)
  {
    var run := RenderPage(target, "", browser, assets, filenamify);
    var reply := SinglePageReply(target, run, filenamify, describe);
    var written := filenamify(NameSource(target, browser.inspection.title));
    assert OutputDir("") == "";
    assert run.outcome.path == "./PDF/" + written + ".pdf";
    DotPrefixes(filenamify(target));
    DotPrefixes(written);
    WrappedNamesAgree(filenamify(target), written);
  }

  /** The single-page answer as evidently intended: serve the file the
      render wrote, whose name `getPDF` returns, rather than one named after
      the URL. A failure is answered as before. */
  function ServedReply(run: RenderRun, describe: Failure -> string): (reply: SingleReply)
    ensures run.outcome.Rendered? <==> reply.ServeFile?
    ensures reply.ServeFile? ==> reply.path == "../PDF/" + run.outcome.file
    ensures reply.ServerError? ==> reply.status == 500 && EndsWith(reply.body, describe(run.outcome.error))
  {
    match run.outcome
    case Rendered(file, _, _, _) => ServeFile("../PDF/" + file)
    case Failed(e) =>
      var body := "Bad Request\nServer \n" + describe(e);
      assert body[|body| - |describe(e)|..] == describe(e);
      ServerError(500, body)
  }

  /** With the corrected answer, a successful single-page render always
      serves the very file it wrote, whatever the title. */
  lemma ServedReplyServesWrittenFile(target: string, browser: Browser, assets: Assets,
                                     filenamify: string -> string, describe: Failure -> string)
    requires RenderPage(target, "", browser, assets, filenamify).outcome.Rendered?
    ensures var run := RenderPage(target, "", browser, assets, filenamify);
      ServedReply(run, describe).path[2..] == run.outcome.path[1..]
  {
    var run := RenderPage(target, "", browser, assets, filenamify);
    var name := filenamify(NameSource(target, browser.inspection.title));
    assert OutputDir("") == "";
    assert run.outcome.path == "./PDF/" + name + ".pdf";
    assert ServedReply(run, describe).path == "../PDF/" + name + ".pdf";
    DotPrefixes(name);
  }

  /** "./PDF/…" and "../PDF/…" name the same "/PDF/…" path. */
  lemma DotPrefixes(n: string)
    ensures ("./PDF/" + n + ".pdf")[1..] == "/PDF/" + n + ".pdf"
    ensures ("../PDF/" + n + ".pdf")[2..] == "/PDF/" + n + ".pdf"
  {
    assert "./PDF/" + n + ".pdf" == "." + ("/PDF/" + n + ".pdf");
    assert "../PDF/" + n + ".pdf" == ".." + ("/PDF/" + n + ".pdf");
  }
}
