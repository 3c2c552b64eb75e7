/** The export widget's side of a batch compile: the request a compile item
    sends, what the widget does with the batch server's last message, and
    arrow-key movement between the items of an open dropdown. */
module ExportBatch {
  import opened Common
  import opened Text
  import opened ExportAccess

  const BatchPrefix: string := "https://batch.libretexts.org/print/Libretext="

  // ---------------------------------------------------------------------
  // Requests
  // ---------------------------------------------------------------------

  /** A compile click either reopens the file a previous compile finished
      with, or sends a request to the batch server. */
  datatype BatchAction = OpenCompleted(url: string) | SendRequest(verb: string, url: string)

  /** A compile click. With a target, the server is asked for it with the
      cache bypassed and any extra parameters; without one, for the current
      page's address. Once a compile has finished in this page, every click
      reopens its result instead. */
  function BatchClick(completed: Option<string>, target: Option<string>, extra: string,
                      href: string): (a: BatchAction)
    ensures TextTruthy(completed) <==> a.OpenCompleted?
    ensures a.OpenCompleted? ==> a.url == completed.value
    ensures a.SendRequest? ==> a.verb == "GET" && StartsWith(a.url, BatchPrefix)
    ensures a.SendRequest? && TextTruthy(target) ==>
      a.url[|BatchPrefix|..] == target.value + "?no-cache" + extra
    ensures a.SendRequest? && !TextTruthy(target) ==> a.url[|BatchPrefix|..] == href
  {
    if TextTruthy(completed) then OpenCompleted(completed.value)
    else
      var what := if TextTruthy(target) then target.value + "?no-cache" + extra else href;
      var url := BatchPrefix + what;
      assert url[..|BatchPrefix|] == BatchPrefix && url[|BatchPrefix|..] == what;
      SendRequest("GET", url)
  }

  // ---------------------------------------------------------------------
  // The last message
  // ---------------------------------------------------------------------

  /** The fields of the batch server's last JSON message that the widget reads. */
  datatype Terminal = Terminal(filename: Option<string>, message: Option<string>, text: Option<string>)

  /** What the widget does: show a text on the button, raise an alert,
      announce the finished file (and open it), do nothing, or fail because
      no JSON message was found in the response. */
  datatype Reaction = ShowText(text: string) | Alert(text: string) | Finished(location: string) | NoReaction | Fault

  /** A value as a template literal or `alert` renders it. */
  function Show(s: Option<string>): string {
    match s
    case None => "undefined"
    case Some(v) => v
  }

  /** A maintenance-only message: refresh or front/back matter. */
  predicate Maintenance(t: Terminal) {
    t.filename == Some("refreshOnly") || t.filename == Some("createMatterOnly")
  }

  /** The reaction to the response's last JSON message, checked in order:
      refresh, front/back matter, error, then any other file name. */
  function DownloadBatchOutput(found: Option<Terminal>): (r: Reaction)
    ensures found.None? <==> r.Fault?
    ensures r.ShowText? <==> found.Some? && Maintenance(found.value)
    ensures found.Some? && found.value.filename == Some("refreshOnly") ==> r == ShowText("Refresh complete.")
    ensures found.Some? && found.value.filename == Some("createMatterOnly") ==>
      r == ShowText("Done creating front/back matter.")
    ensures r.Alert? <==> found.Some? && !Maintenance(found.value) && found.value.message == Some("error")
    ensures r.Alert? ==> r.text == Show(found.value.text)
    ensures r.Finished? <==>
      found.Some? && !Maintenance(found.value) && found.value.message != Some("error")
      && TextTruthy(found.value.filename)
    ensures r.Finished? ==>
      && StartsWith(r.location, FinishedPrefix) && EndsWith(r.location, "/Full.pdf")
      && |FinishedPrefix| + 9 <= |r.location|
      && r.location[|FinishedPrefix|..|r.location| - 9] == found.value.filename.value
  {
    match found
    case None => Fault
    case Some(t) =>
      if t.filename == Some("refreshOnly") then ShowText("Refresh complete.")
      else if t.filename == Some("createMatterOnly") then ShowText("Done creating front/back matter.")
      else if t.message == Some("error") then Alert(Show(t.text))
      else if TextTruthy(t.filename) then
        var loc := FinishedPrefix + t.filename.value + "/Full.pdf";
        assert loc[..|FinishedPrefix|] == FinishedPrefix;
        assert loc[|FinishedPrefix|..|loc| - 9] == t.filename.value;
        assert loc[|loc| - 9..] == "/Full.pdf";
        Finished(loc)
      else NoReaction
  }

  /** The file a finished compile leaves for later clicks. */
  function Remember(completed: Option<string>, r: Reaction): (m: Option<string>)
    ensures r.Finished? ==> m == Some(r.location)
    ensures !r.Finished? ==> m == completed
  {
    if r.Finished? then Some(r.location) else completed
  }

  /** A file name is checked before the error flag: a message naming the
      refresh is never reported as an error, even when it says "error". */
  lemma MaintenanceBeforeError(text: Option<string>)
    ensures DownloadBatchOutput(Some(Terminal(Some("refreshOnly"), Some("error"), text)))
      == ShowText("Refresh complete.")
  {
  }

  /** After a compile finishes, the next click reopens its file without
      contacting the server, whatever it targets. */
  lemma FinishedThenReopen(t: Terminal, target: Option<string>, extra: string, href: string)
    requires DownloadBatchOutput(Some(t)).Finished?
    ensures var loc := DownloadBatchOutput(Some(t)).location;
      BatchClick(Remember(None, DownloadBatchOutput(Some(t))), target, extra, href) == OpenCompleted(loc)
  {
    var loc := DownloadBatchOutput(Some(t)).location;
    assert |loc| > 0;
  }

  /** The batch server's complete message names the archive with ".zip", so
      the widget would point at "<name>.zip/Full.pdf" in the finished files. */
  lemma CompleteMessageLocation(zipName: string)
    ensures DownloadBatchOutput(Some(Terminal(Some(zipName + ".zip"), Some("complete"), None)))
      == Finished(FinishedPrefix + zipName + ".zip" + "/Full.pdf")
  {
    var f := zipName + ".zip";
    assert f != "refreshOnly" by {
      assert f[|f| - 4..] == ".zip";
      assert "refreshOnly"[7..] == "Only";
    }
    assert f != "createMatterOnly" by {
      assert f[|f| - 4..] == ".zip";
      assert "createMatterOnly"[12..] == "Only";
    }
  }

  // ---------------------------------------------------------------------
  // Keyboard movement in a dropdown
  // ---------------------------------------------------------------------

  datatype Key = ArrowUp | ArrowDown | OtherKey(name: string)

  /** The keystroke's effect: whether the browser's default is suppressed
      and which item, if any, receives focus. */
  datatype KeyEffect = KeyEffect(prevented: bool, focus: Option<nat>)

  /** `findIndex`: the first position holding `target`. */
  function FindIndex<T(==)>(items: seq<T>, target: T): (r: Option<nat>)
    ensures r.Some? ==> r.value < |items| && items[r.value] == target
    ensures r.Some? ==> forall j :: 0 <= j < r.value ==> items[j] != target
    ensures r.None? <==> target !in items
  {
    if items == [] then None
    else if items[0] == target then Some(0)
    else match FindIndex(items[1..], target)
      case None => None
      case Some(k) => Some(k + 1)
  }

  /** An arrow key on a dropdown item: the default is suppressed, and focus
      moves to the next (down) or previous (up) item when there is one; it
      never wraps. Any other key, or a target outside the list, does nothing. */
  function OptionKeyDown<T(==)>(items: seq<T>, target: T, key: Key): (e: KeyEffect)
    ensures e.prevented <==> key.ArrowUp? || key.ArrowDown?
    ensures e.focus.Some? ==> e.focus.value < |items| && target in items
    ensures e.focus.Some? && key.ArrowDown? ==> e.focus.value >= 1 && items[e.focus.value - 1] == target
    ensures e.focus.Some? && key.ArrowUp? ==> e.focus.value + 1 < |items| && items[e.focus.value + 1] == target
    ensures key.OtherKey? || target !in items ==> e.focus.None?
    ensures (key.ArrowDown? && |items| > 0 && items[|items| - 1] == target
             && target !in items[..|items| - 1]) ==> e.focus.None?
    ensures key.ArrowUp? && |items| > 0 && items[0] == target ==> e.focus.None?
    ensures forall i :: 0 <= i < |items| && items[i] == target && target !in items[..i] ==>
      && (key.ArrowDown? ==> e.focus == if i + 1 < |items| then Some(i + 1) else None)
      && (key.ArrowUp? ==> e.focus == if i >= 1 then Some(i - 1) else None)
  {
    if key.OtherKey? then KeyEffect(false, None)
    else match FindIndex(items, target)
      case None => KeyEffect(true, None)
      case Some(i) =>
        assert forall j :: 0 <= j < |items| && items[j] == target && target !in items[..j] ==> j == i by {
          forall j | 0 <= j < |items| && items[j] == target && target !in items[..j] {
            FirstIndexIs(items, target, j);
          }
        }
        if key.ArrowDown? then KeyEffect(true, if i + 1 < |items| then Some(i + 1) else None)
        else KeyEffect(true, if i >= 1 then Some(i - 1) else None)
  }

  /** The first position of `target` is the one `FindIndex` reports. */
  lemma FirstIndexIs<T>(items: seq<T>, target: T, i: nat)
    requires i < |items| && items[i] == target && target !in items[..i]
    ensures FindIndex(items, target) == Some(i)
  {
    assert target in items;
  }

  /** The items of a dropdown are distinct elements. */
  predicate Distinct<T(==)>(items: seq<T>) {
    forall j, k :: 0 <= j < k < |items| ==> items[j] != items[k]
  }

  /** Up undoes down: in a list of distinct items, moving down from an item
      and then up from where focus landed returns to the item. */
  lemma UpUndoesDown<T>(items: seq<T>, k: nat)
    requires Distinct(items) && k < |items|
    ensures var down := OptionKeyDown(items, items[k], ArrowDown).focus;
      && (down.Some? <==> k + 1 < |items|)
      && (down.Some? ==>
            down.value == k + 1 && OptionKeyDown(items, items[down.value], ArrowUp).focus == Some(k))
  {
    FirstIndexOfDistinct(items, k);
    if k + 1 < |items| {
      FirstIndexOfDistinct(items, k + 1);
    }
  }

  lemma FirstIndexOfDistinct<T>(items: seq<T>, k: nat)
    requires Distinct(items) && k < |items|
    ensures FindIndex(items, items[k]) == Some(k)
  {
    var r := FindIndex(items, items[k]);
    assert items[k] in items;
    assert r.Some?;
    DistinctIndex(items, r.value, k);
  }

  /** Equal items of a distinct list sit at the same index. */
  lemma DistinctIndex<T>(items: seq<T>, i: nat, k: nat)
    requires Distinct(items) && i < |items| && k < |items| && items[i] == items[k]
    ensures i == k
  {
  }
}
