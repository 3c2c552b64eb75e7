/** The batch dispatcher as a state machine: `mapLimit(urlArray, 4, …)` from
    the `async` library driving one render per URL, the progress message each
    successful render writes, and the final callback that either zips the
    output folder and writes the `complete` message or, on the first failed
    render, throws before anything else is written.

    Real concurrency becomes a nondeterministic choice of which in-flight
    render finishes next (`Finish`), and when the archive is ready (`Zipped`).
    Tasks are the indices of the URL list. */
module Dispatcher {
  import opened Common
  import Timing
  import PageTree
  import Render

  /** At most this many renders are in flight. */
  const Limit: nat := 4

  /** What the batch writes to its response: progress in tenths of a percent,
      or the archive's name and the elapsed time in tenths of a second. */
  datatype Message = Progress(percentTenths: nat) | Complete(filename: string, timeTenths: nat)

  /** The pool's final callback: not yet called, called without an error
      (recording the elapsed time it computed), or called with an error. It
      is called at most once. */
  datatype Final = Pending | Succeeded(timeTenths: nat) | Errored

  /** The dispatcher's state. `next` is the first task not yet started,
      `count` the renders that succeeded, `failures` those that failed; `done`
      is the pool's flag that stops further starts; `out` is what was written
      to the response and `ended` whether the response was closed. */
  datatype Batch = Batch(
    total: nat,
    zipName: string,
    next: nat,
    running: set<nat>,
    count: nat,
    failures: nat,
    done: bool,
    final: Final,
    out: seq<Message>,
    ended: bool)

  /** A render finishes (successfully or not) at a given clock reading, or
      the archive is ready. */
  datatype Event = Finish(task: nat, ok: bool, clockMs: nat) | Zipped

  /** The bookkeeping every state keeps. */
  predicate Core(s: Batch) {
    && s.next <= s.total
    && (forall i :: i in s.running ==> i < s.next)
    && |s.running| <= Limit
    && s.count + s.failures + |s.running| == s.next
    && (s.failures > 0 ==> s.done)
    && (s.done ==> s.next == s.total || s.failures > 0)
    && (!s.final.Pending? ==> s.done)
    && (s.final.Errored? <==> s.failures > 0)
    && (s.final.Succeeded? ==> s.failures == 0 && s.count == s.total && s.running == {})
    && |s.out| == s.count + (if s.ended then 1 else 0)
    && (forall k :: 0 <= k < s.count ==> s.out[k] == Progress(Timing.PercentTenths(k + 1, s.total)))
    && (s.ended ==> s.final.Succeeded? && s.out[s.count] == Complete(s.zipName + ".zip", s.final.timeTenths))
  }

  /** Once the pool is exhausted, empty and error-free, the final callback
      has been called without an error. */
  predicate Settled(s: Batch) {
    s.done && s.running == {} && s.failures == 0 ==> s.final.Succeeded?
  }

  /** Until the pool stops starting tasks, it keeps `Limit` of them in flight. */
  predicate Saturated(s: Batch) {
    !s.done ==> |s.running| == Limit
  }

  predicate Inv(s: Batch) {
    Core(s) && Settled(s) && Saturated(s)
  }

  /** The pool's `replenish`: start tasks in order while fewer than `Limit`
      are in flight; on running out of tasks, set `done` and, if nothing is
      in flight any more, call the final callback without an error. */
  function Replenish(s: Batch, clockMs: nat): (r: Batch)
    requires Core(s) && (s.done ==> Settled(s) && Saturated(s))
    ensures Inv(r)
    ensures r.total == s.total && r.zipName == s.zipName
    ensures r.count == s.count && r.failures == s.failures && r.out == s.out && r.ended == s.ended
    ensures s.next <= r.next && s.running <= r.running
    ensures forall i :: i in r.running <==> i in s.running || s.next <= i < r.next
    ensures !s.done ==> r.next == Min(s.total, s.next + (Limit - |s.running|))
    ensures r.done || |r.running| == Limit
    decreases s.total - s.next
  {
    if s.done || |s.running| >= Limit then s
    else if s.next == s.total then
      var s1 := s.(done := true);
      if s1.running == {} then s1.(final := Succeeded(Timing.ElapsedTenths(clockMs))) else s1
    else
      assert s.next !in s.running;
      Replenish(s.(running := s.running + {s.next}, next := s.next + 1), clockMs)
  }

  function Min(a: nat, b: nat): nat {
    if a <= b then a else b
  }

  /** The dispatcher right after `mapLimit` is called on `total` URLs: the
      first `Limit` tasks (or all, if fewer) are in flight. */
  function Start(total: nat, zipName: string): (s: Batch)
    ensures Inv(s)
    ensures s.total == total && s.zipName == zipName
    ensures s.out == [] && s.count == 0 && s.failures == 0
    ensures s.next == Min(total, Limit)
    ensures forall i: nat :: i in s.running <==> i < s.next
  {
    Replenish(Batch(total, zipName, 0, {}, 0, 0, false, Pending, [], false), 0)
  }

  /** Which events can happen: a running task can finish; once the final
      callback succeeded, the archive can become ready, once. */
  predicate Enabled(s: Batch, e: Event) {
    match e
    case Finish(i, _, _) => i in s.running
    case Zipped => s.final.Succeeded? && !s.ended
  }

  /** One event. A finished render leaves the pool; on success it bumps the
      count and writes a progress message, then the pool either calls the
      final callback (nothing left) or starts more; on failure the pool stops
      starting tasks and calls the final callback with the error — which
      throws, so nothing further comes of it. When the archive is ready, the
      complete message is written and the response ends. */
  function Step(s: Batch, e: Event): (r: Batch)
    requires Inv(s) && Enabled(s, e)
    ensures Inv(r)
    ensures r.total == s.total && r.zipName == s.zipName
    ensures s.out <= r.out && r.failures >= s.failures
    ensures s.failures > 0 ==> r.next == s.next
    ensures e.Finish? && e.ok ==>
      && r.count == s.count + 1 <= s.total
      && r.out == s.out + [Progress(Timing.PercentTenths(r.count, s.total))]
    ensures e.Finish? && !e.ok ==> r.out == s.out && r.final.Errored? && r.done
    ensures e.Zipped? ==> r.out == s.out + [Complete(s.zipName + ".zip", s.final.timeTenths)] && r.ended
    ensures e.Finish? && s.done ==> r.done && r.running == s.running - {e.task}
    ensures e.Finish? && e.ok && s.failures == 0 && r.done && r.running == {} ==>
      r.final == Succeeded(Timing.ElapsedTenths(e.clockMs))
  {
    match e
    case Finish(i, ok, clockMs) =>
      assert |s.running - {i}| == |s.running| - 1;
      var s1 := s.(running := s.running - {i});
      if ok then
        var s2 := s1.(count := s.count + 1,
                      out := s.out + [Progress(Timing.PercentTenths(s.count + 1, s.total))]);
        if s2.done && s2.running == {} then
          s2.(final := if s2.final.Pending? then Succeeded(Timing.ElapsedTenths(clockMs)) else s2.final)
        else Replenish(s2, clockMs)
      else
        s1.(failures := s.failures + 1, done := true,
            final := if s.final.Pending? then Errored else s.final)
    case Zipped =>
      s.(out := s.out + [Complete(s.zipName + ".zip", s.final.timeTenths)], ended := true)
  }

  /** A schedule applied from a state; events that cannot happen are skipped. */
  function Run(s: Batch, events: seq<Event>): (r: Batch)
    requires Inv(s)
    ensures Inv(r)
    ensures r.total == s.total && r.zipName == s.zipName
    ensures s.out <= r.out && r.failures >= s.failures
    ensures s.failures > 0 ==> r.next == s.next
    ensures s.ended ==> r == s
    decreases |events|
  {
    if events == [] then s
    else
      var s1 := if Enabled(s, events[0]) then Step(s, events[0]) else s;
      assert s.ended ==> s1 == s by {
        if s.ended {
          Closed(s, events[0]);
        }
      }
      Run(s1, events[1..])
  }

  /** After the complete message nothing can happen any more. */
  lemma Closed(s: Batch, e: Event)
    requires Inv(s) && s.ended
    ensures !Enabled(s, e)
  {
  }

  /** A batch with a failed render never writes the complete message: every
      message it wrote is a progress message. */
  lemma NoCompleteAfterFailure(s: Batch)
    requires Inv(s) && s.failures > 0
    ensures forall k :: 0 <= k < |s.out| ==> s.out[k].Progress?
  {
  }

  /** The complete message, when written, is the last message, comes after
      exactly one progress message per task, and names the archive. */
  lemma CompleteIsLast(s: Batch, k: nat)
    requires Inv(s) && k < |s.out| && s.out[k].Complete?
    ensures k == |s.out| - 1 == s.total
    ensures s.failures == 0 && s.count == s.total
    ensures s.out[k].filename == s.zipName + ".zip"
    ensures forall j :: 0 <= j < k ==> s.out[j] == Progress(Timing.PercentTenths(j + 1, s.total))
  {
  }

  /** Progress never goes backwards across the messages written. */
  lemma ProgressNonDecreasing(s: Batch, j: nat, k: nat)
    requires Inv(s) && j <= k < |s.out| && s.out[k].Progress?
    ensures s.out[j].Progress? && s.out[j].percentTenths <= s.out[k].percentTenths
  {
    if s.ended {
      assert k < s.count;
    }
    Timing.PercentMonotone(j + 1, k + 1, s.total);
  }

  /** While every render has succeeded, the batch cannot get stuck before the
      complete message: some render can finish or the archive can become ready. */
  lemma NoStallWithoutFailure(s: Batch)
    requires Inv(s) && s.failures == 0 && !s.ended
    ensures Enabled(s, Zipped) || exists i :: i in s.running && Enabled(s, Finish(i, true, 0))
  {
    if s.running != {} {
      var i :| i in s.running;
      assert Enabled(s, Finish(i, true, 0));
    }
  }

  /** The batch request's list: `[root] ++ addLinks(subpages)`, archived under
      `filenamify(batchName)`. */
  function StartJob(batchName: string, root: string, subpages: seq<PageTree.PageNode>,
                    filenamify: string -> string): (s: Batch)
    ensures Inv(s)
    ensures s.total == 1 + PageTree.Count(subpages)
    ensures s.zipName == filenamify(batchName)
  {
    Start(|PageTree.BatchList(root, subpages)|, filenamify(batchName))
  }

  /** Every page a batch renders lands inside the folder that is zipped,
      "./PDF/libretexts/<zipName>/", as long as the archive name is non-empty. */
  lemma RendersLandInZipFolder(url: string, zipName: string, browser: Render.Browser,
                               assets: Render.Assets, filenamify: string -> string)
    requires zipName != ""
    ensures var run := Render.RenderPage(url, zipName, browser, assets, filenamify);
      run.outcome.Rendered? ==>
        var folder := "./PDF/libretexts/" + zipName + "/";
        |folder| <= |run.outcome.path| && run.outcome.path[..|folder|] == folder
  {
    var run := Render.RenderPage(url, zipName, browser, assets, filenamify);
    if run.outcome.Rendered? {
      FolderPrefix(zipName, filenamify(Render.NameSource(url, browser.inspection.title)));
    }
  }

  lemma FolderPrefix(zipName: string, name: string)
    requires zipName != ""
    ensures var folder := "./PDF/libretexts/" + zipName + "/";
      var path := "./PDF/" + Render.OutputDir(zipName) + name + ".pdf";
      |folder| <= |path| && path[..|folder|] == folder
  {
    var folder := "./PDF/libretexts/" + zipName + "/";
    assert "./PDF/" + Render.OutputDir(zipName) == folder;
    assert "./PDF/" + Render.OutputDir(zipName) + name + ".pdf" == folder + (name + ".pdf");
  }

  /** Three URLs: all three start at once, three progress messages report
      33.3, 66.7 and 100 percent whatever order the renders finish in, then
      the complete message names the archive and the elapsed time. */
  lemma ThreeTaskBatch(a: nat, b: nat, c: nat)
    requires {a, b, c} == {0, 1, 2} && a != b && b != c && a != c
    ensures var events := [Finish(a, true, 900), Finish(b, true, 1900), Finish(c, true, 2960), Zipped];
      Run(Start(3, "Book"), events).out
        == [Progress(333), Progress(667), Progress(1000), Complete("Book.zip", 30)]
  {
    var events := [Finish(a, true, 900), Finish(b, true, 1900), Finish(c, true, 2960), Zipped];
    var s0 := Start(3, "Book");
    StartThree(s0);
    var s3 := ThreeFinished(s0, a, b, c, events);
    ZipLast(s3);
    ThreeMessages(s3);
  }

  /** The messages of a finished three-page batch named "Book". */
  lemma ThreeMessages(s3: Batch)
    requires s3.final == Succeeded(30) && s3.zipName == "Book"
    requires s3.out == [Progress(Timing.PercentTenths(1, 3)), Progress(Timing.PercentTenths(2, 3)),
                        Progress(Timing.PercentTenths(3, 3))]
    ensures s3.out + [Complete(s3.zipName + ".zip", s3.final.timeTenths)]
         == [Progress(333), Progress(667), Progress(1000), Complete("Book.zip", 30)]
  {
    Timing.PercentThreeTasks();
    assert "Book" + ".zip" == "Book.zip";
  }

  /** The archive becoming ready appends the complete message. */
  lemma ZipLast(s: Batch)
    requires Inv(s) && s.final.Succeeded? && !s.ended
    ensures Run(s, [Zipped]).out == s.out + [Complete(s.zipName + ".zip", s.final.timeTenths)]
  {
    RunUnfold(s, [Zipped]);
    assert [Zipped][1..] == [];
  }

  /** Three successes in any order: three progress messages, then the final
      callback with the rounded time; what remains of the run is the zip. */
  lemma ThreeFinished(s0: Batch, a: nat, b: nat, c: nat, events: seq<Event>) returns (s3: Batch)
    requires Inv(s0) && s0.running == {a, b, c} && a != b && b != c && a != c
    requires s0.done && s0.count == 0 && s0.failures == 0 && s0.out == [] && s0.total == 3
    requires events == [Finish(a, true, 900), Finish(b, true, 1900), Finish(c, true, 2960), Zipped]
    ensures Inv(s3) && s3.final == Succeeded(30) && !s3.ended && s3.zipName == s0.zipName
    ensures s3.out == [Progress(Timing.PercentTenths(1, 3)), Progress(Timing.PercentTenths(2, 3)),
                       Progress(Timing.PercentTenths(3, 3))]
    ensures Run(s0, events) == Run(s3, [Zipped])
  {
    assert Enabled(s0, events[0]);
    var s1 := Step(s0, events[0]);
    RunUnfold(s0, events);
    assert s1.running == {b, c};
    assert Enabled(s1, events[1]);
    var s2 := Step(s1, events[1]);
    RunUnfold(s1, events[1..]);
    assert s2.running == {c};
    assert Enabled(s2, events[2]);
    s3 := Step(s2, events[2]);
    RunUnfold(s2, events[2..]);
    assert s3.running == {};
    assert events[1..][1..] == events[2..] && events[2..][1..] == [Zipped];
  }

  /** Three URLs all start at once and exhaust the list. */
  lemma StartThree(s: Batch)
    requires s == Start(3, "Book")
    ensures s.running == {0, 1, 2} && s.done && s.count == 0 && s.failures == 0 && s.out == []
  {
    assert forall i: nat :: i in s.running <==> i < 3;
    assert s.running == {0, 1, 2};
  }

  lemma RunUnfold(s: Batch, events: seq<Event>)
    requires Inv(s) && events != [] && Enabled(s, events[0])
    ensures Run(s, events) == Run(Step(s, events[0]), events[1..])
  {
  }

  /** Five URLs where the third fails first: the fifth is never started,
      whatever happens afterwards, and no complete message is ever written. */
  lemma FailureStopsScheduling(later: seq<Event>)
    ensures var s := Step(Start(5, "Book"), Finish(2, false, 0));
      var r := Run(s, later);
      && r.next == 4 && 4 !in r.running
      && forall k :: 0 <= k < |r.out| ==> r.out[k].Progress?
  {
    var s0 := Start(5, "Book");
    assert s0.next == 4 && 2 in s0.running;
    var s := Step(s0, Finish(2, false, 0));
    var r := Run(s, later);
    NoCompleteAfterFailure(r);
  }
}
