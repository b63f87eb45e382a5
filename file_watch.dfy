/**
 * The debounced per-file change notifier of file_watch.py.
 *
 * Each `Handler` watches one file path and remembers when it last accepted a
 * change.  An event passes the handler's filter when it is not a directory
 * event, is a creation or a modification, and names exactly the watched path;
 * it then fires only when strictly more than 0.3 s have passed since the last
 * accepted event.  Time is an integer number of milliseconds read from a
 * monotonic clock, supplied by the caller.
 */
module FileWatch {
  import opened Wrappers

  /** The debounce window, 0.3 s, in milliseconds. */
  const DebounceMs: int := 300

  /** The kinds of filesystem event the event source reports. */
  datatype EventType = Created | Modified | Deleted | Moved | Closed | Opened

  datatype FileEvent = FileEvent(isDirectory: bool, eventType: EventType, srcPath: string)

  /**
   * One delivery of an event to a handler, with the two readings of the
   * monotonic clock the handler takes: `check` when it compares against the
   * last change, `stamp` when it records the new last change.
   */
  datatype Delivery = Delivery(event: FileEvent, check: int, stamp: int)

  /** A monotonic clock never reads less the second time. */
  predicate MonotonicReadings(d: Delivery) {
    d.check <= d.stamp
  }

  predicate MonotonicAll(ds: seq<Delivery>) {
    forall i :: 0 <= i < |ds| ==> MonotonicReadings(ds[i])
  }

  /** The three-part filter: not a directory, created or modified, exactly the watched path. */
  predicate Relevant(filePath: string, e: FileEvent) {
    && !e.isDirectory
    && (e.eventType == Created || e.eventType == Modified)
    && e.srcPath == filePath
  }

  /** Strictly more than the debounce window has elapsed since `lastChange`. */
  predicate Due(lastChange: int, now: int) {
    now - lastChange > DebounceMs
  }

  /** The handler's new `last_change` and the path the callback was called with, if any. */
  datatype StepResult = StepResult(lastChange: int, callback: Option<string>)

  /** What one delivery does to a handler watching `filePath`. */
  function Step(filePath: string, lastChange: int, d: Delivery): StepResult {
    if Relevant(filePath, d.event) && Due(lastChange, d.check) then
      StepResult(d.stamp, Some(d.event.srcPath))
    else
      StepResult(lastChange, None)
  }

  /** An event that fails the filter changes nothing and calls nothing. */
  lemma FilteredOutChangesNothing(filePath: string, lastChange: int, d: Delivery)
    requires !Relevant(filePath, d.event)
    ensures Step(filePath, lastChange, d) == StepResult(lastChange, None)
  {
  }

  /**
   * A delivery fires exactly when it passes the filter and strictly more than
   * the window has elapsed; a dropped delivery leaves `last_change` alone.
   */
  lemma FiresIffRelevantAndDue(filePath: string, lastChange: int, d: Delivery)
    ensures Step(filePath, lastChange, d).callback.Some?
        <==> Relevant(filePath, d.event) && d.check - lastChange > DebounceMs
    ensures Step(filePath, lastChange, d).callback.None?
        ==> Step(filePath, lastChange, d).lastChange == lastChange
  {
  }

  /**
   * A firing records a time no earlier than the check, and calls the callback
   * once with the event's path, which is the watched path.
   */
  lemma FiringRecordsAndReports(filePath: string, lastChange: int, d: Delivery)
    requires MonotonicReadings(d)
    requires Step(filePath, lastChange, d).callback.Some?
    ensures Step(filePath, lastChange, d).lastChange == d.stamp >= d.check
    ensures Step(filePath, lastChange, d).lastChange > lastChange + DebounceMs
    ensures Step(filePath, lastChange, d).callback == Some(d.event.srcPath) == Some(filePath)
  {
  }

  /** A fresh handler (last change 0) fires on its first relevant event whenever the clock reads above 0.3 s. */
  lemma FirstRelevantEventFires(filePath: string, d: Delivery)
    requires Relevant(filePath, d.event)
    ensures Step(filePath, 0, d).callback.Some? <==> d.check > DebounceMs
  {
  }

  /** One accepted callback invocation, with the clock readings of its delivery. */
  datatype Firing = Firing(path: string, check: int, stamp: int)

  /** A handler's final `last_change` and the log of its callback invocations. */
  datatype Trace = Trace(lastChange: int, firings: seq<Firing>)

  /** Deliver `ds` one after the other to a handler watching `filePath`. */
  function Run(filePath: string, lastChange: int, ds: seq<Delivery>): Trace
    decreases |ds|
  {
    if ds == [] then
      Trace(lastChange, [])
    else
      var s := Step(filePath, lastChange, ds[0]);
      var rest := Run(filePath, s.lastChange, ds[1..]);
      var now := if s.callback.Some? then [Firing(s.callback.value, ds[0].check, ds[0].stamp)] else [];
      Trace(rest.lastChange, now + rest.firings)
  }

  /** Delivering `a` and then `b` is running `b` from where `a` left off. */
  lemma {:induction false} RunAppend(filePath: string, lastChange: int, a: seq<Delivery>, b: seq<Delivery>)
    ensures Run(filePath, lastChange, a + b)
         == var ta := Run(filePath, lastChange, a);
            var tb := Run(filePath, ta.lastChange, b);
            Trace(tb.lastChange, ta.firings + tb.firings)
    decreases |a|
  {
    if a == [] {
      assert a + b == b;
    } else {
      assert (a + b)[0] == a[0];
      assert (a + b)[1..] == a[1..] + b;
      var s := Step(filePath, lastChange, a[0]);
      RunAppend(filePath, s.lastChange, a[1..], b);
    }
  }

  /**
   * The log of firings respects the window: the first comes strictly more
   * than 0.3 s after `lastChange`, each later one strictly more than 0.3 s
   * after the time recorded by the one before it, and each records a time no
   * earlier than its check.
   */
  predicate WellSpaced(lastChange: int, fs: seq<Firing>) {
    && (|fs| > 0 ==> fs[0].check - lastChange > DebounceMs)
    && (forall i :: 0 < i < |fs| ==> fs[i].check - fs[i - 1].stamp > DebounceMs)
    && (forall i :: 0 <= i < |fs| ==> fs[i].check <= fs[i].stamp)
  }

  /**
   * Over any sequence of deliveries: every firing names the watched path,
   * firings are well spaced, and the final `last_change` is the time recorded
   * by the last firing (or the initial value when nothing fired), and so never
   * less than the initial one.
   */
  lemma {:induction false} RunInvariant(filePath: string, lastChange: int, ds: seq<Delivery>)
    requires MonotonicAll(ds)
    ensures var t := Run(filePath, lastChange, ds);
      && WellSpaced(lastChange, t.firings)
      && (forall i :: 0 <= i < |t.firings| ==> t.firings[i].path == filePath)
      && t.lastChange == (if t.firings == [] then lastChange else t.firings[|t.firings| - 1].stamp)
      && t.lastChange >= lastChange
    decreases |ds|
  {
    if ds != [] {
      var s := Step(filePath, lastChange, ds[0]);
      assert MonotonicReadings(ds[0]);
      assert MonotonicAll(ds[1..]) by {
        forall i | 0 <= i < |ds[1..]| ensures MonotonicReadings(ds[1..][i]) {
          assert ds[1..][i] == ds[i + 1];
        }
      }
      RunInvariant(filePath, s.lastChange, ds[1..]);
    }
  }

  /** Consecutive callback invocations record times strictly more than 0.3 s apart. */
  lemma FiringsMoreThanWindowApart(filePath: string, lastChange: int, ds: seq<Delivery>, i: nat)
    requires MonotonicAll(ds)
    requires 0 < i < |Run(filePath, lastChange, ds).firings|
    ensures var fs := Run(filePath, lastChange, ds).firings;
      fs[i].stamp - fs[i - 1].stamp > DebounceMs
  {
    RunInvariant(filePath, lastChange, ds);
  }

  /** `last_change` never decreases: it is at least as large after a longer prefix of the deliveries. */
  lemma LastChangeNeverDecreases(filePath: string, lastChange: int, ds: seq<Delivery>, i: nat, j: nat)
    requires MonotonicAll(ds)
    requires i <= j <= |ds|
    ensures Run(filePath, lastChange, ds[..i]).lastChange <= Run(filePath, lastChange, ds[..j]).lastChange
  {
    var ta := Run(filePath, lastChange, ds[..i]);
    assert ds[..j] == ds[..i] + ds[i..j];
    RunAppend(filePath, lastChange, ds[..i], ds[i..j]);
    assert MonotonicAll(ds[i..j]) by {
      forall k | 0 <= k < |ds[i..j]| ensures MonotonicReadings(ds[i..j][k]) {
        assert ds[i..j][k] == ds[i + k];
      }
    }
    RunInvariant(filePath, ta.lastChange, ds[i..j]);
  }

  /** A dropped delivery does not extend the window: the run goes on as if it had not arrived. */
  lemma DroppedDeliveryIsInvisible(filePath: string, lastChange: int, d: Delivery, ds: seq<Delivery>)
    requires Step(filePath, lastChange, d).callback.None?
    ensures Run(filePath, lastChange, [d] + ds) == Run(filePath, lastChange, ds)
  {
  }

  /** Deliveries that all come within the window of the last accepted change fire nothing and change nothing. */
  lemma {:induction false} QuietWithinWindow(filePath: string, lastChange: int, ds: seq<Delivery>)
    requires forall i :: 0 <= i < |ds| ==> ds[i].check - lastChange <= DebounceMs
    ensures Run(filePath, lastChange, ds) == Trace(lastChange, [])
    decreases |ds|
  {
    if ds != [] {
      assert ds[0].check - lastChange <= DebounceMs;
      QuietWithinWindow(filePath, lastChange, ds[1..]);
    }
  }

  /**
   * A burst: the first delivery qualifies and is due, and every later one
   * comes within 0.3 s of the time the first recorded.  The burst yields
   * exactly one callback invocation, with the watched path.
   */
  lemma BurstFiresOnce(filePath: string, lastChange: int, ds: seq<Delivery>)
    requires |ds| > 0 && Relevant(filePath, ds[0].event) && Due(lastChange, ds[0].check)
    requires forall i :: 0 < i < |ds| ==> ds[i].check - ds[0].stamp <= DebounceMs
    ensures Run(filePath, lastChange, ds) == Trace(ds[0].stamp, [Firing(filePath, ds[0].check, ds[0].stamp)])
  {
    var rest := ds[1..];
    assert forall i :: 0 <= i < |rest| ==> rest[i] == ds[i + 1];
    QuietWithinWindow(filePath, ds[0].stamp, rest);
  }

  /**
   * Relevant deliveries each strictly more than 0.3 s after the time the one
   * before it recorded (the first after `lastChange`) all fire, in order.
   */
  lemma {:induction false} SpacedDeliveriesAllFire(filePath: string, lastChange: int, ds: seq<Delivery>)
    requires forall i :: 0 <= i < |ds| ==> Relevant(filePath, ds[i].event)
    requires |ds| > 0 ==> Due(lastChange, ds[0].check)
    requires forall i :: 0 < i < |ds| ==> Due(ds[i - 1].stamp, ds[i].check)
    ensures var t := Run(filePath, lastChange, ds);
      && |t.firings| == |ds|
      && forall i :: 0 <= i < |ds| ==> t.firings[i] == Firing(filePath, ds[i].check, ds[i].stamp)
    decreases |ds|
  {
    if ds != [] {
      var rest := ds[1..];
      assert forall i :: 0 <= i < |rest| ==> rest[i] == ds[i + 1];
      SpacedDeliveriesAllFire(filePath, ds[0].stamp, rest);
    }
  }

  /** A handler: one watched path and the time of the last accepted change. */
  class Handler {
    const filePath: string
    var lastChange: int

    constructor (filePath: string)
      ensures this.filePath == filePath && lastChange == 0
    {
      this.filePath := filePath;
      lastChange := 0;
    }

    /**
     * Handle one event; `check` and `stamp` are the two clock readings.
     * Returns the path the callback is called with, if it is called.
     */
    method OnAnyEvent(event: FileEvent, check: int, stamp: int) returns (callback: Option<string>)
      requires check <= stamp
      modifies this
      ensures StepResult(lastChange, callback) == Step(filePath, old(lastChange), Delivery(event, check, stamp))
      ensures callback.None? ==> lastChange == old(lastChange)
      ensures callback.Some? ==> callback.value == filePath && lastChange >= check > old(lastChange) + DebounceMs
    {
      callback := None;
      if !event.isDirectory && (event.eventType == Created || event.eventType == Modified) && event.srcPath == filePath {
        if check - lastChange > DebounceMs {
          lastChange := stamp;
          callback := Some(event.srcPath);
        }
      }
    }
  }

  /** One registration of a handler with the event source: the directory it watches and whether recursively. */
  datatype Watch = Watch(handler: Handler, dir: string, recursive: bool)

  /** The notifier: one handler per file, each registered on the file's directory. */
  class FileWatcher {
    var watches: seq<Watch>

    constructor (files: seq<string>)
      ensures |watches| == |files|
      ensures forall i :: 0 <= i < |files| ==>
        && fresh(watches[i].handler)
        && watches[i].handler.filePath == files[i]
        && watches[i].handler.lastChange == 0
        && watches[i].dir == Dirname(files[i])
        && !watches[i].recursive
      ensures forall i, j :: 0 <= i < j < |watches| ==> watches[i].handler != watches[j].handler
    {
      var ws: seq<Watch> := [];
      for k := 0 to |files|
        invariant |ws| == k
        invariant forall i :: 0 <= i < k ==>
          && fresh(ws[i].handler)
          && ws[i].handler.filePath == files[i]
          && ws[i].handler.lastChange == 0
          && ws[i].dir == Dirname(files[i])
          && !ws[i].recursive
        invariant forall i, j :: 0 <= i < j < k ==> ws[i].handler != ws[j].handler
      {
        var h := new Handler(files[k]);
        ws := ws + [Watch(h, Dirname(files[k]), false)];
      }
      watches := ws;
    }
  }

  /** The index just past the last '/' of `p`, or 0 when there is none. */
  function AfterLastSlash(p: string): (i: nat)
    ensures i <= |p|
    ensures i > 0 ==> p[i - 1] == '/'
    ensures forall k :: i <= k < |p| ==> p[k] != '/'
  {
    if p == [] then 0
    else if p[|p| - 1] == '/' then |p|
    else AfterLastSlash(p[..|p| - 1])
  }

  /** `h` with its trailing '/' characters removed. */
  function TrimTrailingSlashes(h: string): (r: string)
    ensures r <= h
    ensures forall k :: |r| <= k < |h| ==> h[k] == '/'
    ensures r == [] || r[|r| - 1] != '/'
  {
    if h != [] && h[|h| - 1] == '/' then TrimTrailingSlashes(h[..|h| - 1]) else h
  }

  predicate AllSlashes(h: string) {
    forall k :: 0 <= k < |h| ==> h[k] == '/'
  }

  /**
   * The directory part of a POSIX path: everything up to the last '/', with
   * trailing slashes removed unless the head is made of slashes only.
   */
  function Dirname(p: string): (d: string)
    ensures d <= p
  {
    var head := p[..AfterLastSlash(p)];
    if head != [] && !AllSlashes(head) then TrimTrailingSlashes(head) else head
  }

  /** The directory of `dir + "/" + name` is `dir`, when `name` holds no '/' and `dir` does not end in one. */
  lemma {:induction false} DirnameOfChild(dir: string, name: string)
    requires dir != [] && dir[|dir| - 1] != '/'
    requires forall k :: 0 <= k < |name| ==> name[k] != '/'
    ensures Dirname(dir + "/" + name) == dir
  {
    var p := dir + "/" + name;
    AfterLastSlashOfChild(dir + "/", name);
    assert p[..|dir| + 1] == dir + "/";
    assert !AllSlashes(dir + "/") by {
      assert (dir + "/")[|dir| - 1] != '/';
    }
    assert (dir + "/")[..|dir|] == dir;
  }

  lemma {:induction false} AfterLastSlashOfChild(head: string, name: string)
    requires head != [] && head[|head| - 1] == '/'
    requires forall k :: 0 <= k < |name| ==> name[k] != '/'
    ensures AfterLastSlash(head + name) == |head|
    decreases |name|
  {
    if name == [] {
      assert head + name == head;
    } else {
      var shorter := name[..|name| - 1];
      assert (head + name)[..|head + name| - 1] == head + shorter;
      assert (head + name)[|head + name| - 1] == name[|name| - 1];
      AfterLastSlashOfChild(head, shorter);
    }
  }

  /** A handler fires only for events inside the directory it is registered on. */
  lemma FiresOnlyInWatchedDirectory(filePath: string, lastChange: int, d: Delivery)
    requires Step(filePath, lastChange, d).callback.Some?
    ensures Dirname(d.event.srcPath) == Dirname(filePath)
  {
  }

  /** Two files in one directory are registered on that directory. */
  lemma TwoFilesShareDirectory()
    ensures Dirname("/a/config.yml") == "/a" && Dirname("/a/other.yml") == "/a"
  {
    assert "/a/config.yml" == "/a" + "/" + "config.yml";
    assert "/a/other.yml" == "/a" + "/" + "other.yml";
    DirnameOfChild("/a", "config.yml");
    DirnameOfChild("/a", "other.yml");
  }

  /**
   * Two files, one callback: a double save of the first (50 ms apart) calls
   * back once for it, and a save of the second 10 ms later calls back once
   * for that one, each handler keeping its own state.
   */
  lemma TwoFilesScenario(ds: seq<Delivery>)
    requires ds == [
        Delivery(FileEvent(false, Modified, "/a/config.yml"), 1000, 1000),
        Delivery(FileEvent(false, Modified, "/a/config.yml"), 1050, 1050),
        Delivery(FileEvent(false, Modified, "/a/other.yml"), 1060, 1060)]
    ensures Run("/a/config.yml", 0, ds).firings == [Firing("/a/config.yml", 1000, 1000)]
    ensures Run("/a/other.yml", 0, ds).firings == [Firing("/a/other.yml", 1060, 1060)]
  {
    BurstFiresOnce("/a/config.yml", 0, ds);
    assert !Relevant("/a/other.yml", ds[0].event) && !Relevant("/a/other.yml", ds[1].event);
    DroppedDeliveryIsInvisible("/a/other.yml", 0, ds[0], ds[1..]);
    assert [ds[0]] + ds[1..] == ds;
    DroppedDeliveryIsInvisible("/a/other.yml", 0, ds[1], ds[2..]);
    assert [ds[1]] + ds[2..] == ds[1..];
    assert Run("/a/other.yml", 0, ds[2..]).firings == [Firing("/a/other.yml", 1060, 1060)];
  }
}
