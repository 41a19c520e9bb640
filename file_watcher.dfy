/**
 * The file-change bridge: which filesystem notifications become a
 * `file-changed` event for the editor, the receive loop that forwards them,
 * and the watcher state that `stop_watching` clears.
 */
module FileWatcher {
  import opened Wrappers

  /** The kinds of `notify::EventKind`; their sub-kinds are never consulted. */
  datatype EventKind = Any | Access | Create | Modify | Remove | Other

  /**
   * A changed path, with its lossy text and whether it names a directory
   * (`Path::is_dir`, a filesystem query, taken as observed when the event is handled).
   */
  datatype ChangedPath = ChangedPath(text: string, isDir: bool)

  datatype Event = Event(kind: EventKind, paths: seq<ChangedPath>)

  predicate OccursAt(s: string, pattern: string, i: int) {
    0 <= i <= |s| - |pattern| && s[i..i + |pattern|] == pattern
  }

  /** `s.contains(pattern)`. */
  predicate Contains(s: string, pattern: string) {
    exists i | 0 <= i <= |s| - |pattern| :: OccursAt(s, pattern, i)
  }

  /** `s.ends_with(suffix)`. */
  predicate EndsWith(s: string, suffix: string) {
    |suffix| <= |s| && s[|s| - |suffix|..] == suffix
  }

  /** Hidden files and anything below a hidden directory, editor backups, temporary files, directories. */
  predicate Ignored(p: ChangedPath) {
    Contains(p.text, "/.") || EndsWith(p.text, "~") || EndsWith(p.text, ".tmp") || p.isDir
  }

  /** What the handler emits for one event: the first path's text, unless filtered out. */
  function Emission(ev: Event): (r: Option<string>)
    ensures r.Some? <==> (ev.kind == Modify || ev.kind == Create) && |ev.paths| > 0 && !Ignored(ev.paths[0])
    ensures r.Some? ==> r.value == ev.paths[0].text
  {
    if !(ev.kind == Modify || ev.kind == Create) then None
    else if |ev.paths| == 0 then None
    else if Ignored(ev.paths[0]) then None
    else Some(ev.paths[0].text)
  }

  /** The payloads emitted for a stream of events, in order. */
  function Emissions(events: seq<Event>): seq<string> {
    if events == [] then []
    else
      var rest := Emissions(events[..|events| - 1]);
      var e := Emission(events[|events| - 1]);
      if e.Some? then rest + [e.value] else rest
  }

  /**
   * The handler thread's `while let Ok(event) = rx.recv()` loop over the events
   * the channel delivers, returning the `file-changed` payloads in order.
   */
  method HandleEvents(events: seq<Event>) returns (emitted: seq<string>)
    ensures emitted == Emissions(events)
  {
    emitted := [];
    var k := 0;
    while k < |events|
      invariant 0 <= k <= |events|
      invariant emitted == Emissions(events[..k])
    {
      assert events[..k + 1][..k] == events[..k];
      var event := events[k];
      k := k + 1;
      if !(event.kind == Modify || event.kind == Create) {
        continue;
      }
      if |event.paths| > 0 {
        var path := event.paths[0];
        var pathStr := path.text;
        if Contains(pathStr, "/.") || EndsWith(pathStr, "~") || EndsWith(pathStr, ".tmp") || path.isDir {
          continue;
        }
        emitted := emitted + [pathStr];
      }
    }
    assert events[..k] == events;
  }

  /**
   * Every emitted payload is the first path of some Modify or Create event,
   * and is neither hidden, nor a backup or temporary file, nor a directory.
   */
  lemma {:induction false} EmittedPathsAreVisible(events: seq<Event>)
    ensures forall s :: s in Emissions(events) ==>
      exists k :: (0 <= k < |events| && (events[k].kind == Modify || events[k].kind == Create) &&
        |events[k].paths| > 0 && events[k].paths[0].text == s && !Ignored(events[k].paths[0]))
  {
    if events != [] {
      var init := events[..|events| - 1];
      EmittedPathsAreVisible(init);
      forall s | s in Emissions(events)
        ensures exists k :: (0 <= k < |events| && (events[k].kind == Modify || events[k].kind == Create) &&
          |events[k].paths| > 0 && events[k].paths[0].text == s && !Ignored(events[k].paths[0]))
      {
        if s in Emissions(init) {
          var k :| 0 <= k < |init| && (init[k].kind == Modify || init[k].kind == Create) &&
            |init[k].paths| > 0 && init[k].paths[0].text == s && !Ignored(init[k].paths[0]);
          assert events[k] == init[k];
        } else {
          assert Emission(events[|events| - 1]) == Some(s);
        }
      }
    }
  }

  /** A path inside a hidden directory, or naming a hidden file, is never emitted. */
  lemma HiddenNeverEmitted(ev: Event, dir: string, rest: string)
    requires |ev.paths| > 0 && ev.paths[0].text == dir + "/." + rest
    ensures Emission(ev) == None
  {
    var s := ev.paths[0].text;
    assert OccursAt(s, "/.", |dir|);
  }

  /** Only the first path counts: later paths never change what is emitted. */
  lemma OnlyFirstPathCounts(kind: EventKind, first: ChangedPath, others: seq<ChangedPath>)
    ensures Emission(Event(kind, [first] + others)) == Emission(Event(kind, [first]))
  {
    assert ([first] + others)[0] == first;
  }

  /** An opaque handle on the operating system's watcher. */
  datatype Watcher = Watcher(root: string)

  /** `FileWatcherState`: the live watcher, if any, and the path being watched. */
  class FileWatcherState {
    var watcher: Option<Watcher>
    var watchedPath: Option<string>

    /** `FileWatcherState::default()`: nothing watched. */
    constructor ()
      ensures watcher == None && watchedPath == None
    {
      watcher := None;
      watchedPath := None;
    }

    /**
     * `stop_watching(&mut state.watcher)`: take the watcher out and drop it.
     * Afterwards there is none; with none to begin with nothing changes.
     * The watched path is not this function's business.
     */
    method StopWatching()
      modifies this`watcher
      ensures watcher == None
      ensures old(watcher) == None ==> unchanged(this)
    {
      if watcher.Some? {
        var w := watcher.value;
        watcher := None;
      }
    }
  }
}
