/**
 * The change signals between the pages: an in-window event bus, the throttled
 * trackers that re-render a page when the quantities change, and the records
 * kept in the browser store (`projectModifications`, `globalDataRefresh`,
 * `projectData`). The clock is a parameter (`now`, in milliseconds); the store
 * holds parsed JSON, or a mark that the stored text does not parse.
 */
module MetreUpdates {
  import opened Cells
  import opened NumericValues

  const PROJECT_DATA := "projectData"
  const PROJECT_MODIFICATIONS := "projectModifications"
  const LAST_ROUTE := "lastRoute"
  const GLOBAL_DATA_REFRESH := "globalDataRefresh"

  // ---------------------------------------------------------------------
  // The event bus.
  // ---------------------------------------------------------------------

  /** A subscribed callback, by identity. */
  type Listener = nat

  /** `UpdateEventBus`: the set of callbacks of the window. */
  class UpdateEventBus {
    var listeners: set<Listener>

    constructor()
      ensures listeners == {}
    {
      listeners := {};
    }

    /** `subscribe`: the callback joins the set. */
    method Subscribe(callback: Listener)
      modifies this
      ensures listeners == old(listeners) + {callback}
    {
      listeners := listeners + {callback};
    }

    /** The function `subscribe` returns: the callback leaves the set. */
    method Unsubscribe(callback: Listener)
      modifies this
      ensures listeners == old(listeners) - {callback}
    {
      listeners := listeners - {callback};
    }

    /** `publish`: every callback of the set is called, each once, and no other. */
    method Publish() returns (called: set<Listener>)
      ensures called == listeners
    {
      called := {};
      var rest := listeners;
      while rest != {}
        invariant rest <= listeners && called == listeners - rest
        decreases |rest|
      {
        var callback :| callback in rest;
        called := called + {callback};
        rest := rest - {callback};
      }
    }
  }

  /** Subscribing a new callback and then unsubscribing it leaves the bus as it was. */
  method SubscribeUnsubscribe(bus: UpdateEventBus, callback: Listener)
    requires callback !in bus.listeners
    modifies bus
    ensures bus.listeners == old(bus.listeners)
  {
    bus.Subscribe(callback);
    bus.Unsubscribe(callback);
  }

  // ---------------------------------------------------------------------
  // Throttles.
  // ---------------------------------------------------------------------

  /** `now - last > gap`: enough time has passed since the last accepted call. */
  predicate Due(now: int, last: int, gap: nat)
  {
    now - last > gap
  }

  /**
   * The storage keys the quantities page reacts to: those naming chapters,
   * projects (`projet`), quantities (`metre`) or table lines, and the two
   * records of this module. A missing or empty key is never relevant.
   */
  predicate Relevant(key: Option<string>)
  {
    key.Some? && key.value != "" &&
    (Contains(key.value, "chapter") || Contains(key.value, "projet") || Contains(key.value, "metre") ||
     Contains(key.value, "tableLine") || key.value == PROJECT_MODIFICATIONS || key.value == PROJECT_DATA)
  }

  /** The keys written by the pages are relevant; `projectData` needs its own test since it does not contain `projet`. */
  lemma {:induction false} RelevantKeys()
    ensures Relevant(Some("chapters")) && Relevant(Some(PROJECT_MODIFICATIONS)) && Relevant(Some(PROJECT_DATA))
    ensures !Contains(PROJECT_DATA, "projet")
    ensures !Relevant(None) && !Relevant(Some(""))
  {
    assert OccursAt("chapters", "chapter", 0);
    forall i | 0 <= i <= |PROJECT_DATA|
      ensures !OccursAt(PROJECT_DATA, "projet", i)
    {
      if i == 0 {
        assert PROJECT_DATA[..6][5] != "projet"[5];
      } else if i + 6 <= |PROJECT_DATA| {
        assert PROJECT_DATA[i..i + 6][0] != "projet"[0];
      }
    }
  }

  /** The key of the global refresh record is not among them: its storage event does not reach the tracker. */
  lemma {:induction false} GlobalRefreshKeyIgnored()
    ensures !Relevant(Some(GLOBAL_DATA_REFRESH))
  {
    MissingCharNotContained(GLOBAL_DATA_REFRESH, "chapter", 0);
    MissingCharNotContained(GLOBAL_DATA_REFRESH, "projet", 0);
    MissingCharNotContained(GLOBAL_DATA_REFRESH, "metre", 0);
    MissingCharNotContained(GLOBAL_DATA_REFRESH, "tableLine", 5);
  }

  /** A text lacking one of the characters of `sub` does not contain `sub`. */
  lemma {:induction false} MissingCharNotContained(s: string, sub: string, k: nat)
    requires k < |sub| && forall j :: 0 <= j < |s| ==> s[j] != sub[k]
    ensures !Contains(s, sub)
  {
    forall i | 0 <= i <= |s|
      ensures !OccursAt(s, sub, i)
    {
      if i + |sub| <= |s| {
        assert s[i..i + |sub|][k] == s[i + k];
      }
    }
  }

  /** `useMetreUpdates`: the time of the last re-render and the reference the throttles compare with. */
  class MetreUpdateTracker {
    var lastUpdate: int
    var lastUpdateRef: int

    /** The state and the reference start from two readings of the clock. */
    constructor(stateNow: int, refNow: int)
      ensures lastUpdate == stateNow && lastUpdateRef == refNow
    {
      lastUpdate := stateNow;
      lastUpdateRef := refNow;
    }

    /** The bus callback: an update when more than 200 ms have passed since the last one. */
    method OnBusSignal(now: int) returns (updated: bool)
      modifies this
      ensures updated == Due(now, old(lastUpdateRef), 200)
      ensures updated ==> lastUpdate == now && lastUpdateRef == now
      ensures !updated ==> lastUpdate == old(lastUpdate) && lastUpdateRef == old(lastUpdateRef)
    {
      updated := now - lastUpdateRef > 200;
      if updated {
        lastUpdateRef := now;
        lastUpdate := now;
      }
    }

    /** The storage listener: the same throttle, for relevant keys only. */
    method OnStorageEvent(key: Option<string>, now: int) returns (updated: bool)
      modifies this
      ensures updated == (Relevant(key) && Due(now, old(lastUpdateRef), 200))
      ensures updated ==> lastUpdate == now && lastUpdateRef == now
      ensures !updated ==> lastUpdate == old(lastUpdate) && lastUpdateRef == old(lastUpdateRef)
    {
      updated := false;
      if Relevant(key) {
        if now - lastUpdateRef > 200 {
          lastUpdateRef := now;
          lastUpdate := now;
          updated := true;
        }
      }
    }

    /** `forceUpdate`: an update whatever the time. */
    method ForceUpdate(now: int)
      modifies this
      ensures lastUpdate == now && lastUpdateRef == now
    {
      lastUpdateRef := now;
      lastUpdate := now;
    }
  }

  /** Two signals less than 200 ms apart re-render at most once. */
  method BurstUpdatesOnce(tracker: MetreUpdateTracker, t1: int, t2: int) returns (first: bool, second: bool)
    requires t1 <= t2 <= t1 + 200
    modifies tracker
    ensures !(first && second)
    ensures first ==> tracker.lastUpdate == t1
  {
    first := tracker.OnBusSignal(t1);
    second := tracker.OnBusSignal(t2);
  }

  /** `usePageVisibility`: the callback on mount (once) and when the page turns visible, at most every 500 ms. */
  class PageVisibilityWatcher {
    var lastCall: int

    constructor()
      ensures lastCall == 0
    {
      lastCall := 0;
    }

    /** The effect: the callback runs only while no call was ever recorded. */
    method Mount(now: int) returns (called: bool)
      modifies this
      ensures called == (old(lastCall) == 0)
      ensures lastCall == if called then now else old(lastCall)
    {
      called := lastCall == 0;
      if called {
        lastCall := now;
      }
    }

    method OnVisibilityChange(visible: bool, now: int) returns (called: bool)
      modifies this
      ensures called == (visible && Due(now, old(lastCall), 500))
      ensures lastCall == if called then now else old(lastCall)
    {
      called := visible && now - lastCall > 500;
      if called {
        lastCall := now;
      }
    }
  }

  /** `useLocalStorageChangeListener`: the callback for storage events of one key, at most every 300 ms. */
  class StorageKeyListener {
    const key: string
    var lastCall: int

    constructor(key: string)
      ensures this.key == key && lastCall == 0
    {
      this.key := key;
      lastCall := 0;
    }

    method OnStorage(eventKey: Option<string>, now: int) returns (called: bool)
      modifies this
      ensures called == (eventKey == Some(key) && Due(now, old(lastCall), 300))
      ensures lastCall == if called then now else old(lastCall)
    {
      called := eventKey == Some(key) && now - lastCall > 300;
      if called {
        lastCall := now;
      }
    }
  }

  // ---------------------------------------------------------------------
  // The stored records.
  // ---------------------------------------------------------------------

  /** Parsed JSON: an object is seen through its plain fields and its `chapters` field. */
  datatype Json = Null | Scalar(v: JsVal) | Object(fields: map<string, JsVal>, chapters: Option<seq<ChapterValue>>)

  /** A stored text: it parses, or it does not (an empty text behaves as one that does not parse). */
  datatype Stored = Unparsable | Parsed(json: Json)

  /** `j.name`; a field of anything but an object is undefined. */
  function FieldOf(j: Json, name: string): JsVal
  {
    if j.Object? && name in j.fields then j.fields[name] else JUndefined
  }

  /** `now - j.timestamp < gap` as JavaScript evaluates it: a timestamp that is not a number never compares. */
  predicate StampedWithin(j: Json, now: int, gap: int)
  {
    var t := ToNumber(FieldOf(j, "timestamp"));
    t.Fin? && (now as real) - t.v < gap as real
  }

  function Lookup(items: map<string, Stored>, key: string): Option<Stored>
  {
    if key in items then Some(items[key]) else None
  }

  /** What `signalProjectModification` stores. */
  function ModificationRecord(now: int, source: string): Stored
  {
    Parsed(Object(map["timestamp" := JNum(Fin(now as real)), "source" := JStr(source)], None))
  }

  /** What `forceGlobalDataRefresh` stores. */
  function RefreshRecord(now: int, reason: string): Stored
  {
    Parsed(Object(map["timestamp" := JNum(Fin(now as real)), "reason" := JStr(reason),
                      "isGlobalRefresh" := JBool(true), "force" := JBool(true)], None))
  }

  /** A signal is dropped when the last one parses, came from the same source, and is less than 300 ms old. */
  predicate Suppressed(last: Option<Stored>, now: int, source: string)
  {
    last.Some? && last.value.Parsed? && StampedWithin(last.value.json, now, 300) &&
    FieldOf(last.value.json, "source") == JStr(source)
  }

  /** A missing record, or one that does not parse, never drops a signal. */
  lemma {:induction false} MissingRecordNeverSuppresses(last: Option<Stored>, now: int, source: string)
    requires last.None? || last.value.Unparsable?
    ensures !Suppressed(last, now, source)
  {
  }

  /** After a signal stamped `t` from `s`, a signal at `now` from `s'` is dropped exactly when it repeats `s` within 300 ms. */
  lemma {:induction false} SuppressedAfterSignal(t: int, s: string, now: int, s': string)
    ensures Suppressed(Some(ModificationRecord(t, s)), now, s') <==> s' == s && now - t < 300
  {
    var j := ModificationRecord(t, s).json;
    assert FieldOf(j, "timestamp") == JNum(Fin(t as real));
    assert FieldOf(j, "source") == JStr(s);
  }

  /** A non-urgent refresh is skipped when the last refresh record parses and is less than 2 s old. */
  predicate RefreshSkipped(last: Option<Stored>, now: int, reason: string)
  {
    last.Some? && last.value.Parsed? && StampedWithin(last.value.json, now, 2000) && !Contains(reason, "URGENCE")
  }

  /** After a refresh stamped `t`, another is skipped exactly within 2 s and without 'URGENCE' in its reason. */
  lemma {:induction false} RefreshSkippedAfterRefresh(t: int, reason: string, now: int, reason': string)
    ensures RefreshSkipped(Some(RefreshRecord(t, reason)), now, reason') <==> now - t < 2000 && !Contains(reason', "URGENCE")
  {
    assert FieldOf(RefreshRecord(t, reason).json, "timestamp") == JNum(Fin(t as real));
  }

  /** A delayed second signal follows urgent refreshes and those about quantities or updates. */
  predicate SchedulesDelayedSignal(reason: string)
  {
    Contains(reason, "URGENCE") || Contains(reason, "Metre") || Contains(reason, "Update")
  }

  /** The browser store, key by key. */
  class BrowserStore {
    var items: map<string, Stored>

    constructor(items: map<string, Stored>)
      ensures this.items == items
    {
      this.items := items;
    }
  }

  /**
   * `signalProjectModification`: unless the signal is dropped, the record is
   * overwritten with the time and the source, every bus callback is called,
   * and a storage event for the record's key is dispatched in the window.
   */
  method SignalProjectModification(store: BrowserStore, bus: UpdateEventBus, source: string, now: int)
    returns (called: Option<set<Listener>>, dispatched: Option<string>)
    modifies store
    ensures Suppressed(Lookup(old(store.items), PROJECT_MODIFICATIONS), now, source) ==>
      called == None && dispatched == None && store.items == old(store.items)
    ensures !Suppressed(Lookup(old(store.items), PROJECT_MODIFICATIONS), now, source) ==>
      called == Some(bus.listeners) && dispatched == Some(PROJECT_MODIFICATIONS) &&
      store.items == old(store.items)[PROJECT_MODIFICATIONS := ModificationRecord(now, source)]
  {
    if Suppressed(Lookup(store.items, PROJECT_MODIFICATIONS), now, source) {
      return None, None;
    }
    store.items := store.items[PROJECT_MODIFICATIONS := ModificationRecord(now, source)];
    var c := bus.Publish();
    called := Some(c);
    dispatched := Some(PROJECT_MODIFICATIONS);
  }

  /**
   * `forceGlobalDataRefresh`: unless skipped, the refresh record is written,
   * the bus callbacks are called, and a modification is signalled with source
   * `'ForcedGlobalRefresh-' + reason`; `delayed` tells whether a second signal
   * is scheduled 500 ms later.
   */
  method ForceGlobalDataRefresh(store: BrowserStore, bus: UpdateEventBus, reason: string, now: int)
    returns (refreshed: bool, signalled: bool, delayed: bool)
    modifies store
    ensures refreshed == !RefreshSkipped(Lookup(old(store.items), GLOBAL_DATA_REFRESH), now, reason)
    ensures !refreshed ==> store.items == old(store.items) && !signalled && !delayed
    ensures refreshed ==>
      var written := old(store.items)[GLOBAL_DATA_REFRESH := RefreshRecord(now, reason)];
      var source := "ForcedGlobalRefresh-" + reason;
      signalled == !Suppressed(Lookup(old(store.items), PROJECT_MODIFICATIONS), now, source) &&
      store.items == (if signalled then written[PROJECT_MODIFICATIONS := ModificationRecord(now, source)] else written) &&
      delayed == SchedulesDelayedSignal(reason)
  {
    if RefreshSkipped(Lookup(store.items, GLOBAL_DATA_REFRESH), now, reason) {
      return false, false, false;
    }
    refreshed := true;
    store.items := store.items[GLOBAL_DATA_REFRESH := RefreshRecord(now, reason)];
    var _ := bus.Publish();
    assert Lookup(store.items, PROJECT_MODIFICATIONS) == Lookup(old(store.items), PROJECT_MODIFICATIONS);
    var called, _ := SignalProjectModification(store, bus, "ForcedGlobalRefresh-" + reason, now);
    signalled := called.Some?;
    delayed := Contains(reason, "URGENCE") || Contains(reason, "Metre") || Contains(reason, "Update");
  }

  /** The record `getLastModification` falls back on. */
  function DefaultModification(): Json
  {
    Object(map["timestamp" := JNum(Fin(0.0)), "source" := JStr("")], None)
  }

  /** `getLastModification`: the parsed record, or time 0 and an empty source when it is missing or does not parse. */
  function LastModification(items: map<string, Stored>): (j: Json)
    ensures Lookup(items, PROJECT_MODIFICATIONS) in {None, Some(Unparsable)} ==> j == DefaultModification()
    ensures PROJECT_MODIFICATIONS in items && items[PROJECT_MODIFICATIONS].Parsed? ==> j == items[PROJECT_MODIFICATIONS].json
  {
    if PROJECT_MODIFICATIONS in items && items[PROJECT_MODIFICATIONS].Parsed? then items[PROJECT_MODIFICATIONS].json
    else DefaultModification()
  }

  /** After a signal, the last modification reads back its time and source. */
  lemma {:induction false} LastModificationAfterSignal(items: map<string, Stored>, now: int, source: string)
    ensures var j := LastModification(items[PROJECT_MODIFICATIONS := ModificationRecord(now, source)]);
      FieldOf(j, "timestamp") == JNum(Fin(now as real)) && FieldOf(j, "source") == JStr(source)
  {
    var j := LastModification(items[PROJECT_MODIFICATIONS := ModificationRecord(now, source)]);
    assert j == ModificationRecord(now, source).json;
  }

  /** A signal from the same window reaches the tracker through the bus and through its own storage event; it re-renders once. */
  method SignalReachesTrackerOnce(store: BrowserStore, bus: UpdateEventBus, tracker: MetreUpdateTracker, source: string, now: int)
    returns (viaBus: bool, viaEvent: bool)
    modifies store, tracker
    ensures !(viaBus && viaEvent)
  {
    var called, dispatched := SignalProjectModification(store, bus, source, now);
    viaBus := false;
    viaEvent := false;
    if called.Some? {
      viaBus := tracker.OnBusSignal(now);
      viaEvent := tracker.OnStorageEvent(dispatched, now);
    }
  }

  // ---------------------------------------------------------------------
  // Reading the project data back.
  // ---------------------------------------------------------------------

  /** What `getProjectData` hands back: null, a parsed value that is not an object, or the converted object. */
  datatype Loaded = NoData | ScalarData(v: JsVal) | DocData(doc: ProjectDoc)

  method MaterializeLine(v: LineValue) returns (l: Line)
    ensures fresh(l) && LineMirrors(l, v)
    ensures l.mainTableLine.Some? ==> fresh(l.mainTableLine.value)
  {
    if v.mainTableLine.None? {
      l := new Line(None);
    } else {
      var m := new MainTableLine(v.mainTableLine.value);
      l := new Line(Some(m));
    }
  }

  method MaterializeChapter(v: ChapterValue) returns (c: ChapterEntry)
    ensures fresh(c) && fresh(ChapterLines(c)) && ChapterMirrors(c, v)
  {
    if v.lines.None? {
      c := new ChapterEntry(None);
      return;
    }
    var values := v.lines.value;
    var lines: seq<Line> := [];
    for j := 0 to |values|
      invariant |lines| == j
      invariant forall k :: 0 <= k < j ==> LineMirrors(lines[k], values[k])
      invariant forall k :: 0 <= k < j && lines[k].mainTableLine.Some? ==> fresh(lines[k].mainTableLine.value)
    {
      var l := MaterializeLine(values[j]);
      lines := lines + [l];
    }
    c := new ChapterEntry(Some(lines));
  }

  /** `JSON.parse` of an object: a fresh object graph that holds the parsed chapters. */
  method Materialize(chs: Option<seq<ChapterValue>>) returns (d: ProjectDoc)
    ensures fresh(d) && fresh(Reachable(d)) && Mirrors(d, chs)
  {
    if chs.None? {
      d := new ProjectDoc(None);
      return;
    }
    var values := chs.value;
    var chapters: seq<ChapterEntry> := [];
    for i := 0 to |values|
      invariant |chapters| == i
      invariant forall k :: 0 <= k < i ==> ChapterMirrors(chapters[k], values[k])
      invariant forall k :: 0 <= k < i ==> fresh(ChapterLines(chapters[k]))
    {
      var c := MaterializeChapter(values[i]);
      chapters := chapters + [c];
    }
    d := new ProjectDoc(Some(chapters));
  }

  /** `ensureNumericValues` on an object graph that holds `chs`: afterwards it holds their conversion. */
  method ConvertMirrored(d: ProjectDoc, chs: Option<seq<ChapterValue>>)
    requires Mirrors(d, chs)
    modifies Reachable(d)
    ensures Mirrors(d, ConvertChapters(chs))
  {
    var same := EnsureNumericValues(Some(d));
    if chs.Some? {
      var after := ConvertChapters(chs).value;
      forall i | 0 <= i < |chs.value|
        ensures ChapterMirrors(d.chapters.value[i], after[i])
      {
        var c := d.chapters.value[i];
        assert old(ChapterMirrors(c, chs.value[i]));
        if c.lines.Some? {
          forall j | 0 <= j < |c.lines.value|
            ensures LineMirrors(c.lines.value[j], after[i].lines.value[j])
          {
            var l := c.lines.value[j];
            assert old(LineMirrors(l, chs.value[i].lines.value[j]));
            if l.mainTableLine.Some? {
              var m := l.mainTableLine.value;
              assert m in ChapterLines(c);
              assert m in Reachable(d);
            }
          }
        }
      }
    }
  }

  /**
   * `getProjectData`: null when the record is missing, does not parse, or is
   * null; a parsed value that is not an object as it is; an object as a fresh
   * object graph on which `ensureNumericValues` has run.
   */
  method GetProjectData(store: BrowserStore) returns (r: Loaded)
    ensures Lookup(store.items, PROJECT_DATA) in {None, Some(Unparsable), Some(Parsed(Null))} ==> r == NoData
    ensures PROJECT_DATA in store.items && store.items[PROJECT_DATA].Parsed? && store.items[PROJECT_DATA].json.Scalar? ==>
      r == ScalarData(store.items[PROJECT_DATA].json.v)
    ensures PROJECT_DATA in store.items && store.items[PROJECT_DATA].Parsed? && store.items[PROJECT_DATA].json.Object? ==>
      r.DocData? && fresh(r.doc) && Mirrors(r.doc, ConvertChapters(store.items[PROJECT_DATA].json.chapters))
  {
    if PROJECT_DATA !in store.items || store.items[PROJECT_DATA].Unparsable? {
      return NoData;
    }
    var parsed := store.items[PROJECT_DATA].json;
    if parsed.Null? {
      return NoData;
    }
    if parsed.Scalar? {
      return ScalarData(parsed.v);
    }
    var d := Materialize(parsed.chapters);
    ConvertMirrored(d, parsed.chapters);
    r := DocData(d);
  }
}
