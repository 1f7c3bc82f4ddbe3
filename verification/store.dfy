/**
 * The persistent state of open empty trays and their history
 * (`StateStore`, main.py:118-219): reconciling a new snapshot against the open
 * trays, marking a tray filled by hand, appending history events and capping
 * the history at `MAX_EVENTS` entries.
 */
module Store {
  import opened Wrappers
  import opened Dict
  import opened Snapshot

  /** `MAX_EVENTS` (main.py:41). */
  const MaxEvents: nat := 20000

  datatype Event = Event(
    timestamp: string,
    eventType: string,
    printerId: string,
    description: string,
    tray: string,
    emptySince: string,
    lastSeen: string,
    statusMessage: string,
    printerText: string,
    note: string)

  /** The JSON document: open trays by key, the history, the last scan time. */
  datatype StateDoc = StateDoc(openTrays: Dict<TrayItem>, events: seq<Event>, lastScanAt: string)

  const EmptyState: StateDoc := StateDoc([], [], "")

  /**
   * What reading the state file can give: no file, a read error (`OSError`),
   * bytes that are not UTF-8 (`UnicodeDecodeError`), text that is not JSON
   * (`JSONDecodeError`), or a parsed document.
   */
  datatype StoredState = Missing | ReadError | NotUtf8 | NotJson | Parsed(doc: StateDoc)

  /** The outcome of `load` as written: a state, or an exception that escapes it. */
  datatype LoadOutcome = Loaded(doc: StateDoc) | Raises

  /**
   * `load` as written: a missing file leaves the initial empty state; the
   * two caught exceptions reset it; a parsed document is taken as is. A
   * `UnicodeDecodeError` is neither of the caught types, so it escapes.
   */
  function LoadAsWritten(stored: StoredState): (r: LoadOutcome)
    ensures r.Raises? <==> stored.NotUtf8?
    ensures stored.Parsed? ==> r == Loaded(stored.doc)
    ensures stored.Missing? || stored.ReadError? || stored.NotJson? ==> r == Loaded(EmptyState)
  {
    match stored
    case Parsed(d) => Loaded(d)
    case NotUtf8 => Raises
    case _ => Loaded(EmptyState)
  }

  /** A state file that is not UTF-8 makes the store's constructor fail. */
  lemma NonUtf8StateFileEscapes()
    ensures LoadAsWritten(NotUtf8).Raises?
    ensures LoadState(NotUtf8) == EmptyState
  {
  }

  /**
   * `load` as intended: any file that cannot be read or parsed resets the
   * state to the empty document, so loading never fails.
   */
  function LoadState(stored: StoredState): (doc: StateDoc)
    ensures stored.Parsed? ==> doc == stored.doc
    ensures !stored.Parsed? ==> doc.openTrays == [] && doc.events == [] && doc.lastScanAt == ""
  {
    match stored
    case Parsed(d) => d
    case _ => EmptyState
  }

  /** The intended `load` agrees with the written one wherever that one returns. */
  lemma LoadStateAgreesWhenLoaded(stored: StoredState)
    ensures LoadAsWritten(stored).Loaded? ==> LoadAsWritten(stored).doc == LoadState(stored)
    ensures LoadAsWritten(stored).Loaded? <==> !stored.NotUtf8?
  {
  }

  const EmptyType: string := "empty"
  const FilledType: string := "filled"
  const DetectedNote: string := "detected by monitor"
  const ResolvedNote: string := "no longer reported empty"
  const ManualNote: string := "manually marked filled"

  /** `_append_event`'s record: a missing `since` or `last_seen` is written as "". */
  function EventFor(timestamp: string, eventType: string, item: TrayItem, note: string): (e: Event)
    ensures e.timestamp == timestamp && e.eventType == eventType && e.note == note
    ensures e.printerId == item.printerId && e.tray == item.tray && e.description == item.description
    ensures e.emptySince == item.since.GetOr("") && e.lastSeen == item.lastSeen.GetOr("")
    ensures e.statusMessage == item.statusMessage && e.printerText == item.printerText
  {
    Event(timestamp, eventType, item.printerId, item.description, item.tray,
          item.since.GetOr(""), item.lastSeen.GetOr(""), item.statusMessage, item.printerText, note)
  }

  /** `_trim_events`: keeps only the newest `MaxEvents` events. */
  function TrimEvents(events: seq<Event>): (r: seq<Event>)
    ensures |r| <= MaxEvents
    ensures |r| <= |events| && r == events[|events| - |r|..]
    ensures |events| <= MaxEvents ==> r == events
    ensures |events| > MaxEvents ==> |r| == MaxEvents
  {
    if |events| > MaxEvents then events[|events| - MaxEvents..] else events
  }

  /** Trimming twice trims no more than trimming once. */
  lemma TrimEventsIdempotent(events: seq<Event>)
    ensures TrimEvents(TrimEvents(events)) == TrimEvents(events)
  {
  }

  // ---------------------------------------------------------------------------
  // reconcile

  /** A tray seen for the first time: empty since, and last seen, now. */
  function Opened(item: TrayItem, scanTime: string): TrayItem {
    item.(since := Some(scanTime), lastSeen := Some(scanTime))
  }

  /** A tray still empty: it keeps the time it was first seen empty. */
  function Carried(item: TrayItem, prior: TrayItem, scanTime: string): TrayItem {
    item.(since := Some(prior.since.GetOr(scanTime)), lastSeen := Some(scanTime))
  }

  /** The entry a tray has after reconciling: opened, or carried over from `previous`. */
  function Stamped(previous: Dict<TrayItem>, item: TrayItem, key: string, scanTime: string): TrayItem
    requires Valid(previous)
  {
    match Get(previous, key)
    case None => Opened(item, scanTime)
    case Some(prior) => Carried(item, prior, scanTime)
  }

  /** The "empty" event of a tray seen empty for the first time. */
  function DetectedEvent(item: TrayItem, scanTime: string): Event {
    EventFor(scanTime, EmptyType, Opened(item, scanTime), DetectedNote)
  }

  /** The "filled" event of an open tray the scan no longer reports. */
  function ResolvedEvent(prior: TrayItem, scanTime: string): Event {
    EventFor(scanTime, FilledType, prior.(lastSeen := Some(scanTime)), ResolvedNote)
  }

  /** One "empty" event per entry whose key is not in `known`, in the entries' order. */
  function DetectedEvents(known: set<string>, entries: Dict<TrayItem>, scanTime: string): seq<Event>
    decreases |entries|
  {
    if |entries| == 0 then []
    else
      var last := entries[|entries| - 1];
      DetectedEvents(known, entries[..|entries| - 1], scanTime)
      + (if last.0 in known then [] else [DetectedEvent(last.1, scanTime)])
  }

  /** One "filled" event per entry whose key is not in `remaining`, in the entries' order. */
  function ResolvedEvents(remaining: set<string>, entries: Dict<TrayItem>, scanTime: string): seq<Event>
    decreases |entries|
  {
    if |entries| == 0 then []
    else
      var last := entries[|entries| - 1];
      ResolvedEvents(remaining, entries[..|entries| - 1], scanTime)
      + (if last.0 in remaining then [] else [ResolvedEvent(last.1, scanTime)])
  }

  /**
   * The "empty" events are exactly those of the entries not in `known`: each
   * such entry has its event, and every event is one of theirs.
   */
  lemma {:induction false} DetectedEventsMembers(known: set<string>, entries: Dict<TrayItem>, scanTime: string)
    ensures forall i :: 0 <= i < |entries| && entries[i].0 !in known ==>
              DetectedEvent(entries[i].1, scanTime) in DetectedEvents(known, entries, scanTime)
    ensures forall e :: e in DetectedEvents(known, entries, scanTime) ==>
              exists i :: 0 <= i < |entries| && entries[i].0 !in known && e == DetectedEvent(entries[i].1, scanTime)
    decreases |entries|
  {
    if |entries| > 0 {
      var n := |entries|;
      var init := entries[..n - 1];
      DetectedEventsMembers(known, init, scanTime);
      assert forall i :: 0 <= i < n - 1 ==> init[i] == entries[i];
    }
  }

  /**
   * The "filled" events are exactly those of the entries not in `remaining`:
   * each such entry has its event, and every event is one of theirs.
   */
  lemma {:induction false} ResolvedEventsMembers(remaining: set<string>, entries: Dict<TrayItem>,
                                                 scanTime: string)
    ensures forall i :: 0 <= i < |entries| && entries[i].0 !in remaining ==>
              ResolvedEvent(entries[i].1, scanTime) in ResolvedEvents(remaining, entries, scanTime)
    ensures forall e :: e in ResolvedEvents(remaining, entries, scanTime) ==>
              exists i :: 0 <= i < |entries| && entries[i].0 !in remaining
                          && e == ResolvedEvent(entries[i].1, scanTime)
    decreases |entries|
  {
    if |entries| > 0 {
      var n := |entries|;
      var init := entries[..n - 1];
      ResolvedEventsMembers(remaining, init, scanTime);
      assert forall i :: 0 <= i < n - 1 ==> init[i] == entries[i];
    }
  }

  datatype Pass = Pass(open: Dict<TrayItem>, events: seq<Event>)

  /**
   * The first loop of `reconcile` over the first `n` current trays: the open
   * trays it has built and the "empty" events it has appended.
   */
  function OpenPass(previous: Dict<TrayItem>, current: Dict<TrayItem>, n: nat, scanTime: string): (p: Pass)
    requires Valid(previous) && Valid(current) && n <= |current|
    ensures Valid(p.open)
    ensures Keys(p.open) == Keys(current[..n])
    ensures forall i :: 0 <= i < n ==>
              Get(p.open, current[i].0) == Some(Stamped(previous, current[i].1, current[i].0, scanTime))
    ensures forall e :: e in p.events ==>
              e.eventType == EmptyType && e.note == DetectedNote && e.timestamp == scanTime
              && e.emptySince == scanTime && e.lastSeen == scanTime
  {
    if n == 0 then
      assert Keys(current[..0]) == {};
      Pass([], [])
    else
      var before := OpenPass(previous, current, n - 1, scanTime);
      var (key, item) := current[n - 1];
      var stamped := Stamped(previous, item, key, scanTime);
      var open := Put(before.open, key, stamped);
      KeysOfPrefix(current, n);
      assert forall i :: 0 <= i < n ==>
               Get(open, current[i].0) == Some(Stamped(previous, current[i].1, current[i].0, scanTime)) by {
        forall i | 0 <= i < n
          ensures Get(open, current[i].0) == Some(Stamped(previous, current[i].1, current[i].0, scanTime))
        {
          if i < n - 1 {
            assert current[i].0 != key;
          }
        }
      }
      if Get(previous, key).None? then
        Pass(open, before.events + [DetectedEvent(item, scanTime)])
      else
        Pass(open, before.events)
  }

  /** The first loop appends one event per current tray that was not open before. */
  lemma OpenPassCount(previous: Dict<TrayItem>, current: Dict<TrayItem>, n: nat, scanTime: string)
    requires Valid(previous) && Valid(current) && n <= |current|
    ensures |OpenPass(previous, current, n, scanTime).events| == |Keys(current[..n]) - Keys(previous)|
  {
    OpenPassEvents(previous, current, n, scanTime);
    assert Valid(current[..n]);
    DetectedEventsCount(Keys(previous), current[..n], scanTime);
  }

  /** One "empty" event per key not in `known`. */
  lemma {:induction false} DetectedEventsCount(known: set<string>, entries: Dict<TrayItem>, scanTime: string)
    requires Valid(entries)
    ensures |DetectedEvents(known, entries, scanTime)| == |Keys(entries) - known|
    decreases |entries|
  {
    var m := |entries|;
    if m == 0 {
      assert Keys(entries) == {};
    } else {
      assert entries[..m] == entries;
      DetectedEventsCount(known, entries[..m - 1], scanTime);
      NovelKeysStep(known, entries, m);
    }
  }

  /** Extending the prefix by one entry adds one new key exactly when that entry's key is not in `known`. */
  lemma NovelKeysStep(known: set<string>, entries: Dict<TrayItem>, n: nat)
    requires Valid(entries) && 0 < n <= |entries|
    ensures |Keys(entries[..n]) - known|
            == |Keys(entries[..n - 1]) - known| + (if entries[n - 1].0 in known then 0 else 1)
  {
    KeysOfPrefix(entries, n);
    var key := entries[n - 1].0;
    var novel := Keys(entries[..n]) - known;
    var novelBefore := Keys(entries[..n - 1]) - known;
    if key in known {
      assert novel == novelBefore;
    } else {
      assert novel == novelBefore + {key} && key !in novelBefore;
    }
  }

  /** Each entry stamped against `previous`, in the entries' order. */
  function StampedEntries(previous: Dict<TrayItem>, entries: Dict<TrayItem>, scanTime: string): Dict<TrayItem>
    requires Valid(previous)
    decreases |entries|
  {
    if |entries| == 0 then []
    else
      var last := entries[|entries| - 1];
      StampedEntries(previous, entries[..|entries| - 1], scanTime) + [(last.0, Stamped(previous, last.1, last.0, scanTime))]
  }

  /** Stamping keeps every key at its position. */
  lemma {:induction false} StampedEntriesKeySeq(previous: Dict<TrayItem>, entries: Dict<TrayItem>, scanTime: string)
    requires Valid(previous)
    ensures KeySeq(StampedEntries(previous, entries, scanTime)) == KeySeq(entries)
    decreases |entries|
  {
    if |entries| > 0 {
      var stamped := StampedEntries(previous, entries, scanTime);
      StampedEntriesKeySeq(previous, entries[..|entries| - 1], scanTime);
      assert stamped[..|stamped| - 1] == StampedEntries(previous, entries[..|entries| - 1], scanTime);
    }
  }

  /**
   * `open_after` is filled while walking `current`, and no key repeats, so
   * every assignment appends: the open trays are the current ones, stamped,
   * in snapshot order.
   */
  lemma {:induction false} OpenPassOpen(previous: Dict<TrayItem>, current: Dict<TrayItem>, n: nat,
                                        scanTime: string)
    requires Valid(previous) && Valid(current) && n <= |current|
    ensures OpenPass(previous, current, n, scanTime).open == StampedEntries(previous, current[..n], scanTime)
  {
    if n > 0 {
      OpenPassOpen(previous, current, n - 1, scanTime);
      KeysOfPrefix(current, n);
      assert current[..n][..n - 1] == current[..n - 1];
    }
  }

  /** The first loop's open trays keep the snapshot's key order. */
  lemma OpenPassKeySeq(previous: Dict<TrayItem>, current: Dict<TrayItem>, n: nat, scanTime: string)
    requires Valid(previous) && Valid(current) && n <= |current|
    ensures KeySeq(OpenPass(previous, current, n, scanTime).open) == KeySeq(current[..n])
  {
    OpenPassOpen(previous, current, n, scanTime);
    StampedEntriesKeySeq(previous, current[..n], scanTime);
  }

  /** The first loop's events are the "empty" events of the trays not open before, in snapshot order. */
  lemma {:induction false} OpenPassEvents(previous: Dict<TrayItem>, current: Dict<TrayItem>, n: nat,
                                          scanTime: string)
    requires Valid(previous) && Valid(current) && n <= |current|
    ensures OpenPass(previous, current, n, scanTime).events == DetectedEvents(Keys(previous), current[..n], scanTime)
  {
    if n > 0 {
      OpenPassEvents(previous, current, n - 1, scanTime);
      assert current[..n][..n - 1] == current[..n - 1];
    }
  }

  /** The prefix of length `n` adds the key at position `n - 1`, which no earlier entry has. */
  lemma KeysOfPrefix<V>(d: Dict<V>, n: nat)
    requires Valid(d) && 0 < n <= |d|
    ensures Keys(d[..n]) == Keys(d[..n - 1]) + {d[n - 1].0}
    ensures d[n - 1].0 !in Keys(d[..n - 1])
  {
    assert d[..n] == d[..n - 1] + [d[n - 1]];
    forall k | k in Keys(d[..n]) ensures k in Keys(d[..n - 1]) + {d[n - 1].0} {
      var i :| 0 <= i < n && d[..n][i].0 == k;
      if i < n - 1 { assert d[..n - 1][i].0 == k; }
    }
    forall k | k in Keys(d[..n - 1]) + {d[n - 1].0} ensures k in Keys(d[..n]) {
      if k == d[n - 1].0 {
        assert d[..n][n - 1].0 == k;
      } else {
        var i :| 0 <= i < n - 1 && d[..n - 1][i].0 == k;
        assert d[..n][i].0 == k;
      }
    }
  }

  /**
   * The second loop of `reconcile` over the first `n` previous trays: one
   * "filled" event for each that the current snapshot no longer has.
   */
  function FilledPass(previous: Dict<TrayItem>, current: Dict<TrayItem>, n: nat, scanTime: string)
    : (events: seq<Event>)
    requires Valid(previous) && n <= |previous|
    ensures |events| == |Keys(previous[..n]) - Keys(current)|
    ensures forall e :: e in events ==>
              e.eventType == FilledType && e.note == ResolvedNote && e.timestamp == scanTime
              && e.lastSeen == scanTime
  {
    if n == 0 then
      assert Keys(previous[..0]) == {};
      []
    else
      var before := FilledPass(previous, current, n - 1, scanTime);
      var (key, prior) := previous[n - 1];
      KeysOfPrefix(previous, n);
      if key !in Keys(current) then
        assert Keys(previous[..n]) - Keys(current) == (Keys(previous[..n - 1]) - Keys(current)) + {key};
        before + [ResolvedEvent(prior, scanTime)]
      else
        assert Keys(previous[..n]) - Keys(current) == Keys(previous[..n - 1]) - Keys(current);
        before
  }

  /** The second loop's events are the "filled" events of the trays no longer current, in their order. */
  lemma {:induction false} FilledPassEvents(previous: Dict<TrayItem>, current: Dict<TrayItem>, n: nat,
                                            scanTime: string)
    requires Valid(previous) && n <= |previous|
    ensures FilledPass(previous, current, n, scanTime) == ResolvedEvents(Keys(current), previous[..n], scanTime)
  {
    if n > 0 {
      FilledPassEvents(previous, current, n - 1, scanTime);
      assert previous[..n][..n - 1] == previous[..n - 1];
    }
  }

  /** The events one reconcile appends: "empty" events in snapshot order, then "filled" ones. */
  function NewEvents(previous: Dict<TrayItem>, current: Dict<TrayItem>, scanTime: string): seq<Event>
    requires Valid(previous) && Valid(current)
  {
    OpenPass(previous, current, |current|, scanTime).events
    + FilledPass(previous, current, |previous|, scanTime)
  }

  /**
   * One "empty" event per tray that is newly empty, then one "filled" event
   * per tray no longer reported, all stamped with the scan time.
   */
  lemma NewEventsShape(previous: Dict<TrayItem>, current: Dict<TrayItem>, scanTime: string)
    requires Valid(previous) && Valid(current)
    ensures var events := NewEvents(previous, current, scanTime);
            var added := |Keys(current) - Keys(previous)|;
            && |events| == added + |Keys(previous) - Keys(current)|
            && (forall i :: 0 <= i < added ==>
                  events[i].eventType == EmptyType && events[i].note == DetectedNote
                  && events[i].emptySince == scanTime)
            && (forall i :: added <= i < |events| ==>
                  events[i].eventType == FilledType && events[i].note == ResolvedNote)
            && (forall i :: 0 <= i < |events| ==>
                  events[i].timestamp == scanTime && events[i].lastSeen == scanTime)
            && events == DetectedEvents(Keys(previous), current, scanTime)
                         + ResolvedEvents(Keys(current), previous, scanTime)
  {
    NewEventsAreLifecycle(previous, current, scanTime);
    assert current[..|current|] == current;
    assert previous[..|previous|] == previous;
    OpenPassCount(previous, current, |current|, scanTime);
    var emptied := OpenPass(previous, current, |current|, scanTime).events;
    var events := NewEvents(previous, current, scanTime);
    forall i | 0 <= i < |events|
      ensures i < |emptied| ==> events[i] in emptied
      ensures i >= |emptied| ==> events[i] in FilledPass(previous, current, |previous|, scanTime)
    {
      if i >= |emptied| {
        assert events[i] == FilledPass(previous, current, |previous|, scanTime)[i - |emptied|];
      }
    }
  }

  /** The new events are the "empty" events of the first loop followed by the "filled" ones of the second. */
  lemma NewEventsAreLifecycle(previous: Dict<TrayItem>, current: Dict<TrayItem>, scanTime: string)
    requires Valid(previous) && Valid(current)
    ensures NewEvents(previous, current, scanTime)
            == DetectedEvents(Keys(previous), current, scanTime) + ResolvedEvents(Keys(current), previous, scanTime)
  {
    OpenPassEvents(previous, current, |current|, scanTime);
    FilledPassEvents(previous, current, |previous|, scanTime);
    assert current[..|current|] == current;
    assert previous[..|previous|] == previous;
  }

  /**
   * Each tray that appears gets its "empty" event and each tray that
   * disappears gets its "filled" event.
   */
  lemma TrayLifecycleEvents(previous: Dict<TrayItem>, current: Dict<TrayItem>, scanTime: string)
    requires Valid(previous) && Valid(current)
    ensures forall k :: k in Keys(current) && k !in Keys(previous) ==>
              DetectedEvent(Get(current, k).value, scanTime) in NewEvents(previous, current, scanTime)
    ensures forall k :: k in Keys(previous) && k !in Keys(current) ==>
              ResolvedEvent(Get(previous, k).value, scanTime) in NewEvents(previous, current, scanTime)
  {
    NewEventsAreLifecycle(previous, current, scanTime);
    DetectedEventsMembers(Keys(previous), current, scanTime);
    ResolvedEventsMembers(Keys(current), previous, scanTime);
    forall k | k in Keys(current) && k !in Keys(previous)
      ensures DetectedEvent(Get(current, k).value, scanTime) in NewEvents(previous, current, scanTime)
    {
      var i :| 0 <= i < |current| && current[i].0 == k;
    }
    forall k | k in Keys(previous) && k !in Keys(current)
      ensures ResolvedEvent(Get(previous, k).value, scanTime) in NewEvents(previous, current, scanTime)
    {
      var i :| 0 <= i < |previous| && previous[i].0 == k;
    }
  }

  /** Every "empty" event is that of a tray that appeared. */
  lemma DetectedEventsAreNewTrays(previous: Dict<TrayItem>, current: Dict<TrayItem>, scanTime: string)
    requires Valid(previous) && Valid(current)
    ensures forall e :: e in DetectedEvents(Keys(previous), current, scanTime) ==>
              exists k :: k in Keys(current) && k !in Keys(previous)
                          && e == DetectedEvent(Get(current, k).value, scanTime)
  {
    DetectedEventsMembers(Keys(previous), current, scanTime);
    forall e | e in DetectedEvents(Keys(previous), current, scanTime)
      ensures exists k :: k in Keys(current) && k !in Keys(previous)
                          && e == DetectedEvent(Get(current, k).value, scanTime)
    {
      var i :| 0 <= i < |current| && current[i].0 !in Keys(previous) && e == DetectedEvent(current[i].1, scanTime);
      assert Get(current, current[i].0) == Some(current[i].1);
    }
  }

  /** Every "filled" event is that of a tray that disappeared. */
  lemma ResolvedEventsAreGoneTrays(previous: Dict<TrayItem>, current: Dict<TrayItem>, scanTime: string)
    requires Valid(previous) && Valid(current)
    ensures forall e :: e in ResolvedEvents(Keys(current), previous, scanTime) ==>
              exists k :: k in Keys(previous) && k !in Keys(current)
                          && e == ResolvedEvent(Get(previous, k).value, scanTime)
  {
    ResolvedEventsMembers(Keys(current), previous, scanTime);
    forall e | e in ResolvedEvents(Keys(current), previous, scanTime)
      ensures exists k :: k in Keys(previous) && k !in Keys(current)
                          && e == ResolvedEvent(Get(previous, k).value, scanTime)
    {
      var i :| 0 <= i < |previous| && previous[i].0 !in Keys(current) && e == ResolvedEvent(previous[i].1, scanTime);
      assert Get(previous, previous[i].0) == Some(previous[i].1);
    }
  }

  /** Every new event is the "empty" event of a tray that appeared or the "filled" event of one that disappeared. */
  lemma NoOtherEvents(previous: Dict<TrayItem>, current: Dict<TrayItem>, scanTime: string)
    requires Valid(previous) && Valid(current)
    ensures forall e :: e in NewEvents(previous, current, scanTime) ==>
              || (exists k :: k in Keys(current) && k !in Keys(previous)
                              && e == DetectedEvent(Get(current, k).value, scanTime))
              || (exists k :: k in Keys(previous) && k !in Keys(current)
                              && e == ResolvedEvent(Get(previous, k).value, scanTime))
  {
    NewEventsAreLifecycle(previous, current, scanTime);
    DetectedEventsAreNewTrays(previous, current, scanTime);
    ResolvedEventsAreGoneTrays(previous, current, scanTime);
  }

  datatype Reconciled = Reconciled(doc: StateDoc, newEmpties: nat, newFilled: nat)

  /**
   * `reconcile`: the open trays become exactly the current ones, stamped;
   * the newly empty and the no longer empty trays are counted and their
   * events appended; the scan time is recorded and the history trimmed.
   */
  function Reconcile(doc: StateDoc, current: Dict<TrayItem>, scanTime: string): (r: Reconciled)
    requires Valid(doc.openTrays) && Valid(current)
    ensures Valid(r.doc.openTrays)
    ensures Keys(r.doc.openTrays) == Keys(current)
    ensures KeySeq(r.doc.openTrays) == KeySeq(current)
    ensures r.doc.openTrays == StampedEntries(doc.openTrays, current, scanTime)
    ensures forall k :: k in Keys(current) ==>
              Get(r.doc.openTrays, k) == Some(Stamped(doc.openTrays, Get(current, k).value, k, scanTime))
    ensures r.newEmpties == |Keys(current) - Keys(doc.openTrays)|
    ensures r.newFilled == |Keys(doc.openTrays) - Keys(current)|
    ensures r.doc.lastScanAt == scanTime
    ensures r.doc.events == TrimEvents(doc.events + NewEvents(doc.openTrays, current, scanTime))
  {
    var previous := doc.openTrays;
    var firstPass := OpenPass(previous, current, |current|, scanTime);
    var filled := FilledPass(previous, current, |previous|, scanTime);
    assert current[..|current|] == current;
    assert previous[..|previous|] == previous;
    forall k | k in Keys(current)
      ensures Get(firstPass.open, k) == Some(Stamped(previous, Get(current, k).value, k, scanTime))
    {
      var i :| 0 <= i < |current| && current[i].0 == k;
    }
    OpenPassCount(previous, current, |current|, scanTime);
    OpenPassKeySeq(previous, current, |current|, scanTime);
    OpenPassOpen(previous, current, |current|, scanTime);
    var events := TrimEvents(doc.events + NewEvents(previous, current, scanTime));
    Reconciled(StateDoc(firstPass.open, events, scanTime), |firstPass.events|, |filled|)
  }

  /** From an empty state every current tray is new and nothing is filled. */
  lemma ReconcileFromEmpty(current: Dict<TrayItem>, scanTime: string)
    requires Valid(current)
    ensures Reconcile(EmptyState, current, scanTime).newEmpties == |Keys(current)|
    ensures Reconcile(EmptyState, current, scanTime).newFilled == 0
  {
    assert Keys(EmptyState.openTrays) == {};
  }

  /**
   * Reconciling a second time with the same trays reports nothing new and
   * appends no event.
   */
  lemma ReconcileAgainAddsNothing(doc: StateDoc, current: Dict<TrayItem>, again: Dict<TrayItem>,
                                  scanTime: string, laterTime: string)
    requires Valid(doc.openTrays) && Valid(current) && Valid(again)
    requires Keys(again) == Keys(current)
    ensures var first := Reconcile(doc, current, scanTime).doc;
            var second := Reconcile(first, again, laterTime);
            && second.newEmpties == 0 && second.newFilled == 0
            && second.doc.events == first.events
  {
    var first := Reconcile(doc, current, scanTime).doc;
    ReconcileSameKeys(first, again, laterTime);
  }

  /** Reconciling against exactly the open keys counts nothing and appends nothing. */
  lemma ReconcileSameKeys(doc: StateDoc, current: Dict<TrayItem>, scanTime: string)
    requires Valid(doc.openTrays) && Valid(current)
    requires Keys(current) == Keys(doc.openTrays) && |doc.events| <= MaxEvents
    ensures var r := Reconcile(doc, current, scanTime);
            r.newEmpties == 0 && r.newFilled == 0 && r.doc.events == doc.events
  {
    var previous := doc.openTrays;
    assert Keys(current) - Keys(previous) == {};
    assert Keys(previous) - Keys(current) == {};
    NewEventsShape(previous, current, scanTime);
    assert NewEvents(previous, current, scanTime) == [];
    assert doc.events + [] == doc.events;
  }

  /** After a reconcile every open tray has a `since` time. */
  lemma ReconcileStampsSince(doc: StateDoc, current: Dict<TrayItem>, scanTime: string)
    requires Valid(doc.openTrays) && Valid(current)
    ensures var open := Reconcile(doc, current, scanTime).doc.openTrays;
            forall k :: k in Keys(open) ==> Get(open, k).value.since.Some?
  {
  }

  /** A tray that stays open keeps its `since` time when it has one. */
  lemma ReconcileKeepsSince(doc: StateDoc, current: Dict<TrayItem>, scanTime: string)
    requires Valid(doc.openTrays) && Valid(current)
    ensures var open := Reconcile(doc, current, scanTime).doc.openTrays;
            forall k :: k in Keys(current) && k in Keys(doc.openTrays)
                        && Get(doc.openTrays, k).value.since.Some? ==>
              Get(open, k).value.since == Get(doc.openTrays, k).value.since
  {
  }

  /** Reconciling a second time with the same trays keeps every tray's `since` time. */
  lemma ReconcileAgainKeepsSince(doc: StateDoc, current: Dict<TrayItem>, again: Dict<TrayItem>,
                                 scanTime: string, laterTime: string)
    requires Valid(doc.openTrays) && Valid(current) && Valid(again)
    requires Keys(again) == Keys(current)
    ensures var first := Reconcile(doc, current, scanTime).doc;
            var second := Reconcile(first, again, laterTime).doc;
            forall k :: k in Keys(current) ==>
              Get(second.openTrays, k).value.since == Get(first.openTrays, k).value.since
  {
    ReconcileStampsSince(doc, current, scanTime);
    ReconcileKeepsSince(Reconcile(doc, current, scanTime).doc, again, laterTime);
  }

  // ---------------------------------------------------------------------------
  // manual_mark_filled

  datatype Marked = Marked(doc: StateDoc, found: bool)

  /**
   * `manual_mark_filled`: an open tray is closed with a "filled" event stamped
   * with the given time; an unknown key changes nothing.
   */
  function ManualMarkFilled(doc: StateDoc, key: string, timestamp: string): (m: Marked)
    requires Valid(doc.openTrays)
    ensures m.found <==> key in Keys(doc.openTrays)
    ensures !m.found ==> m.doc == doc
    ensures m.found ==>
              && Valid(m.doc.openTrays)
              && Keys(m.doc.openTrays) == Keys(doc.openTrays) - {key}
              && (exists i :: 0 <= i < |doc.openTrays| && doc.openTrays[i].0 == key
                              && m.doc.openTrays == doc.openTrays[..i] + doc.openTrays[i + 1..])
              && (forall k :: k != key ==> Get(m.doc.openTrays, k) == Get(doc.openTrays, k))
              && m.doc.lastScanAt == timestamp
              && |m.doc.events| >= 1
              && var e := m.doc.events[|m.doc.events| - 1];
                 var item := Get(doc.openTrays, key).value;
                 && e.eventType == FilledType && e.note == ManualNote && e.timestamp == timestamp
                 && e.lastSeen == timestamp && e.printerId == item.printerId && e.tray == item.tray
                 && e.emptySince == item.since.GetOr("")
    ensures m.found ==>
              var item := Get(doc.openTrays, key).value;
              var e := EventFor(timestamp, FilledType, item.(lastSeen := Some(timestamp)), ManualNote);
              m.doc.events == TrimEvents(doc.events + [e])
    ensures m.found && |doc.events| < MaxEvents ==>
              |m.doc.events| == |doc.events| + 1 && m.doc.events[..|doc.events|] == doc.events
  {
    match Get(doc.openTrays, key)
    case None => Marked(doc, false)
    case Some(item) =>
      var e := EventFor(timestamp, FilledType, item.(lastSeen := Some(timestamp)), ManualNote);
      var events := TrimEvents(doc.events + [e]);
      Marked(StateDoc(Remove(doc.openTrays, key), events, timestamp), true)
  }

  /**
   * With the history full, marking a tray filled drops the oldest event: the
   * log stays at `MaxEvents` entries and ends with the new one.
   */
  lemma ManualMarkFilledDropsOldest(doc: StateDoc, key: string, timestamp: string)
    requires Valid(doc.openTrays) && key in Keys(doc.openTrays) && |doc.events| >= MaxEvents
    ensures var events := ManualMarkFilled(doc, key, timestamp).doc.events;
            && |events| == MaxEvents
            && events[..MaxEvents - 1] == doc.events[|doc.events| - MaxEvents + 1..]
            && events[MaxEvents - 1].eventType == FilledType
            && events[MaxEvents - 1].note == ManualNote
  {
    var m := ManualMarkFilled(doc, key, timestamp);
    var item := Get(doc.openTrays, key).value;
    var e := EventFor(timestamp, FilledType, item.(lastSeen := Some(timestamp)), ManualNote);
    var all := doc.events + [e];
    assert m.doc.events == all[|all| - MaxEvents..];
    assert m.doc.events[..MaxEvents - 1] == all[|all| - MaxEvents..|all| - 1];
    assert all[..|all| - 1] == doc.events;
  }

  /** A tray marked filled by hand is not reported filled again by the next scan that misses it. */
  lemma ManualFillNotRepeated(doc: StateDoc, key: string, timestamp: string,
                              current: Dict<TrayItem>, scanTime: string)
    requires Valid(doc.openTrays) && Valid(current)
    requires key in Keys(doc.openTrays) && key !in Keys(current)
    ensures var marked := ManualMarkFilled(doc, key, timestamp).doc;
            Reconcile(marked, current, scanTime).newFilled
              == Reconcile(doc, current, scanTime).newFilled - 1
  {
    var marked := ManualMarkFilled(doc, key, timestamp).doc;
    var before := Keys(doc.openTrays) - Keys(current);
    var after := Keys(marked.openTrays) - Keys(current);
    assert after == before - {key};
    assert before == after + {key} && key !in after;
    assert Reconcile(marked, current, scanTime).newFilled == |after|;
    assert Reconcile(doc, current, scanTime).newFilled == |before|;
  }
}
