/** What the store operations of database_manager.py guarantee: count
    deltas, the rows they touch, the rows they leave alone, the error cases
    that change nothing, and how operations compose. */
module StoreProperties {
  import opened Records
  import opened StoreSpec

  /** The ids of the watchlist rows for a plate. */
  ghost function WatchIdsOf(wl: map<nat, WatchEntry>, plate: string): set<nat> {
    set k | k in wl && wl[k].plate == plate
  }

  // ------------------------------------------------------------- save_plate

  /** A watched plate: one new event flagged is_watchlist and
      alert_triggered, one new alert for that plate, and the entry's
      detection_count up by one with last_seen set; nothing else changes. */
  lemma SaveWatched(s: Store, plate: string, frame: int, confidence: real,
                    imagePath: Option<string>, source: string, now: Timestamp, w: nat)
    requires Valid(s) && IsActiveEntry(s.watchlist, plate, w)
    ensures var s' := SaveSpec(s, plate, frame, confidence, imagePath, source, now);
      && Valid(s')
      && s.nextEvent !in s.events
      && s'.events == s.events[s.nextEvent := Event(plate, now, frame, confidence, imagePath, source, true, true)]
      && |s'.events| == |s.events| + 1
      && s.nextAlert !in s.alerts
      && s'.alerts == s.alerts[s.nextAlert := WatchAlert(plate, now, s.watchlist[w])]
      && |s'.alerts| == |s.alerts| + 1
      && s'.watchlist.Keys == s.watchlist.Keys
      && s'.watchlist[w].detectionCount == s.watchlist[w].detectionCount + 1
      && s'.watchlist[w].lastSeen == Some(now)
      && (forall k :: k in s.watchlist && k != w ==> s'.watchlist[k] == s.watchlist[k])
      && s'.deleted == s.deleted
  {
    ActiveEntryIdIs(s.watchlist, plate, w);
  }

  /** SaveSpec for a watched plate, table by table. */
  lemma SaveSpecWatched(s: Store, plate: string, frame: int, confidence: real,
                        imagePath: Option<string>, source: string, now: Timestamp, w: nat)
    requires UniqueWatchPlates(s.watchlist) && IsActiveEntry(s.watchlist, plate, w)
    ensures SaveSpec(s, plate, frame, confidence, imagePath, source, now) ==
      Store(s.events[s.nextEvent := Event(plate, now, frame, confidence, imagePath, source, true, true)],
            s.nextEvent + 1,
            s.watchlist[w := Sighted(s.watchlist[w], now)], s.nextWatch,
            s.alerts[s.nextAlert := WatchAlert(plate, now, s.watchlist[w])], s.nextAlert + 1,
            s.deleted, s.nextDeleted)
  {
    ActiveEntryIdIs(s.watchlist, plate, w);
  }

  /** A plate without an active entry: one new unflagged event, and no
      alert or watchlist change. */
  lemma SaveUnwatched(s: Store, plate: string, frame: int, confidence: real,
                      imagePath: Option<string>, source: string, now: Timestamp)
    requires Valid(s) && forall k :: !IsActiveEntry(s.watchlist, plate, k)
    ensures var s' := SaveSpec(s, plate, frame, confidence, imagePath, source, now);
      && Valid(s')
      && s'.events == s.events[s.nextEvent := Event(plate, now, frame, confidence, imagePath, source, false, false)]
      && |s'.events| == |s.events| + 1
      && s'.alerts == s.alerts && s'.watchlist == s.watchlist && s'.deleted == s.deleted
  {
    assert s.nextEvent !in s.events;
  }

  lemma SavePreservesValid(s: Store, plate: string, frame: int, confidence: real,
                           imagePath: Option<string>, source: string, now: Timestamp)
    requires Valid(s)
    ensures Valid(SaveSpec(s, plate, frame, confidence, imagePath, source, now))
  {
    if exists w :: IsActiveEntry(s.watchlist, plate, w) {
      var w :| IsActiveEntry(s.watchlist, plate, w);
      SaveWatched(s, plate, frame, confidence, imagePath, source, now, w);
    } else {
      SaveUnwatched(s, plate, frame, confidence, imagePath, source, now);
    }
  }

  // -------------------------------------------------------------- watchlist

  /** add_to_watchlist: a listed plate is refused and changes nothing;
      otherwise exactly one active entry with a zero detection count is added. */
  lemma AddWatchEffects(s: Store, plate: string, reason: string, alertType: string, now: Timestamp)
    requires Valid(s)
    ensures var s' := AddWatchSpec(s, plate, reason, alertType, now);
      && Valid(s')
      && (Listed(s.watchlist, plate) ==> s' == s)
      && (!Listed(s.watchlist, plate) ==>
            && s.nextWatch !in s.watchlist
            && s'.watchlist == s.watchlist[s.nextWatch := NewWatchEntry(plate, reason, alertType, now)]
            && |s'.watchlist| == |s.watchlist| + 1
            && s'.events == s.events && s'.alerts == s.alerts && s'.deleted == s.deleted)
  {
    if !Listed(s.watchlist, plate) {
      var s' := AddWatchSpec(s, plate, reason, alertType, now);
      assert s.nextWatch !in s.watchlist;
      forall i, j | i in s'.watchlist && j in s'.watchlist && s'.watchlist[i].plate == s'.watchlist[j].plate
        ensures i == j
      {
        if i != s.nextWatch && j != s.nextWatch {
          assert s.watchlist[i].plate == s.watchlist[j].plate;
        }
      }
    }
  }

  /** Adding the same plate twice: the second add is refused and exactly
      one entry for the plate exists. */
  lemma {:induction false} AddTwiceRejected(s: Store, plate: string, r1: string, t1: string, n1: Timestamp,
                                            r2: string, t2: string, n2: Timestamp)
    requires Valid(s)
    ensures var s1 := AddWatchSpec(s, plate, r1, t1, n1);
      && AddWatchSpec(s1, plate, r2, t2, n2) == s1
      && |WatchIdsOf(s1.watchlist, plate)| == 1
  {
    var s1 := AddWatchSpec(s, plate, r1, t1, n1);
    AddWatchEffects(s, plate, r1, t1, n1);
    var k: nat;
    if Listed(s.watchlist, plate) {
      k :| k in s.watchlist && s.watchlist[k].plate == plate;
    } else {
      k := s.nextWatch;
    }
    assert k in s1.watchlist && s1.watchlist[k].plate == plate;
    SingleWatchId(s1.watchlist, plate, k);
  }

  /** Under the UNIQUE constraint a listed plate has exactly one row. */
  lemma SingleWatchId(wl: map<nat, WatchEntry>, plate: string, k: nat)
    requires UniqueWatchPlates(wl) && k in wl && wl[k].plate == plate
    ensures WatchIdsOf(wl, plate) == {k}
  {
  }

  /** remove_from_watchlist reports whether the plate was listed, leaves it
      unlisted, keeps every other entry, and adds none. */
  lemma RemoveWatchEffects(s: Store, plate: string)
    requires Valid(s)
    ensures var s' := RemoveWatchSpec(s, plate);
      && Valid(s')
      && !Listed(s'.watchlist, plate)
      && (Listed(s.watchlist, plate) <==> |s'.watchlist| < |s.watchlist|)
      && (forall k :: k in s.watchlist && s.watchlist[k].plate != plate ==> k in s'.watchlist && s'.watchlist[k] == s.watchlist[k])
      && (forall k :: k in s'.watchlist ==> k in s.watchlist && s'.watchlist[k] == s.watchlist[k])
      && s'.events == s.events && s'.alerts == s.alerts && s'.deleted == s.deleted
  {
    var wl := s.watchlist;
    var wl' := RemoveWatchSpec(s, plate).watchlist;
    if Listed(wl, plate) {
      var k :| k in wl && wl[k].plate == plate;
      RemovedShrinks(wl, wl', k);
    } else {
      assert wl' == wl;
    }
  }

  lemma RemovedShrinks(wl: map<nat, WatchEntry>, wl': map<nat, WatchEntry>, k: nat)
    requires wl'.Keys <= wl.Keys && k in wl && k !in wl'
    ensures |wl'| < |wl|
  {
    SubsetCard(wl'.Keys, wl.Keys - {k});
  }

  lemma {:induction false} SubsetCard<T>(a: set<T>, b: set<T>)
    requires a <= b
    ensures |a| <= |b|
    decreases b
  {
    if a != {} {
      var x :| x in a;
      SubsetCard(a - {x}, b - {x});
    }
  }

  /** Removing a plate that was just added restores the watchlist. */
  lemma AddThenRemove(s: Store, plate: string, reason: string, alertType: string, now: Timestamp)
    requires Valid(s) && !Listed(s.watchlist, plate)
    ensures RemoveWatchSpec(AddWatchSpec(s, plate, reason, alertType, now), plate).watchlist == s.watchlist
  {
    var s1 := AddWatchSpec(s, plate, reason, alertType, now);
    var s2 := RemoveWatchSpec(s1, plate);
    assert s.nextWatch !in s.watchlist;
    forall k | k in s.watchlist ensures k in s2.watchlist && s2.watchlist[k] == s.watchlist[k] {
      assert s.watchlist[k].plate != plate;
    }
  }

  // ------------------------------------------------------ delete and restore

  /** delete_plate: an absent id changes nothing; a present id becomes one
      tombstone carrying its id, plate and timestamp, and exactly that row
      leaves the event table. */
  lemma DeleteEffects(s: Store, id: nat, reason: string, now: Timestamp)
    requires Valid(s)
    ensures var s' := DeleteSpec(s, id, reason, now);
      && Valid(s')
      && (id !in s.events ==> s' == s)
      && (id in s.events ==>
            && s.nextDeleted !in s.deleted
            && s'.deleted == s.deleted[s.nextDeleted :=
                 Tombstone(id, s.events[id].plate, s.events[id].timestamp, now, reason)]
            && |s'.deleted| == |s.deleted| + 1
            && s'.events == s.events - {id}
            && |s'.events| == |s.events| - 1
            && s'.watchlist == s.watchlist && s'.alerts == s.alerts)
  {
    if id in s.events {
      assert s.nextDeleted !in s.deleted;
      assert s.events.Keys - {id} == (s.events - {id}).Keys;
    }
  }

  /** restore_deleted_plate: an absent tombstone changes nothing; a present
      one becomes one new event with the sentinel values and is consumed. */
  lemma RestoreEffects(s: Store, tid: nat)
    requires Valid(s)
    ensures var s' := RestoreSpec(s, tid);
      && Valid(s')
      && (tid !in s.deleted ==> s' == s)
      && (tid in s.deleted ==>
            && s.nextEvent !in s.events
            && s'.events == s.events[s.nextEvent := RestoredEvent(s.deleted[tid])]
            && |s'.events| == |s.events| + 1
            && s'.deleted == s.deleted - {tid}
            && |s'.deleted| == |s.deleted| - 1
            && s'.watchlist == s.watchlist && s'.alerts == s.alerts)
  {
    if tid in s.deleted {
      assert s.nextEvent !in s.events;
      assert s.deleted.Keys - {tid} == (s.deleted - {tid}).Keys;
    }
  }

  /** Deleting an event and restoring its tombstone gives back as many
      events as before: the original row is replaced by one row under a
      new id with the same plate and timestamp, frame 0, confidence 0.0,
      source 'restored', and the tombstone table is as it was. */
  lemma {:induction false} DeleteThenRestore(s: Store, id: nat, reason: string, now: Timestamp)
    requires Valid(s) && id in s.events
    ensures var s2 := RestoreSpec(DeleteSpec(s, id, reason, now), s.nextDeleted);
      && Valid(s2)
      && s2.deleted == s.deleted
      && |s2.events| == |s.events|
      && s.nextEvent != id
      && s2.events == (s.events - {id})[s.nextEvent :=
           Event(s.events[id].plate, s.events[id].timestamp, 0, 0.0, None, "restored", false, false)]
  {
    var s1 := DeleteSpec(s, id, reason, now);
    DeleteEffects(s, id, reason, now);
    RestoreEffects(s1, s.nextDeleted);
    assert s.nextDeleted !in s.deleted;
    assert s1.deleted - {s.nextDeleted} == s.deleted;
  }

  /** delete_by_plate_number: with keep_latest exactly one row of the plate
      remains when any existed, and it has the greatest timestamp; without
      it none remains.  Rows of other plates are kept as they were and no
      tombstone is written. */
  lemma {:induction false} DeleteByPlateEffects(s: Store, plate: string, keepLatest: bool)
    requires Valid(s)
    ensures var s' := DeleteByPlateSpec(s, plate, keepLatest);
      && Valid(s')
      && s'.events.Keys <= s.events.Keys
      && (forall k :: k in s'.events ==> s'.events[k] == s.events[k])
      && (forall k :: k in s.events && s.events[k].plate != plate ==> k in s'.events)
      && (!keepLatest ==> plate !in Plates(s'.events))
      && (keepLatest && plate in Plates(s.events) ==>
            exists k :: PlateIds(s'.events, plate) == {k}
                     && forall j :: j in s.events && s.events[j].plate == plate ==>
                          s.events[j].timestamp <= s.events[k].timestamp)
      && (keepLatest && plate !in Plates(s.events) ==> s' == s)
      && s'.deleted == s.deleted && s'.watchlist == s.watchlist && s'.alerts == s.alerts
  {
    var s' := DeleteByPlateSpec(s, plate, keepLatest);
    if keepLatest && plate in Plates(s.events) {
      var k := LatestId(s.events, plate);
      assert PlateIds(s'.events, plate) == {k};
      forall j | j in s.events && s.events[j].plate == plate
        ensures s.events[j].timestamp <= s.events[k].timestamp
      {
        assert Precedes(s.events, j, k);
      }
    } else if keepLatest {
      forall k | k in s.events ensures s.events[k].plate != plate {
        assert s.events[k].plate in Plates(s.events);
      }
      assert s'.events == s.events;
    }
  }

  /** delete_old_records removes exactly the rows older than the cutoff;
      a negative day count removes nothing. */
  lemma DeleteOldEffects(s: Store, days: int, now: Timestamp)
    requires Valid(s)
    ensures var s' := DeleteOldSpec(s, days, now);
      && Valid(s')
      && (days < 0 ==> s' == s)
      && (days >= 0 ==> forall k :: k in s.events ==>
            (k in s'.events <==> s.events[k].timestamp >= now - days * SECONDS_PER_DAY))
      && (forall k :: k in s'.events ==> s'.events[k] == s.events[k])
      && s'.deleted == s.deleted && s'.watchlist == s.watchlist && s'.alerts == s.alerts
  {
  }

  /** bulk_delete_by_confidence removes exactly the rows below the threshold. */
  lemma DeleteLowConfidenceEffects(s: Store, minConfidence: real)
    requires Valid(s)
    ensures var s' := DeleteLowConfidenceSpec(s, minConfidence);
      && Valid(s')
      && (forall k :: k in s.events ==> (k in s'.events <==> s.events[k].confidence >= minConfidence))
      && (forall k :: k in s'.events ==> s'.events[k] == s.events[k])
      && s'.deleted == s.deleted && s'.watchlist == s.watchlist && s'.alerts == s.alerts
  {
  }

  /** resolve_alert marks that alert resolved and touches no other row; an
      absent id changes nothing. */
  lemma ResolveAlertEffects(s: Store, id: nat)
    requires Valid(s)
    ensures var s' := ResolveAlertSpec(s, id);
      && Valid(s')
      && s'.alerts.Keys == s.alerts.Keys
      && (id in s.alerts ==> s'.alerts[id] == s.alerts[id].(resolved := true))
      && (forall k :: k in s.alerts && k != id ==> s'.alerts[k] == s.alerts[k])
      && s'.events == s.events && s'.watchlist == s.watchlist && s'.deleted == s.deleted
  {
  }
}
