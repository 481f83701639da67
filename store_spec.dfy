/** The four relations of AdvancedLicensePlateDB (database_manager.py) as
    one value, and what each store operation does to that value.  Every
    table keeps an AUTOINCREMENT counter: a new row takes the counter as
    its id, and ids are never reused. */
module StoreSpec {
  import opened Records

  datatype Store = Store(
    events: map<nat, Event>, nextEvent: nat,
    watchlist: map<nat, WatchEntry>, nextWatch: nat,
    alerts: map<nat, Alert>, nextAlert: nat,
    deleted: map<nat, Tombstone>, nextDeleted: nat)

  /** The UNIQUE constraint on watchlist.plate_number. */
  ghost predicate UniqueWatchPlates(wl: map<nat, WatchEntry>) {
    forall i, j :: i in wl && j in wl && wl[i].plate == wl[j].plate ==> i == j
  }

  ghost predicate Valid(s: Store) {
    && (forall k :: k in s.events ==> k < s.nextEvent)
    && (forall k :: k in s.watchlist ==> k < s.nextWatch)
    && (forall k :: k in s.alerts ==> k < s.nextAlert)
    && (forall k :: k in s.deleted ==> k < s.nextDeleted)
    && UniqueWatchPlates(s.watchlist)
  }

  function Empty(): Store {
    Store(map[], 1, map[], 1, map[], 1, map[], 1)
  }

  // ---------------------------------------------------------------- watchlist

  /** Row k answers SELECT * FROM watchlist WHERE plate_number = ? AND active = 1. */
  predicate IsActiveEntry(wl: map<nat, WatchEntry>, plate: string, k: nat) {
    k in wl && wl[k].plate == plate && wl[k].active
  }

  /** The id of the active entry for a plate, if any. */
  ghost function ActiveEntryId(wl: map<nat, WatchEntry>, plate: string): Option<nat> {
    if exists k :: IsActiveEntry(wl, plate, k) then
      Some(var k :| IsActiveEntry(wl, plate, k); k)
    else None
  }

  /** Under the UNIQUE constraint the active entry is determined. */
  lemma ActiveEntryIdIs(wl: map<nat, WatchEntry>, plate: string, k: nat)
    requires UniqueWatchPlates(wl) && IsActiveEntry(wl, plate, k)
    ensures ActiveEntryId(wl, plate) == Some(k)
  {
  }

  /** Some row of the watchlist, active or not, carries the plate. */
  predicate Listed(wl: map<nat, WatchEntry>, plate: string) {
    exists k :: k in wl && wl[k].plate == plate
  }

  ghost function ListedPlates(wl: map<nat, WatchEntry>): set<string> {
    set k | k in wl :: wl[k].plate
  }

  function NewWatchEntry(plate: string, reason: string, alertType: string, now: Timestamp): WatchEntry {
    WatchEntry(plate, reason, alertType, now, None, 0, true)
  }

  /** add_to_watchlist: the INSERT fails on the UNIQUE constraint when the
      plate is already listed, and then nothing changes. */
  ghost function AddWatchSpec(s: Store, plate: string, reason: string, alertType: string, now: Timestamp): Store {
    if Listed(s.watchlist, plate) then s
    else s.(watchlist := s.watchlist[s.nextWatch := NewWatchEntry(plate, reason, alertType, now)],
            nextWatch := s.nextWatch + 1)
  }

  /** remove_from_watchlist: DELETE FROM watchlist WHERE plate_number = ?. */
  ghost function RemoveWatchSpec(s: Store, plate: string): Store {
    s.(watchlist := map k | k in s.watchlist && s.watchlist[k].plate != plate :: s.watchlist[k])
  }

  // --------------------------------------------------------------- save_plate

  const WATCH_ALERT_PREFIX: string := "Phát hiện biển số trong danh sách theo dõi: "

  function WatchAlert(plate: string, now: Timestamp, entry: WatchEntry): Alert {
    Alert(plate, now, entry.alertType, WATCH_ALERT_PREFIX + entry.reason, false)
  }

  function Sighted(entry: WatchEntry, now: Timestamp): WatchEntry {
    entry.(lastSeen := Some(now), detectionCount := entry.detectionCount + 1)
  }

  /** save_plate: insert the event; when the plate has an active watchlist
      entry, also insert an alert, update the entry's statistics and mark
      the event alert_triggered. */
  ghost function SaveSpec(s: Store, plate: string, frame: int, confidence: real,
                          imagePath: Option<string>, source: string, now: Timestamp): Store
  {
    var id := s.nextEvent;
    match ActiveEntryId(s.watchlist, plate)
    case None =>
      s.(events := s.events[id := Event(plate, now, frame, confidence, imagePath, source, false, false)],
         nextEvent := id + 1)
    case Some(w) =>
      var entry := s.watchlist[w];
      s.(events := s.events[id := Event(plate, now, frame, confidence, imagePath, source, true, true)],
         nextEvent := id + 1,
         alerts := s.alerts[s.nextAlert := WatchAlert(plate, now, entry)],
         nextAlert := s.nextAlert + 1,
         watchlist := s.watchlist[w := Sighted(entry, now)])
  }

  // -------------------------------------------------------- delete and restore

  /** delete_plate: copy id, plate and timestamp into deleted_plates, then
      remove the row; an absent id changes nothing. */
  ghost function DeleteSpec(s: Store, id: nat, reason: string, now: Timestamp): Store {
    if id !in s.events then s
    else
      var e := s.events[id];
      s.(deleted := s.deleted[s.nextDeleted := Tombstone(id, e.plate, e.timestamp, now, reason)],
         nextDeleted := s.nextDeleted + 1,
         events := s.events - {id})
  }

  /** The row restore_deleted_plate re-inserts: the original plate and
      timestamp with frame 0, confidence 0.0, no image and source 'restored'. */
  function RestoredEvent(t: Tombstone): Event {
    Event(t.plate, t.timestamp, 0, 0.0, None, "restored", false, false)
  }

  ghost function RestoreSpec(s: Store, tid: nat): Store {
    if tid !in s.deleted then s
    else s.(events := s.events[s.nextEvent := RestoredEvent(s.deleted[tid])],
            nextEvent := s.nextEvent + 1,
            deleted := s.deleted - {tid})
  }

  // ------------------------------------------------------------ bulk deletion

  /** Row k is the one `ORDER BY timestamp DESC LIMIT 1` keeps for plate;
      among rows with the same greatest timestamp the model keeps the
      largest id. */
  predicate IsLatest(ev: map<nat, Event>, plate: string, k: nat) {
    k in ev && ev[k].plate == plate &&
    forall j :: j in ev && ev[j].plate == plate ==> Precedes(ev, j, k)
  }

  /** Row j is not later than row k: an earlier timestamp, or the same
      timestamp and an id no larger. */
  predicate Precedes(ev: map<nat, Event>, j: nat, k: nat)
    requires j in ev && k in ev
  {
    ev[j].timestamp < ev[k].timestamp || (ev[j].timestamp == ev[k].timestamp && j <= k)
  }

  lemma {:induction false} GreatestIn(ev: map<nat, Event>, ks: set<nat>)
    requires ks != {} && ks <= ev.Keys
    ensures exists k :: k in ks && forall j :: j in ks ==> Precedes(ev, j, k)
    decreases ks
  {
    var k0 :| k0 in ks;
    var rest := ks - {k0};
    if rest == {} {
      assert ks == {k0};
      assert forall j :: j in ks ==> Precedes(ev, j, k0);
    } else {
      GreatestIn(ev, rest);
      var k1 :| k1 in rest && forall j :: j in rest ==> Precedes(ev, j, k1);
      if Precedes(ev, k0, k1) {
        assert forall j :: j in ks ==> Precedes(ev, j, k1);
      } else {
        forall j | j in ks ensures Precedes(ev, j, k0) {
          if j != k0 {
            assert Precedes(ev, j, k1);
          }
        }
      }
    }
  }

  /** Every plate that has rows has a latest row. */
  lemma LatestExists(ev: map<nat, Event>, plate: string)
    requires plate in Plates(ev)
    ensures exists k :: IsLatest(ev, plate, k)
  {
    var ks := PlateIds(ev, plate);
    var some :| some in ev && ev[some].plate == plate;
    assert some in ks;
    GreatestIn(ev, ks);
    var k :| k in ks && forall j :: j in ks ==> Precedes(ev, j, k);
    forall j | j in ev && ev[j].plate == plate ensures Precedes(ev, j, k) {
      assert j in ks;
    }
    assert IsLatest(ev, plate, k);
  }

  ghost function LatestId(ev: map<nat, Event>, plate: string): (k: nat)
    requires plate in Plates(ev)
    ensures IsLatest(ev, plate, k)
  {
    LatestExists(ev, plate);
    var k :| IsLatest(ev, plate, k); k
  }

  /** delete_by_plate_number: with keep_latest every row of the plate but
      the latest goes, without it every row of the plate goes. */
  ghost function DeleteByPlateSpec(s: Store, plate: string, keepLatest: bool): Store {
    if keepLatest && plate in Plates(s.events) then
      var keep := LatestId(s.events, plate);
      s.(events := map k | k in s.events && (s.events[k].plate != plate || k == keep) :: s.events[k])
    else
      s.(events := map k | k in s.events && s.events[k].plate != plate :: s.events[k])
  }

  /** The timestamp before which delete_old_records removes rows. */
  function Cutoff(now: Timestamp, days: int): Timestamp {
    now - days * SECONDS_PER_DAY
  }

  /** delete_old_records: DELETE ... WHERE timestamp < now - days.  The
      modifier is built as '-' || days || ' days', so a negative count
      gives '--N days', which SQLite cannot parse: the cutoff is NULL, the
      comparison matches no row, and nothing is deleted. */
  ghost function DeleteOldSpec(s: Store, days: int, now: Timestamp): Store {
    if days < 0 then s
    else s.(events := map k | k in s.events && s.events[k].timestamp >= Cutoff(now, days) :: s.events[k])
  }

  /** bulk_delete_by_confidence: DELETE ... WHERE confidence < min_confidence. */
  ghost function DeleteLowConfidenceSpec(s: Store, minConfidence: real): Store {
    s.(events := map k | k in s.events && s.events[k].confidence >= minConfidence :: s.events[k])
  }

  // ------------------------------------------------------------------- alerts

  /** resolve_alert: UPDATE alerts SET resolved = 1 WHERE id = ?. */
  ghost function ResolveAlertSpec(s: Store, id: nat): Store {
    if id in s.alerts then s.(alerts := s.alerts[id := s.alerts[id].(resolved := true)]) else s
  }
}
