/** Records of the license-plate store: one datatype per table row of
    database_manager.py and main_with_database.py.  A table is a map from
    its INTEGER PRIMARY KEY to the rest of the row. */
module Records {

  datatype Option<T> = None | Some(value: T)

  /** A point in time, in whole seconds (the source stores
      'YYYY-MM-DD HH:MM:SS' text, whose text order is time order). */
  type Timestamp = int

  const SECONDS_PER_DAY: int := 86400

  /** The calendar day of a timestamp, as SQLite's DATE() yields it. */
  function Day(t: Timestamp): int {
    t / SECONDS_PER_DAY
  }

  /** A row of `detected_plates` in the advanced store. */
  datatype Event = Event(
    plate: string,
    timestamp: Timestamp,
    frame: int,
    confidence: real,
    imagePath: Option<string>,
    source: string,
    isWatchlist: bool,
    alertTriggered: bool)

  /** A row of `watchlist`. */
  datatype WatchEntry = WatchEntry(
    plate: string,
    reason: string,
    alertType: string,
    addedDate: Timestamp,
    lastSeen: Option<Timestamp>,
    detectionCount: nat,
    active: bool)

  /** A row of `alerts`. */
  datatype Alert = Alert(
    plate: string,
    timestamp: Timestamp,
    alertType: string,
    message: string,
    resolved: bool)

  /** A row of `deleted_plates`: the copy kept of a deleted event. */
  datatype Tombstone = Tombstone(
    originalId: nat,
    plate: string,
    timestamp: Timestamp,
    deletedDate: Timestamp,
    reason: string)

  /** The distinct plate texts of an event table (SELECT DISTINCT plate_number). */
  function Plates(events: map<nat, Event>): set<string> {
    set k | k in events :: events[k].plate
  }

  /** The ids of the rows of an event table that carry a given plate. */
  function PlateIds(events: map<nat, Event>, plate: string): set<nat> {
    set k | k in events && events[k].plate == plate
  }

  /** How many rows carry a plate (COUNT(*) ... GROUP BY plate_number). */
  function PlateCount(events: map<nat, Event>, plate: string): nat {
    |PlateIds(events, plate)|
  }
}
