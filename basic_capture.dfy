/** main_with_database.py: the plain store LicensePlateDB (one table,
    no watchlist) and the capture loop's save path through the cooldown
    gate. */
module BasicCapture {
  import opened Records
  import opened Cooldown

  /** A row of the plain detected_plates table. */
  datatype Detection = Detection(
    plate: string, timestamp: Timestamp, frame: int, confidence: real,
    imagePath: Option<string>, source: string)

  /** LicensePlateDB: the rows by id and the AUTOINCREMENT counter. */
  class LicensePlateDB {
    var rows: map<nat, Detection>
    var nextId: nat

    /** Every id handed out so far lies below the counter. */
    ghost predicate Valid()
      reads this
    {
      forall k :: k in rows ==> k < nextId
    }

    /** init_database on a fresh file. */
    constructor ()
      ensures Valid() && rows == map[] && nextId == 1
    {
      rows := map[];
      nextId := 1;
    }

    /** save_plate: INSERT one row and return its lastrowid. */
    method SavePlate(plate: string, frame: int, confidence: real, imagePath: Option<string>,
                     source: string, now: Timestamp) returns (id: nat)
      requires Valid()
      modifies this
      ensures Valid()
      ensures id !in old(rows) && id == old(nextId)
      ensures rows == old(rows)[id := Detection(plate, now, frame, confidence, imagePath, source)]
      ensures |rows| == |old(rows)| + 1
      ensures nextId == old(nextId) + 1
    {
      id := nextId;
      rows := rows[id := Detection(plate, now, frame, confidence, imagePath, source)];
      nextId := nextId + 1;
    }

    /** get_total_count: SELECT COUNT(*). */
    method GetTotalCount() returns (count: nat)
      ensures count == |rows|
    {
      count := |rows|;
    }
  }

  /** The state the capture loop keeps: the store and the gate. */
  class BasicLoop {
    const db: LicensePlateDB
    const gate: DedupGate

    constructor ()
      ensures fresh(db) && fresh(gate)
      ensures db.Valid() && db.rows == map[] && gate.frameCount == 0 && gate.history == map[]
    {
      db := new LicensePlateDB();
      gate := new DedupGate();
    }

    /** A plate read in the current frame: saved and recorded in the
        history when the gate admits it, otherwise nothing changes. */
    method HandleReading(lp: string, confidence: real, imagePath: Option<string>,
                         source: string, now: Timestamp) returns (id: Option<nat>)
      requires db.Valid()
      modifies db, gate
      ensures db.Valid()
      ensures gate.frameCount == old(gate.frameCount)
      ensures id.Some? == ShouldSave(old(gate.history), lp, gate.frameCount)
      ensures gate.history == Step(old(gate.history), lp, gate.frameCount)
      ensures id.Some? ==>
                && id.value !in old(db.rows)
                && db.rows == old(db.rows)[id.value := Detection(lp, now, gate.frameCount, confidence, imagePath, source)]
                && id.value == old(db.nextId) && db.nextId == old(db.nextId) + 1
      ensures id.None? ==> db.rows == old(db.rows) && db.nextId == old(db.nextId)
    {
      var save := gate.Accept(lp);
      if save {
        var newId := db.SavePlate(lp, gate.frameCount, confidence, imagePath, source, now);
        id := Some(newId);
      } else {
        id := None;
      }
    }
  }

  /** Saving one row and then counting: the count is one greater. */
  method SaveThenCount(db: LicensePlateDB, plate: string, frame: int, confidence: real,
                       imagePath: Option<string>, source: string, now: Timestamp)
    returns (before: nat, id: nat, after: nat)
    requires db.Valid()
    modifies db
    ensures after == before + 1
    ensures id !in old(db.rows) && id in db.rows && db.rows[id].plate == plate
  {
    before := db.GetTotalCount();
    id := db.SavePlate(plate, frame, confidence, imagePath, source, now);
    after := db.GetTotalCount();
  }
}
