/** main_advanced.py: the capture loop around AdvancedLicensePlateDB, the
    cooldown gate, the alert-banner table alert_frames, and the loading of
    a watchlist file at start-up. */
module AdvancedCapture {
  import opened Records
  import opened Text
  import opened StoreSpec
  import opened StoreProperties
  import opened PlateStore
  import opened Cooldown

  /** Frames an alert banner stays on screen. */
  const ALERT_DISPLAY_FRAMES: int := 100

  /** The reason and alert type given to plates loaded from a file. */
  const FILE_REASON: string := "Từ file watchlist"
  const FILE_ALERT_TYPE: string := "warning"

  // ------------------------------------------------------- watchlist file

  /** The store after loading the lines of a watchlist file from s: each
      line is stripped, blank ones are skipped, and every other one goes
      through add_to_watchlist. */
  ghost function LoadSpec(s: Store, lines: seq<string>, now: Timestamp): Store
    decreases |lines|
  {
    if lines == [] then s
    else
      var plate := Strip(lines[0]);
      LoadSpec(if plate == [] then s else AddWatchSpec(s, plate, FILE_REASON, FILE_ALERT_TYPE, now),
               lines[1..], now)
  }

  /** The plates named by the file: its non-blank lines, stripped. */
  ghost function FilePlates(lines: seq<string>): set<string> {
    set l | l in lines && Strip(l) != [] :: Strip(l)
  }

  /** The number of non-blank lines, each of which costs one call. */
  function NonBlankCount(lines: seq<string>): nat {
    if lines == [] then 0
    else (if Strip(lines[0]) == [] then 0 else 1) + NonBlankCount(lines[1..])
  }

  /** One add lists the plate and keeps every plate already listed. */
  lemma AddListsPlate(s: Store, plate: string, reason: string, alertType: string, now: Timestamp)
    requires Valid(s)
    ensures var s' := AddWatchSpec(s, plate, reason, alertType, now);
      && Valid(s')
      && ListedPlates(s'.watchlist) == ListedPlates(s.watchlist) + {plate}
      && s'.events == s.events && s'.alerts == s.alerts && s'.deleted == s.deleted
  {
    AddWatchEffects(s, plate, reason, alertType, now);
    if Listed(s.watchlist, plate) {
      var k :| k in s.watchlist && s.watchlist[k].plate == plate;
      assert plate in ListedPlates(s.watchlist);
    } else {
      ListedAfterInsert(s.watchlist, s.nextWatch, NewWatchEntry(plate, reason, alertType, now));
    }
  }

  /** Inserting a row under a fresh id adds exactly its plate to the
      listed plates. */
  lemma ListedAfterInsert(wl: map<nat, WatchEntry>, n: nat, e: WatchEntry)
    requires n !in wl
    ensures ListedPlates(wl[n := e]) == ListedPlates(wl) + {e.plate}
  {
    var wl' := wl[n := e];
    assert wl'[n].plate == e.plate;
    forall p | p in ListedPlates(wl') ensures p in ListedPlates(wl) + {e.plate} {
      var k :| k in wl' && wl'[k].plate == p;
      if k != n {
        assert k in wl && wl[k].plate == p;
      }
    }
    forall p | p in ListedPlates(wl) ensures p in ListedPlates(wl') {
      var k :| k in wl && wl[k].plate == p;
      assert k in wl' && wl'[k].plate == p;
    }
  }

  /** After loading a file, the listed plates are those listed before
      together with every plate the file names; the UNIQUE constraint
      still holds and no other table changes. */
  lemma {:induction false} LoadListsFilePlates(s: Store, lines: seq<string>, now: Timestamp)
    requires Valid(s)
    ensures Valid(LoadSpec(s, lines, now))
    ensures ListedPlates(LoadSpec(s, lines, now).watchlist) == ListedPlates(s.watchlist) + FilePlates(lines)
    ensures LoadSpec(s, lines, now).events == s.events
    ensures LoadSpec(s, lines, now).alerts == s.alerts
    ensures LoadSpec(s, lines, now).deleted == s.deleted
    decreases |lines|
  {
    if lines != [] {
      var plate := Strip(lines[0]);
      var next := if plate == [] then s else AddWatchSpec(s, plate, FILE_REASON, FILE_ALERT_TYPE, now);
      if plate != [] {
        AddListsPlate(s, plate, FILE_REASON, FILE_ALERT_TYPE, now);
      }
      LoadListsFilePlates(next, lines[1..], now);
      FilePlatesCons(lines);
    }
  }

  /** The plates of a file: those of its first line and of the rest. */
  lemma FilePlatesCons(lines: seq<string>)
    requires lines != []
    ensures FilePlates(lines)
            == (if Strip(lines[0]) == [] then {} else {Strip(lines[0])}) + FilePlates(lines[1..])
  {
    assert lines == [lines[0]] + lines[1..];
    forall p | p in FilePlates(lines)
      ensures p in (if Strip(lines[0]) == [] then {} else {Strip(lines[0])}) + FilePlates(lines[1..])
    {
      var l :| l in lines && Strip(l) != [] && Strip(l) == p;
      if l != lines[0] {
        assert l in lines[1..];
      }
    }
  }

  /** The watchlist file loop: strip each line, skip blank ones, and add
      the rest with the file's reason and the alert type 'warning'.
      Returns the number of add_to_watchlist calls made. */
  method LoadWatchlist(db: AdvancedPlateDB, lines: seq<string>, now: Timestamp) returns (calls: nat)
    requires db.Valid()
    modifies db
    ensures db.Valid()
    ensures db.Tables() == LoadSpec(old(db.Tables()), lines, now)
    ensures calls == NonBlankCount(lines)
  {
    ghost var target := LoadSpec(db.Tables(), lines, now);
    calls := 0;
    var i := 0;
    while i < |lines|
      invariant 0 <= i <= |lines|
      invariant db.Valid()
      invariant LoadSpec(db.Tables(), lines[i..], now) == target
      invariant calls + NonBlankCount(lines[i..]) == NonBlankCount(lines)
    {
      assert lines[i..][1..] == lines[i + 1..];
      var plate := Strip(lines[i]);
      if plate != [] {
        var _ := db.AddToWatchlist(plate, FILE_REASON, FILE_ALERT_TYPE, now);
        calls := calls + 1;
      }
      i := i + 1;
    }
  }

  // ------------------------------------------------------- capture loop

  /** The state the capture loop keeps: the store, the gate, and
      alert_frames (plate -> frame at which its banner expires). */
  class AdvancedLoop {
    const db: AdvancedPlateDB
    const gate: DedupGate
    var alertFrames: map<string, int>

    constructor ()
      ensures fresh(db) && fresh(gate)
      ensures db.Valid() && db.Tables() == Empty()
      ensures gate.frameCount == 0 && gate.history == map[] && alertFrames == map[]
    {
      db := new AdvancedPlateDB();
      gate := new DedupGate();
      alertFrames := map[];
    }

    /** A plate read in the current frame: when the gate admits it, save it
        (which raises the alert for a watched plate) and, on an alert, show
        the banner until frame_count + 100; otherwise nothing changes. */
    method HandleReading(lp: string, confidence: real, imagePath: Option<string>,
                         source: string, now: Timestamp) returns (saved: bool, alerted: bool)
      requires db.Valid()
      modifies db, gate, this
      ensures db.Valid()
      ensures gate.frameCount == old(gate.frameCount)
      ensures saved == ShouldSave(old(gate.history), lp, gate.frameCount)
      ensures gate.history == Step(old(gate.history), lp, gate.frameCount)
      ensures saved ==> db.Tables() == SaveSpec(old(db.Tables()), lp, gate.frameCount, confidence, imagePath, source, now)
      ensures !saved ==> db.Tables() == old(db.Tables())
      ensures alerted == (saved && exists k :: IsActiveEntry(old(db.watchlist), lp, k))
      ensures alertFrames == if alerted then old(alertFrames)[lp := gate.frameCount + ALERT_DISPLAY_FRAMES]
                             else old(alertFrames)
    {
      saved := gate.Accept(lp);
      alerted := false;
      if saved {
        var id, triggered := db.SavePlate(lp, gate.frameCount, confidence, imagePath, source, now);
        if triggered {
          alertFrames := alertFrames[lp := gate.frameCount + ALERT_DISPLAY_FRAMES];
        }
        alerted := triggered;
      }
    }

    /** The banner pass at the end of a frame: a banner whose expiry frame
        is still ahead is shown, every other one is deleted. */
    method RefreshBanners() returns (shown: set<string>)
      modifies this
      ensures forall p :: p in alertFrames <==> p in old(alertFrames) && gate.frameCount < old(alertFrames)[p]
      ensures forall p :: p in alertFrames ==> alertFrames[p] == old(alertFrames)[p]
      ensures shown == alertFrames.Keys
    {
      ghost var before := alertFrames;
      var todo := alertFrames.Keys;
      shown := {};
      while todo != {}
        invariant todo <= before.Keys
        invariant forall p :: p in alertFrames <==> p in before && (p in todo || gate.frameCount < before[p])
        invariant forall p :: p in alertFrames ==> alertFrames[p] == before[p]
        invariant shown == alertFrames.Keys - todo
        decreases todo
      {
        var p :| p in todo;
        if gate.frameCount < alertFrames[p] {
          shown := shown + {p};
        } else {
          alertFrames := alertFrames - {p};
        }
        todo := todo - {p};
      }
    }
  }

  /** A file line as read, with its line feed, strips to the plate. */
  lemma StripLine(plate: string)
    requires plate != [] && !IsSpace(plate[0]) && !IsSpace(plate[|plate| - 1])
    ensures Strip(plate + "\n") == plate
  {
    var line := plate + "\n";
    assert TrimStart(line) == line;
    assert line[..|line| - 1] == plate;
    assert TrimEnd(line) == TrimEnd(plate);
  }

  /** A one-line file adds its stripped line, if any. */
  lemma LoadOneLine(s: Store, line: string, now: Timestamp)
    ensures LoadSpec(s, [line], now)
            == if Strip(line) == [] then s else AddWatchSpec(s, Strip(line), FILE_REASON, FILE_ALERT_TYPE, now)
  {
    assert [line][1..] == [];
  }

  /** Loading a one-line file into an empty store lists its plate as the
      first, active entry. */
  lemma LoadIntoEmpty(plate: string, t0: Timestamp)
    requires plate != [] && !IsSpace(plate[0]) && !IsSpace(plate[|plate| - 1])
    ensures Valid(LoadSpec(Empty(), [plate + "\n"], t0))
    ensures IsActiveEntry(LoadSpec(Empty(), [plate + "\n"], t0).watchlist, plate, 1)
    ensures LoadSpec(Empty(), [plate + "\n"], t0).events == map[]
    ensures LoadSpec(Empty(), [plate + "\n"], t0).alerts == map[]
  {
    StripLine(plate);
    LoadOneLine(Empty(), plate + "\n", t0);
    AddWatchEffects(Empty(), plate, FILE_REASON, FILE_ALERT_TYPE, t0);
  }

  /** Two saves of a watched plate: two events, two alerts, and the
      entry's count up by two with the later time as last_seen. */
  lemma SaveWatchedTwice(s0: Store, plate: string, w: nat, f1: int, c1: real, f2: int, c2: real,
                         source: string, t1: Timestamp, t2: Timestamp)
    requires Valid(s0) && IsActiveEntry(s0.watchlist, plate, w)
    ensures var s2 := SaveSpec(SaveSpec(s0, plate, f1, c1, None, source, t1), plate, f2, c2, None, source, t2);
            && |s2.events| == |s0.events| + 2 && |s2.alerts| == |s0.alerts| + 2
            && w in s2.watchlist && s2.watchlist[w].detectionCount == s0.watchlist[w].detectionCount + 2
            && s2.watchlist[w].lastSeen == Some(t2)
  {
    var s1 := SaveSpec(s0, plate, f1, c1, None, source, t1);
    SaveWatched(s0, plate, f1, c1, None, source, t1, w);
    assert IsActiveEntry(s1.watchlist, plate, w);
    SaveWatched(s1, plate, f2, c2, None, source, t2, w);
  }

  /** The watchlist scenario: a plate loaded from a one-line file, then
      read at frames 1, 5 and 40.  The gate saves frames 1 and 40; each
      save of the watched plate stores one event and one alert, so the
      store ends with two events, two alerts, and the entry seen twice.
      This checks the specification functions (Accepted, LoadSpec, SaveSpec)
      that AdvancedLoop.HandleReading and LoadWatchlist are proved to
      implement; a lemma cannot call those methods. */
  lemma WatchlistScenario(plate: string, source: string, c1: real, c2: real,
                          t0: Timestamp, t1: Timestamp, t2: Timestamp)
    requires plate != [] && !IsSpace(plate[0]) && !IsSpace(plate[|plate| - 1])
    ensures Accepted(map[], [Sighting(plate, 1), Sighting(plate, 5), Sighting(plate, 40)])
            == [Sighting(plate, 1), Sighting(plate, 40)]
    ensures var s0 := LoadSpec(Empty(), [plate + "\n"], t0);
            var s2 := SaveSpec(SaveSpec(s0, plate, 1, c1, None, source, t1), plate, 40, c2, None, source, t2);
            && |s2.events| == 2 && |s2.alerts| == 2
            && 1 in s2.watchlist && s2.watchlist[1].detectionCount == 2 && s2.watchlist[1].lastSeen == Some(t2)
  {
    ScenarioOnePlate(plate);
    LoadIntoEmpty(plate, t0);
    var s0 := LoadSpec(Empty(), [plate + "\n"], t0);
    SaveWatchedTwice(s0, plate, 1, 1, c1, 40, c2, source, t1, t2);
  }
}
