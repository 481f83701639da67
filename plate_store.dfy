/** AdvancedLicensePlateDB (database_manager.py): the store as an object
    whose four tables the methods reassign in the order the source runs its
    SQL; a delete and the backup row it writes are one simultaneous
    assignment.  Each state-changing method is proved against its function
    in StoreSpec. */
module PlateStore {
  import opened Records
  import opened StoreSpec
  import opened StoreProperties
  import opened Ranking
  import opened Fuzzy

  const DUPLICATE_WATCH_MESSAGE: string := "Biển số đã có trong watchlist"
  const NOT_FOUND_MESSAGE: string := "Không tìm thấy biển số"
  const DELETED_MESSAGE: string := "Đã xóa thành công"
  const TOMBSTONE_NOT_FOUND_MESSAGE: string := "Không tìm thấy bản ghi đã xóa"
  const RESTORED_MESSAGE: string := "Khôi phục thành công"
  const TOP_PLATES_LIMIT: nat := 5

  /** The answer of add_to_watchlist: (True, id) or (False, message). */
  datatype AddOutcome = Added(id: nat) | Refused(message: string)

  /** One entry of find_similar_plates. */
  datatype SimilarPlate = SimilarPlate(plate: string, similarity: real)

  /** One entry of top_plates in get_statistics. */
  datatype PlateTally = PlateTally(plate: string, count: nat)

  datatype Statistics = Statistics(
    total: nat, unique: nat, watchlistCount: nat, alertsPending: nat, today: nat,
    topPlates: seq<PlateTally>)

  function BySimilarity(x: SimilarPlate): real { x.similarity }

  function ByCount(t: PlateTally): real { t.count as real }

  /** similar holds, once each, exactly the plates of done other than
      plate whose similarity reaches threshold, with that similarity. */
  ghost predicate SimilarUpTo(done: set<string>, plate: string, threshold: real,
                              ratio: (string, string) -> real, similar: seq<SimilarPlate>)
  {
    && (forall i :: 0 <= i < |similar| ==>
          && similar[i].plate in done && similar[i].plate != plate
          && similar[i].similarity == Similarity(ratio, plate, similar[i].plate)
          && similar[i].similarity >= threshold)
    && (forall p :: p in done && p != plate && Similarity(ratio, plate, p) >= threshold ==>
          exists i :: 0 <= i < |similar| && similar[i].plate == p)
    && Distinct(similar)
  }

  /** One more candidate examined by the find_similar_plates loop. */
  lemma SimilarStep(done: set<string>, plate: string, threshold: real,
                    ratio: (string, string) -> real, similar: seq<SimilarPlate>, q: string)
    requires SimilarUpTo(done, plate, threshold, ratio, similar) && q !in done
    ensures var sim := Similarity(ratio, plate, q);
      SimilarUpTo(done + {q}, plate, threshold, ratio,
                  if sim >= threshold && q != plate then similar + [SimilarPlate(q, sim)] else similar)
  {
    var sim := Similarity(ratio, plate, q);
    if sim >= threshold && q != plate {
      var next := similar + [SimilarPlate(q, sim)];
      assert forall i :: 0 <= i < |similar| ==> next[i] == similar[i];
      forall p | p in done + {q} && p != plate && Similarity(ratio, plate, p) >= threshold
        ensures exists i :: 0 <= i < |next| && next[i].plate == p
      {
        if p == q {
          assert next[|similar|].plate == p;
        } else {
          var i :| 0 <= i < |similar| && similar[i].plate == p;
          assert next[i].plate == p;
        }
      }
    }
  }

  /** Sorting the matches keeps them all, once each, best first. */
  lemma RankSimilar(events: map<nat, Event>, plate: string, threshold: real,
                    ratio: (string, string) -> real, similar: seq<SimilarPlate>)
    requires SimilarUpTo(Plates(events), plate, threshold, ratio, similar)
    ensures var r := SortDesc(similar, BySimilarity);
      && (forall i :: 0 <= i < |r| ==>
            && r[i].plate in Plates(events) && r[i].plate != plate
            && r[i].similarity == Similarity(ratio, plate, r[i].plate)
            && r[i].similarity >= threshold)
      && (forall p :: p in Plates(events) && p != plate && Similarity(ratio, plate, p) >= threshold ==>
            exists i :: 0 <= i < |r| && r[i].plate == p)
      && (forall i, j :: 0 <= i < j < |r| ==> r[i].plate != r[j].plate)
      && (forall i, j :: 0 <= i < j < |r| ==> r[i].similarity >= r[j].similarity)
  {
    var r := SortDesc(similar, BySimilarity);
    SortDescFacts(similar, BySimilarity);
    forall i | 0 <= i < |r| ensures r[i] in similar {
      assert r[i] in r;
    }
    forall p | p in Plates(events) && p != plate && Similarity(ratio, plate, p) >= threshold
      ensures exists i :: 0 <= i < |r| && r[i].plate == p
    {
      var i :| 0 <= i < |similar| && similar[i].plate == p;
      assert similar[i] in r;
    }
    forall i, j | 0 <= i < j < |r| ensures r[i].plate != r[j].plate {
      assert r[i] in similar && r[j] in similar;
    }
    forall i, j | 0 <= i < j < |r| ensures r[i].similarity >= r[j].similarity {
      assert BySimilarity(r[i]) >= BySimilarity(r[j]);
    }
  }

  /** tallies holds every plate of done once, with its row count. */
  ghost predicate TallyUpTo(events: map<nat, Event>, done: set<string>, tallies: seq<PlateTally>)
  {
    && (forall i :: 0 <= i < |tallies| ==>
          tallies[i].plate in done && tallies[i].count == PlateCount(events, tallies[i].plate))
    && (forall p :: p in done ==> exists i :: 0 <= i < |tallies| && tallies[i].plate == p)
    && Distinct(tallies)
  }

  /** One more plate counted by the get_statistics loop. */
  lemma TallyStep(events: map<nat, Event>, done: set<string>, tallies: seq<PlateTally>, q: string)
    requires TallyUpTo(events, done, tallies) && q !in done
    ensures TallyUpTo(events, done + {q}, tallies + [PlateTally(q, PlateCount(events, q))])
  {
    var next := tallies + [PlateTally(q, PlateCount(events, q))];
    forall p | p in done + {q} ensures exists i :: 0 <= i < |next| && next[i].plate == p {
      if p == q {
        assert next[|next| - 1].plate == p;
      } else {
        var i :| 0 <= i < |tallies| && tallies[i].plate == p;
        assert next[i] == tallies[i];
      }
    }
  }

  /** The first TOP_PLATES_LIMIT tallies in order of decreasing count. */
  function TopPlates(tallies: seq<PlateTally>): seq<PlateTally>
  {
    var ranked := SortDesc(tallies, ByCount);
    ranked[..if |ranked| < TOP_PLATES_LIMIT then |ranked| else TOP_PLATES_LIMIT]
  }

  /** top is a top_plates answer for the table: min(5, number of plates)
      entries, each a plate of the table with its true count, no plate
      twice, counts non-increasing, and no plate left out counts more than
      a listed one. */
  ghost predicate IsTopList(events: map<nat, Event>, top: seq<PlateTally>)
  {
    && |top| == (if |Plates(events)| < TOP_PLATES_LIMIT then |Plates(events)| else TOP_PLATES_LIMIT)
    && (forall i :: 0 <= i < |top| ==>
          top[i].plate in Plates(events) && top[i].count == PlateCount(events, top[i].plate))
    && (forall i, j :: 0 <= i < j < |top| ==>
          top[i].plate != top[j].plate && top[i].count >= top[j].count)
    && (forall p :: p in Plates(events) ==>
          (exists i :: 0 <= i < |top| && top[i].plate == p)
          || (forall i :: 0 <= i < |top| ==> PlateCount(events, p) <= top[i].count))
  }

  /** The top list: the right length, true counts, no plate twice, in
      non-increasing order, and no plate left out outranks one listed. */
  lemma TopPlatesCorrect(events: map<nat, Event>, tallies: seq<PlateTally>)
    requires TallyUpTo(events, Plates(events), tallies) && |tallies| == |Plates(events)|
    ensures IsTopList(events, TopPlates(tallies))
  {
    TopPlatesListed(events, tallies);
    TopPlatesOmitted(events, tallies);
  }

  /** Every listed tally is a true count, no plate twice, in order. */
  lemma TopPlatesListed(events: map<nat, Event>, tallies: seq<PlateTally>)
    requires TallyUpTo(events, Plates(events), tallies) && |tallies| == |Plates(events)|
    ensures var top := TopPlates(tallies);
      && |top| == (if |Plates(events)| < TOP_PLATES_LIMIT then |Plates(events)| else TOP_PLATES_LIMIT)
      && (forall i :: 0 <= i < |top| ==>
            top[i].plate in Plates(events) && top[i].count == PlateCount(events, top[i].plate))
      && (forall i, j :: 0 <= i < j < |top| ==>
            top[i].plate != top[j].plate && top[i].count >= top[j].count)
  {
    var ranked := SortDesc(tallies, ByCount);
    SortDescFacts(tallies, ByCount);
    var top := TopPlates(tallies);
    forall i | 0 <= i < |top|
      ensures top[i].plate in Plates(events) && top[i].count == PlateCount(events, top[i].plate)
    {
      assert top[i] == ranked[i] && ranked[i] in ranked;
    }
    forall i, j | 0 <= i < j < |top|
      ensures top[i].plate != top[j].plate && top[i].count >= top[j].count
    {
      assert top[i] == ranked[i] && top[j] == ranked[j];
      assert ByCount(ranked[i]) >= ByCount(ranked[j]);
      assert ranked[i] in ranked && ranked[j] in ranked;
    }
  }

  /** A plate missing from the list counts no more than any listed one. */
  lemma TopPlatesOmitted(events: map<nat, Event>, tallies: seq<PlateTally>)
    requires TallyUpTo(events, Plates(events), tallies) && |tallies| == |Plates(events)|
    ensures var top := TopPlates(tallies);
      forall p :: p in Plates(events) ==>
        (exists i :: 0 <= i < |top| && top[i].plate == p)
        || (forall i :: 0 <= i < |top| ==> PlateCount(events, p) <= top[i].count)
  {
    var ranked := SortDesc(tallies, ByCount);
    SortDescFacts(tallies, ByCount);
    var top := TopPlates(tallies);
    var n := |top|;
    forall p | p in Plates(events)
      ensures (exists i :: 0 <= i < n && top[i].plate == p)
              || (forall i :: 0 <= i < n ==> PlateCount(events, p) <= top[i].count)
    {
      var i :| 0 <= i < |tallies| && tallies[i].plate == p;
      assert tallies[i] in ranked;
      var m :| 0 <= m < |ranked| && ranked[m] == tallies[i];
      if m >= n {
        forall j | 0 <= j < n ensures PlateCount(events, p) <= top[j].count {
          assert top[j] == ranked[j];
          assert ByCount(ranked[j]) >= ByCount(ranked[m]);
        }
      } else {
        assert top[m] == ranked[m];
      }
    }
  }

  class AdvancedPlateDB {
    var events: map<nat, Event>
    var nextEventId: nat
    var watchlist: map<nat, WatchEntry>
    var nextWatchId: nat
    var alerts: map<nat, Alert>
    var nextAlertId: nat
    var deleted: map<nat, Tombstone>
    var nextDeletedId: nat

    /** The abstract value of the four tables. */
    function Tables(): Store
      reads this
    {
      Store(events, nextEventId, watchlist, nextWatchId, alerts, nextAlertId, deleted, nextDeletedId)
    }

    ghost predicate Valid()
      reads this
    {
      StoreSpec.Valid(Tables())
    }

    /** init_database on a fresh file: four empty tables. */
    constructor ()
      ensures Valid() && Tables() == Empty()
    {
      events, nextEventId := map[], 1;
      watchlist, nextWatchId := map[], 1;
      alerts, nextAlertId := map[], 1;
      deleted, nextDeletedId := map[], 1;
    }

    // ------------------------------------------------------------ watchlist

    /** check_watchlist: (True, row) for the active row with exactly this
        plate, (False, None) when there is none. */
    method CheckWatchlist(plate: string) returns (found: bool, row: Option<(nat, WatchEntry)>)
      requires Valid()
      ensures found <==> exists k :: IsActiveEntry(watchlist, plate, k)
      ensures found <==> row.Some?
      ensures found ==> row.value.0 in watchlist && row.value.1 == watchlist[row.value.0]
                        && row.value.1.plate == plate && row.value.1.active
      ensures found ==> ActiveEntryId(watchlist, plate) == Some(row.value.0)
    {
      if exists k :: k in watchlist && watchlist[k].plate == plate && watchlist[k].active {
        var k :| k in watchlist && watchlist[k].plate == plate && watchlist[k].active;
        ActiveEntryIdIs(watchlist, plate, k);
        found, row := true, Some((k, watchlist[k]));
      } else {
        found, row := false, None;
      }
    }

    /** add_to_watchlist: the INSERT either succeeds with a new id or is
        stopped by the UNIQUE constraint on plate_number. */
    method AddToWatchlist(plate: string, reason: string, alertType: string, now: Timestamp)
      returns (r: AddOutcome)
      requires Valid()
      modifies this
      ensures Valid()
      ensures Tables() == AddWatchSpec(old(Tables()), plate, reason, alertType, now)
      ensures r == if Listed(old(watchlist), plate) then Refused(DUPLICATE_WATCH_MESSAGE)
                   else Added(old(nextWatchId))
    {
      assert StoreSpec.Valid(AddWatchSpec(Tables(), plate, reason, alertType, now)) by { AddWatchEffects(Tables(), plate, reason, alertType, now); }
      if Listed(watchlist, plate) {
        return Refused(DUPLICATE_WATCH_MESSAGE);
      }
      r := Added(nextWatchId);
      watchlist := watchlist[nextWatchId := NewWatchEntry(plate, reason, alertType, now)];
      nextWatchId := nextWatchId + 1;
    }

    /** remove_from_watchlist: hard delete, true when a row went away. */
    method RemoveFromWatchlist(plate: string) returns (removed: bool)
      requires Valid()
      modifies this
      ensures Valid()
      ensures Tables() == RemoveWatchSpec(old(Tables()), plate)
      ensures removed == Listed(old(watchlist), plate)
    {
      assert StoreSpec.Valid(RemoveWatchSpec(Tables(), plate))
        && (Listed(watchlist, plate) <==> |RemoveWatchSpec(Tables(), plate).watchlist| < |watchlist|) by {
        RemoveWatchEffects(Tables(), plate);
      }
      var before := |watchlist|;
      watchlist := map k | k in watchlist && watchlist[k].plate != plate :: watchlist[k];
      removed := before - |watchlist| > 0;
    }

    // ----------------------------------------------------------- save_plate

    /** save_plate: INSERT the event; for a watched plate INSERT the alert,
        UPDATE the watchlist row and UPDATE the event's alert_triggered.
        Returns the new id and the watchlist flag stored on the row. */
    method SavePlate(plate: string, frame: int, confidence: real, imagePath: Option<string>,
                     source: string, now: Timestamp)
      returns (id: nat, isWatchlist: bool)
      requires Valid()
      modifies this
      ensures Valid()
      ensures Tables() == SaveSpec(old(Tables()), plate, frame, confidence, imagePath, source, now)
      ensures id == old(nextEventId) && id in events && id !in old(events)
      ensures isWatchlist == (exists k :: IsActiveEntry(old(watchlist), plate, k))
      ensures isWatchlist == events[id].isWatchlist
    {
      ghost var s := Tables();
      assert UniqueWatchPlates(s.watchlist) by { assert StoreSpec.Valid(s); }
      assert StoreSpec.Valid(SaveSpec(s, plate, frame, confidence, imagePath, source, now)) by {
        SavePreservesValid(s, plate, frame, confidence, imagePath, source, now);
      }
      var found, row := CheckWatchlist(plate);
      id := nextEventId;
      events := events[id := Event(plate, now, frame, confidence, imagePath, source, found, false)];
      nextEventId := nextEventId + 1;
      if found {
        var w := row.value.0;
        EmitAlert(id, w, plate, now);
        assert Tables() == SaveSpec(s, plate, frame, confidence, imagePath, source, now) by {
          SaveSpecWatched(s, plate, frame, confidence, imagePath, source, now, w);
        }
      } else {
        assert Tables() == SaveSpec(s, plate, frame, confidence, imagePath, source, now) by {
          assert ActiveEntryId(s.watchlist, plate) == None;
        }
      }
      isWatchlist := found;
    }

    /** The watchlist branch of save_plate: insert the alert, record the
        sighting on the entry (the UNIQUE constraint makes w the only row
        the UPDATE touches) and mark the event alert_triggered. */
    method EmitAlert(id: nat, w: nat, plate: string, now: Timestamp)
      requires id in events && w in watchlist && watchlist[w].plate == plate
      requires UniqueWatchPlates(watchlist)
      modifies this
      ensures events == old(events)[id := old(events)[id].(alertTriggered := true)]
      ensures alerts == old(alerts)[old(nextAlertId) := WatchAlert(plate, now, old(watchlist)[w])]
      ensures nextAlertId == old(nextAlertId) + 1
      ensures watchlist == old(watchlist)[w := Sighted(old(watchlist)[w], now)]
      ensures nextEventId == old(nextEventId) && nextWatchId == old(nextWatchId)
      ensures deleted == old(deleted) && nextDeletedId == old(nextDeletedId)
    {
      var entry := watchlist[w];
      alerts := alerts[nextAlertId := WatchAlert(plate, now, entry)];
      nextAlertId := nextAlertId + 1;
      var updated := map k | k in watchlist :: if watchlist[k].plate == plate then Sighted(watchlist[k], now) else watchlist[k];
      assert updated == watchlist[w := Sighted(entry, now)] by {
        forall k | k in watchlist && watchlist[k].plate == plate ensures k == w { }
      }
      watchlist := updated;
      events := events[id := events[id].(alertTriggered := true)];
    }

    // ---------------------------------------------------- delete and restore

    /** delete_plate: not found changes nothing; otherwise tombstone, then
        delete the row.  Removing the image file is not modelled. */
    method DeletePlate(id: nat, reason: string, now: Timestamp) returns (ok: bool, message: string)
      requires Valid()
      modifies this
      ensures Valid()
      ensures Tables() == DeleteSpec(old(Tables()), id, reason, now)
      ensures ok == (id in old(events))
      ensures message == if ok then DELETED_MESSAGE else NOT_FOUND_MESSAGE
    {
      ghost var target := DeleteSpec(Tables(), id, reason, now);
      assert StoreSpec.Valid(target) by { DeleteEffects(Tables(), id, reason, now); }
      if id !in events {
        return false, NOT_FOUND_MESSAGE;
      }
      var row := events[id];
      deleted, nextDeletedId, events :=
        deleted[nextDeletedId := Tombstone(id, row.plate, row.timestamp, now, reason)], nextDeletedId + 1, events - {id};
      assert Tables() == target;
      ok, message := true, DELETED_MESSAGE;
    }

    /** restore_deleted_plate: re-insert with the sentinel values, then
        consume the tombstone. */
    method RestoreDeletedPlate(tid: nat) returns (ok: bool, message: string)
      requires Valid()
      modifies this
      ensures Valid()
      ensures Tables() == RestoreSpec(old(Tables()), tid)
      ensures ok == (tid in old(deleted))
      ensures message == if ok then RESTORED_MESSAGE else TOMBSTONE_NOT_FOUND_MESSAGE
    {
      ghost var target := RestoreSpec(Tables(), tid);
      assert StoreSpec.Valid(target) by { RestoreEffects(Tables(), tid); }
      if tid !in deleted {
        return false, TOMBSTONE_NOT_FOUND_MESSAGE;
      }
      var t := deleted[tid];
      events, nextEventId, deleted := events[nextEventId := RestoredEvent(t)], nextEventId + 1, deleted - {tid};
      assert Tables() == target;
      ok, message := true, RESTORED_MESSAGE;
    }

    /** delete_by_plate_number; returns the number of rows removed. */
    method DeleteByPlateNumber(plate: string, keepLatest: bool) returns (count: int)
      requires Valid()
      modifies this
      ensures Valid()
      ensures Tables() == DeleteByPlateSpec(old(Tables()), plate, keepLatest)
      ensures count == |old(events)| - |events|
    {
      assert StoreSpec.Valid(DeleteByPlateSpec(Tables(), plate, keepLatest)) by { DeleteByPlateEffects(Tables(), plate, keepLatest); }
      var before := |events|;
      if keepLatest && plate in Plates(events) {
        LatestExists(events, plate);
        var keep :| keep in events && IsLatest(events, plate, keep);
        assert keep == LatestId(events, plate) by {
          var other := LatestId(events, plate);
          assert Precedes(events, keep, other) && Precedes(events, other, keep);
        }
        events := map k | k in events && (events[k].plate != plate || k == keep) :: events[k];
      } else {
        events := map k | k in events && events[k].plate != plate :: events[k];
      }
      count := before - |events|;
    }

    /** delete_old_records; returns the number of rows removed. */
    method DeleteOldRecords(days: int, now: Timestamp) returns (count: int)
      requires Valid()
      modifies this
      ensures Valid()
      ensures Tables() == DeleteOldSpec(old(Tables()), days, now)
      ensures count == |old(events)| - |events|
    {
      if days < 0 {
        return 0;
      }
      var before := |events|;
      var cutoff := Cutoff(now, days);
      events := map k | k in events && events[k].timestamp >= cutoff :: events[k];
      count := before - |events|;
    }

    /** bulk_delete_by_confidence; returns the number of rows removed. */
    method BulkDeleteByConfidence(minConfidence: real) returns (count: int)
      requires Valid()
      modifies this
      ensures Valid()
      ensures Tables() == DeleteLowConfidenceSpec(old(Tables()), minConfidence)
      ensures count == |old(events)| - |events|
    {
      var before := |events|;
      events := map k | k in events && events[k].confidence >= minConfidence :: events[k];
      count := before - |events|;
    }

    /** resolve_alert. */
    method ResolveAlert(id: nat)
      requires Valid()
      modifies this
      ensures Valid()
      ensures Tables() == ResolveAlertSpec(old(Tables()), id)
    {
      if id in alerts {
        alerts := alerts[id := alerts[id].(resolved := true)];
      }
    }

    // ------------------------------------------------------ fuzzy matching

    /** find_similar_plates: every distinct recorded plate other than the
        query whose similarity reaches the threshold, each once, in
        non-increasing order of similarity. */
    method FindSimilarPlates(plate: string, threshold: real, ratio: (string, string) -> real)
      returns (r: seq<SimilarPlate>)
      ensures forall i :: 0 <= i < |r| ==>
                && r[i].plate in Plates(events) && r[i].plate != plate
                && r[i].similarity == Similarity(ratio, plate, r[i].plate)
                && r[i].similarity >= threshold
      ensures forall p :: p in Plates(events) && p != plate && Similarity(ratio, plate, p) >= threshold ==>
                exists i :: 0 <= i < |r| && r[i].plate == p
      ensures forall i, j :: 0 <= i < j < |r| ==> r[i].plate != r[j].plate
      ensures forall i, j :: 0 <= i < j < |r| ==> r[i].similarity >= r[j].similarity
    {
      var allPlates := Plates(events);
      var similar: seq<SimilarPlate> := [];
      var todo := allPlates;
      while todo != {}
        invariant todo <= allPlates
        invariant SimilarUpTo(allPlates - todo, plate, threshold, ratio, similar)
        decreases todo
      {
        var existing :| existing in todo;
        var similarity := Similarity(ratio, plate, existing);
        SimilarStep(allPlates - todo, plate, threshold, ratio, similar, existing);
        if similarity >= threshold && existing != plate {
          similar := similar + [SimilarPlate(existing, similarity)];
        }
        assert allPlates - todo + {existing} == allPlates - (todo - {existing});
        todo := todo - {existing};
      }
      assert allPlates - todo == allPlates;
      RankSimilar(events, plate, threshold, ratio, similar);
      r := SortDesc(similar, BySimilarity);
    }

    // ----------------------------------------------------------- statistics

    /** SELECT plate_number, COUNT(*) ... GROUP BY plate_number: each
        plate of the table once with its number of rows. */
    method TallyPlates() returns (tallies: seq<PlateTally>)
      ensures TallyUpTo(events, Plates(events), tallies)
      ensures |tallies| == |Plates(events)|
    {
      var allPlates := Plates(events);
      tallies := [];
      var todo := allPlates;
      while todo != {}
        invariant todo <= allPlates
        invariant |tallies| + |todo| == |allPlates|
        invariant TallyUpTo(events, allPlates - todo, tallies)
        decreases todo
      {
        var p :| p in todo;
        TallyStep(events, allPlates - todo, tallies, p);
        tallies := tallies + [PlateTally(p, PlateCount(events, p))];
        assert allPlates - todo + {p} == allPlates - (todo - {p});
        todo := todo - {p};
      }
      assert allPlates - todo == allPlates;
    }

    /** get_statistics: the counts, and the five most frequent plates with
        their counts in non-increasing order (ties in no defined order). */
    method GetStatistics(now: Timestamp) returns (st: Statistics)
      ensures st.total == |events|
      ensures st.unique == |Plates(events)|
      ensures st.watchlistCount == |set k | k in watchlist && watchlist[k].active|
      ensures st.alertsPending == |set k | k in alerts && !alerts[k].resolved|
      ensures st.today == |set k | k in events && Day(events[k].timestamp) == Day(now)|
      ensures IsTopList(events, st.topPlates)
    {
      var tallies := TallyPlates();
      TopPlatesCorrect(events, tallies);
      st := Statistics(
        |events|,
        |Plates(events)|,
        |set k | k in watchlist && watchlist[k].active|,
        |set k | k in alerts && !alerts[k].resolved|,
        |set k | k in events && Day(events[k].timestamp) == Day(now)|,
        TopPlates(tallies));
    }
  }
}
