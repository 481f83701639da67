/** The cooldown gate written out inline in both capture loops
    (main_advanced.py and main_with_database.py): a plate read in the
    current frame is saved when it was never saved before, or when more
    than DETECTION_COOLDOWN frames have passed since it was last saved;
    the history of last-saved frames changes only when a save happens. */
module Cooldown {

  /** Frames to wait before the same plate is saved again. */
  const DETECTION_COOLDOWN: int := 30

  /** detected_plates_history: plate text -> frame of its last save. */
  type History = map<string, int>

  /** The should_save decision; the gap must exceed the cooldown strictly.
      A plate never saved passes; a plate is never saved twice within one
      frame, nor at a frame before its last save. */
  predicate ShouldSave(history: History, plate: string, frame: int)
    ensures plate !in history ==> ShouldSave(history, plate, frame)
    ensures plate in history && frame <= history[plate] ==> !ShouldSave(history, plate, frame)
  {
    plate !in history || frame - history[plate] > DETECTION_COOLDOWN
  }

  /** The history after one reading: written only when the read is saved.
      The plate is recorded afterwards, no other plate's entry moves, the
      plate's own entry moves only to a frame past the cooldown, and the
      same reading repeated in the same frame is refused. */
  function Step(history: History, plate: string, frame: int): (h: History)
    ensures h.Keys == history.Keys + {plate}
    ensures forall p :: p in history && p != plate ==> h[p] == history[p]
    ensures plate in history && h[plate] != history[plate] ==>
              h[plate] == frame && frame - history[plate] > DETECTION_COOLDOWN
    ensures !ShouldSave(h, plate, frame)
  {
    if ShouldSave(history, plate, frame) then history[plate := frame] else history
  }

  /** A plate text read in a frame. */
  datatype Sighting = Sighting(plate: string, frame: int)

  /** The readings the gate lets through, in order, starting from history. */
  function Accepted(history: History, readings: seq<Sighting>): seq<Sighting>
    decreases |readings|
  {
    if readings == [] then []
    else
      var r := readings[0];
      (if ShouldSave(history, r.plate, r.frame) then [r] else [])
        + Accepted(Step(history, r.plate, r.frame), readings[1..])
  }

  /** A first sighting is always saved and recorded; a repeat is saved
      exactly when the gap exceeds the cooldown, and a rejected reading
      leaves the history as it was. */
  lemma GateDecision(history: History, plate: string, frame: int)
    ensures plate !in history ==> ShouldSave(history, plate, frame)
    ensures plate in history ==>
              (ShouldSave(history, plate, frame) <==> frame > history[plate] + DETECTION_COOLDOWN)
    ensures ShouldSave(history, plate, frame) ==> Step(history, plate, frame) == history[plate := frame]
    ensures !ShouldSave(history, plate, frame) ==> Step(history, plate, frame) == history
  {
  }

  /** The boundary: a gap of exactly DETECTION_COOLDOWN frames is refused,
      one more frame is accepted. */
  lemma CooldownBoundary(plate: string, last: int)
    ensures !ShouldSave(map[plate := last], plate, last + DETECTION_COOLDOWN)
    ensures ShouldSave(map[plate := last], plate, last + DETECTION_COOLDOWN + 1)
  {
  }

  /** The history only grows, and a plate's recorded frame never moves
      back, along any run of readings. */
  lemma StepAdvances(history: History, plate: string, frame: int)
    ensures var h := Step(history, plate, frame);
      history.Keys <= h.Keys && forall p :: p in history ==> history[p] <= h[p]
  {
  }

  /** Every sighting in saved of a plate that history records lies more
      than DETECTION_COOLDOWN frames after the recorded frame. */
  ghost predicate CooledAfter(history: History, saved: seq<Sighting>) {
    forall i :: 0 <= i < |saved| && saved[i].plate in history ==>
      saved[i].frame > history[saved[i].plate] + DETECTION_COOLDOWN
  }

  /** Any two sightings of one plate in saved, in order, are more than
      DETECTION_COOLDOWN frames apart. */
  ghost predicate Spaced(saved: seq<Sighting>) {
    forall i, j :: 0 <= i < j < |saved| && saved[i].plate == saved[j].plate ==>
      saved[j].frame - saved[i].frame > DETECTION_COOLDOWN
  }

  /** Every sighting of a plate the history already records that the gate
      lets through lies more than DETECTION_COOLDOWN frames after the
      recorded frame. */
  lemma {:induction false} AcceptedAfterHistory(history: History, readings: seq<Sighting>)
    ensures CooledAfter(history, Accepted(history, readings))
    decreases |readings|
  {
    if readings != [] {
      var r := readings[0];
      var h := Step(history, r.plate, r.frame);
      var head := if ShouldSave(history, r.plate, r.frame) then [r] else [];
      var rest := Accepted(h, readings[1..]);
      AcceptedAfterHistory(h, readings[1..]);
      StepAdvances(history, r.plate, r.frame);
      var a := Accepted(history, readings);
      assert a == head + rest;
      forall i | 0 <= i < |a| && a[i].plate in history
        ensures a[i].frame > history[a[i].plate] + DETECTION_COOLDOWN
      {
        var p := a[i].plate;
        if i >= |head| {
          var k := i - |head|;
          assert a[i] == rest[k];
          assert p in h && history[p] <= h[p];
          assert rest[k].frame > h[rest[k].plate] + DETECTION_COOLDOWN;
        } else {
          assert a[i] == r && ShouldSave(history, r.plate, r.frame);
        }
      }
    }
  }

  /** Two saved sightings of the same plate, in the order saved, are more
      than DETECTION_COOLDOWN frames apart; in particular the saved frame
      numbers of one plate strictly increase. */
  lemma {:induction false} AcceptedSpacing(history: History, readings: seq<Sighting>)
    ensures Spaced(Accepted(history, readings))
    decreases |readings|
  {
    if readings != [] {
      var r := readings[0];
      var h := Step(history, r.plate, r.frame);
      var head := if ShouldSave(history, r.plate, r.frame) then [r] else [];
      var rest := Accepted(h, readings[1..]);
      AcceptedSpacing(h, readings[1..]);
      AcceptedAfterHistory(h, readings[1..]);
      var a := Accepted(history, readings);
      assert a == head + rest;
      forall i, j | 0 <= i < j < |a| && a[i].plate == a[j].plate
        ensures a[j].frame - a[i].frame > DETECTION_COOLDOWN
      {
        var l := j - |head|;
        assert a[j] == rest[l];
        if i >= |head| {
          var k := i - |head|;
          assert a[i] == rest[k] && k < l;
        } else {
          assert a[i] == r && h[r.plate] == r.frame;
          assert rest[l].frame > h[rest[l].plate] + DETECTION_COOLDOWN;
        }
      }
    }
  }

  /** One plate read at frames 1, 5 and 40 from an empty history: saved at
      frames 1 and 40 only. */
  lemma ScenarioOnePlate(plate: string)
    ensures Accepted(map[], [Sighting(plate, 1), Sighting(plate, 5), Sighting(plate, 40)])
            == [Sighting(plate, 1), Sighting(plate, 40)]
  {
    var rs := [Sighting(plate, 1), Sighting(plate, 5), Sighting(plate, 40)];
    var h1 := map[plate := 1];
    var h3 := map[plate := 40];
    assert Step(map[], plate, 1) == h1;
    assert !ShouldSave(h1, plate, 5) && Step(h1, plate, 5) == h1;
    assert ShouldSave(h1, plate, 40) && Step(h1, plate, 40) == h3;
    assert rs[1..][1..][1..] == [];
    calc {
      Accepted(map[], rs);
      [rs[0]] + Accepted(h1, rs[1..]);
      [rs[0]] + Accepted(h1, rs[1..][1..]);
      [rs[0]] + ([rs[2]] + Accepted(h3, rs[1..][1..][1..]));
    }
  }

  /** The gate as the capture loops keep it: the frame counter and the
      history dictionary. */
  class DedupGate {
    var frameCount: int
    var history: History

    /** frame_count = 0, detected_plates_history = {}. */
    constructor ()
      ensures frameCount == 0 && history == map[]
    {
      frameCount := 0;
      history := map[];
    }

    /** frame_count += 1 after each frame is read. */
    method NextFrame()
      modifies this
      ensures frameCount == old(frameCount) + 1
      ensures history == old(history)
    {
      frameCount := frameCount + 1;
    }

    /** The should_save test on a reading in the current frame, and the
        history write that follows a save. */
    method Accept(plate: string) returns (save: bool)
      modifies this
      ensures save == ShouldSave(old(history), plate, frameCount)
      ensures history == Step(old(history), plate, frameCount)
      ensures save ==> plate in history && history[plate] == frameCount
      ensures !save ==> history == old(history)
      ensures frameCount == old(frameCount)
    {
      save := false;
      if plate !in history {
        save := true;
      } else if frameCount - history[plate] > DETECTION_COOLDOWN {
        save := true;
      }
      if save {
        history := history[plate := frameCount];
      }
    }
  }
}
