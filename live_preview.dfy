/** The live preview screen's debounce fields, updated in place as the activity does.
    Each method is tied to the step function of PresenceDebounce that specifies it. */
module LivePreview {
  import opened PresenceDebounce

  class LivePreviewActivity {
    var lastFaceFoundTime: int
    var lastFaceLostTime: int
    /** Due times of foundFacePeriodFinishedChecker messages queued on mFaceFoundHandler. */
    var foundCallbacks: seq<int>
    /** Due times of lostFacePeriodFinishedChecker messages queued on mFaceLostHandler. */
    var lostCallbacks: seq<int>

    /** The fields as a value of the specification. */
    ghost function Snapshot(): State
      reads this
    {
      State(lastFaceFoundTime, lastFaceLostTime, foundCallbacks, lostCallbacks)
    }

    ghost predicate Valid()
      reads this
    {
      Inv(Snapshot())
    }

    /** Both timestamps start at 0 and both handlers start empty. */
    constructor ()
      ensures Valid() && Snapshot() == Initial()
    {
      lastFaceFoundTime := 0;
      lastFaceLostTime := 0;
      foundCallbacks := [];
      lostCallbacks := [];
    }

    /** The detector's success listener; now is the wall clock, never the unset value 0. */
    method OnSuccess(numFaces: int, now: int)
      requires Valid() && now > 0
      modifies this
      ensures Valid()
      ensures Snapshot() == PresenceDebounce.OnSuccess(old(Snapshot()), numFaces, now)
    {
      if numFaces > 0 {
        if lastFaceFoundTime == 0 {
          lastFaceFoundTime := now;
          foundCallbacks := foundCallbacks + [now + MIN_FACE_FOUND_PERIOD];
        } else if lastFaceLostTime != 0 {
          CancelLostFace();
        }
      } else {
        if lastFaceFoundTime != 0 && lastFaceLostTime == 0 {
          lastFaceLostTime := now;
          lostCallbacks := lostCallbacks + [now + MAX_FACE_MISSING_PERIOD];
        }
      }
    }

    /** The event loop delivers the queued found checker at time now; the result says
        whether the greeting screen is started. */
    method RunFoundChecker(now: int) returns (startGreeting: bool)
      requires Valid() && foundCallbacks != []
      modifies this
      ensures Valid()
      ensures (Snapshot(), startGreeting) == FireFound(old(Snapshot()), now)
    {
      foundCallbacks := foundCallbacks[1..];
      startGreeting := now > lastFaceFoundTime + MIN_FACE_FOUND_PERIOD - SLACK;
    }

    /** The event loop delivers the queued lost checker at time now; the result says
        whether the face was declared gone (and everything cancelled). */
    method RunLostChecker(now: int) returns (gone: bool)
      requires Valid() && lostCallbacks != []
      modifies this
      ensures Valid()
      ensures (Snapshot(), gone) == FireLost(old(Snapshot()), now)
    {
      lostCallbacks := lostCallbacks[1..];
      gone := now > lastFaceLostTime + MAX_FACE_MISSING_PERIOD - SLACK;
      if gone {
        CancelAll();
      }
    }

    /** seCancelaTodo: leaves the machine idle. */
    method CancelAll()
      modifies this
      ensures Valid()
      ensures Snapshot() == PresenceDebounce.CancelAll(old(Snapshot())) == Initial()
    {
      foundCallbacks := [];
      lastFaceFoundTime := 0;
      CancelLostFace();
    }

    /** cancelLostFace: only the lost side changes. */
    method CancelLostFace()
      modifies this
      ensures Snapshot() == PresenceDebounce.CancelLostFace(old(Snapshot()))
      ensures old(Valid()) ==> Valid()
    {
      lostCallbacks := [];
      lastFaceLostTime := 0;
    }

    /** onResume: the camera restart is not modelled; the debounce is reset. */
    method OnResume()
      modifies this
      ensures Valid()
      ensures Snapshot() == PresenceDebounce.OnResume(old(Snapshot()))
    {
      CancelAll();
    }
  }

  /** What a caller can conclude from the method contracts alone, for three timings
      (clock readings in milliseconds, offset from the unset value 0). */
  method Scenarios()
  {
    // a face held for 3 s starts the greeting
    var a := new LivePreviewActivity();
    a.OnSuccess(1, 1000);
    a.OnSuccess(1, 1100);
    a.OnSuccess(1, 4000);
    var greet := a.RunFoundChecker(4000);
    assert greet;

    // the face leaves after the greeting: gone 500 ms later, everything reset
    a.OnSuccess(0, 4100);
    a.OnSuccess(0, 4300);
    var gone := a.RunLostChecker(4600);
    assert gone && a.Snapshot() == Initial();

    // a 200 ms flicker: the loss is cancelled and the episode keeps its start time
    var b := new LivePreviewActivity();
    b.OnSuccess(1, 1000);
    b.OnSuccess(0, 1100);
    b.OnSuccess(1, 1300);
    assert b.lostCallbacks == [] && b.lastFaceFoundTime == 1000;
    greet := b.RunFoundChecker(4000);
    assert greet;
  }
}
