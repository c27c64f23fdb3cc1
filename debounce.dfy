/** The "face found / face lost" debounce of the live preview screen, as values.
    A State holds the two timestamps of the screen (0 means unset) and, for each of
    the two handlers, the due times of the checker callbacks posted to it and not yet
    delivered or removed. Posting appends a due time, removing callbacks empties the
    queue, and delivering a callback consumes the head of the queue. */
module PresenceDebounce {

  /** Longest tolerated "face missing" period, in milliseconds. */
  const MAX_FACE_MISSING_PERIOD: int := 500
  /** How long a face must be present before the greeting starts, in milliseconds. */
  const MIN_FACE_FOUND_PERIOD: int := 3000
  /** Scheduler slack subtracted in both checkers' time tests. */
  const SLACK: int := 50

  datatype State = State(
    lastFaceFoundTime: int,  // 0: no face found in this episode
    lastFaceLostTime: int,   // 0: no loss pending
    foundCallbacks: seq<int>, // due times of posted found checkers
    lostCallbacks: seq<int>   // due times of posted lost checkers
  )

  /** What a delivered event signals to the outside world. */
  datatype Outcome = Quiet | StartGreeting | Gone

  /** One event on the screen's event loop. */
  datatype Event =
    | Frame(numFaces: int, at: int)   // the detector reported numFaces for a frame
    | FoundFires(at: int)             // the found checker is delivered
    | LostFires(at: int)              // the lost checker is delivered
    | Resume                          // the screen is resumed

  function Initial(): State {
    State(0, 0, [], [])
  }

  /** The invariant every operation keeps. */
  predicate Inv(s: State) {
    && (s.lastFaceLostTime != 0 ==> s.lastFaceFoundTime != 0)
    && |s.foundCallbacks| <= 1
    && |s.lostCallbacks| <= 1
    && (s.lastFaceFoundTime == 0 ==> s.foundCallbacks == [])
    && (s.lastFaceLostTime == 0 ==> s.lostCallbacks == [])
    && (s.foundCallbacks != [] ==> s.foundCallbacks[0] == s.lastFaceFoundTime + MIN_FACE_FOUND_PERIOD)
    && (s.lostCallbacks != [] ==> s.lostCallbacks[0] == s.lastFaceLostTime + MAX_FACE_MISSING_PERIOD)
  }

  /** cancelLostFace: remove the lost checker and clear the loss time. */
  function CancelLostFace(s: State): (r: State)
    ensures r.lastFaceFoundTime == s.lastFaceFoundTime && r.foundCallbacks == s.foundCallbacks
    ensures r.lastFaceLostTime == 0 && r.lostCallbacks == []
    ensures Inv(s) ==> Inv(r)
  {
    s.(lastFaceLostTime := 0, lostCallbacks := [])
  }

  /** seCancelaTodo: remove the found checker, clear the found time, then cancelLostFace. */
  function CancelAll(s: State): (r: State)
    ensures r == Initial() && Inv(r)
  {
    CancelLostFace(s.(lastFaceFoundTime := 0, foundCallbacks := []))
  }

  /** onResume, as far as the debounce is concerned. */
  function OnResume(s: State): (r: State)
    ensures r == Initial()
  {
    CancelAll(s)
  }

  /** The detector's success listener, for a frame with numFaces faces seen at time now. */
  function OnSuccess(s: State, numFaces: int, now: int): (r: State)
    // a face seen while none was found opens an episode and posts exactly one found checker
    ensures numFaces > 0 && s.lastFaceFoundTime == 0 ==>
      r.lastFaceFoundTime == now && r.foundCallbacks == s.foundCallbacks + [now + MIN_FACE_FOUND_PERIOD]
    // a face seen during an episode keeps its start time and its found checker
    ensures numFaces > 0 && s.lastFaceFoundTime != 0 ==>
      r.lastFaceFoundTime == s.lastFaceFoundTime && r.foundCallbacks == s.foundCallbacks
    // ... and cancels a pending loss
    ensures numFaces > 0 && s.lastFaceLostTime != 0 && s.lastFaceFoundTime != 0 ==>
      r.lastFaceLostTime == 0 && r.lostCallbacks == []
    // ... and otherwise leaves the lost side as it was
    ensures numFaces > 0 && !(s.lastFaceFoundTime != 0 && s.lastFaceLostTime != 0) ==>
      r.lastFaceLostTime == s.lastFaceLostTime && r.lostCallbacks == s.lostCallbacks
    // no face: the found side is never touched
    ensures numFaces <= 0 ==>
      r.lastFaceFoundTime == s.lastFaceFoundTime && r.foundCallbacks == s.foundCallbacks
    // no face after a face, with no loss pending: the loss starts now, one lost checker is posted
    ensures numFaces <= 0 && s.lastFaceFoundTime != 0 && s.lastFaceLostTime == 0 ==>
      r.lastFaceLostTime == now && r.lostCallbacks == s.lostCallbacks + [now + MAX_FACE_MISSING_PERIOD]
    // no face otherwise: nothing changes
    ensures numFaces <= 0 && !(s.lastFaceFoundTime != 0 && s.lastFaceLostTime == 0) ==> r == s
    ensures Inv(s) && now > 0 ==> Inv(r)
  {
    if numFaces > 0 then
      if s.lastFaceFoundTime == 0 then
        s.(lastFaceFoundTime := now, foundCallbacks := s.foundCallbacks + [now + MIN_FACE_FOUND_PERIOD])
      else if s.lastFaceLostTime != 0 then
        CancelLostFace(s)
      else
        s
    else if s.lastFaceFoundTime != 0 && s.lastFaceLostTime == 0 then
      s.(lastFaceLostTime := now, lostCallbacks := s.lostCallbacks + [now + MAX_FACE_MISSING_PERIOD])
    else
      s
  }

  /** The time test of foundFacePeriodFinishedChecker. */
  predicate FoundPeriodPassed(s: State, now: int) {
    now > s.lastFaceFoundTime + MIN_FACE_FOUND_PERIOD - SLACK
  }

  /** The time test of lostFacePeriodFinishedChecker. */
  predicate LostPeriodPassed(s: State, now: int) {
    now > s.lastFaceLostTime + MAX_FACE_MISSING_PERIOD - SLACK
  }

  /** Delivery of the found checker at time now: the callback is consumed, and the
      greeting starts when the time test passes. No timestamp changes. */
  function FireFound(s: State, now: int): (r: (State, bool))
    requires s.foundCallbacks != []
    ensures r.1 <==> FoundPeriodPassed(s, now)
    ensures r.0.lastFaceFoundTime == s.lastFaceFoundTime && r.0.lastFaceLostTime == s.lastFaceLostTime
    ensures r.0.lostCallbacks == s.lostCallbacks && |r.0.foundCallbacks| == |s.foundCallbacks| - 1
    ensures Inv(s) ==> Inv(r.0) && r.0.foundCallbacks == []
  {
    var consumed := s.(foundCallbacks := s.foundCallbacks[1..]);
    (consumed, FoundPeriodPassed(s, now))
  }

  /** Delivery of the lost checker at time now: the callback is consumed, and when the
      time test passes everything is cancelled (the face is gone). */
  function FireLost(s: State, now: int): (r: (State, bool))
    requires s.lostCallbacks != []
    ensures r.1 <==> LostPeriodPassed(s, now)
    ensures r.1 ==> r.0 == Initial()
    ensures !r.1 ==> r.0 == s.(lostCallbacks := s.lostCallbacks[1..])
    ensures Inv(s) && r.1 ==> Inv(r.0)
  {
    var consumed := s.(lostCallbacks := s.lostCallbacks[1..]);
    if LostPeriodPassed(s, now) then (CancelAll(consumed), true) else (consumed, false)
  }

  /** One event. A checker event for a callback that is not posted cannot be delivered
      by the event loop, so it changes nothing. */
  function Apply(s: State, e: Event): (State, Outcome) {
    match e
    case Frame(n, t) => (OnSuccess(s, n, t), Quiet)
    case FoundFires(t) =>
      if s.foundCallbacks == [] then (s, Quiet)
      else
        var r := FireFound(s, t);
        (r.0, if r.1 then StartGreeting else Quiet)
    case LostFires(t) =>
      if s.lostCallbacks == [] then (s, Quiet)
      else
        var r := FireLost(s, t);
        (r.0, if r.1 then Gone else Quiet)
    case Resume => (OnResume(s), Quiet)
  }

  /** The state after a sequence of events. */
  function Run(s: State, evs: seq<Event>): State
    decreases |evs|
  {
    if evs == [] then s else Apply(Run(s, evs[..|evs| - 1]), evs[|evs| - 1]).0
  }

  /** How many greetings a sequence of events starts. */
  function Greetings(s: State, evs: seq<Event>): nat
    decreases |evs|
  {
    if evs == [] then 0
    else
      var p := evs[..|evs| - 1];
      Greetings(s, p) + if Apply(Run(s, p), evs[|evs| - 1]).1 == StartGreeting then 1 else 0
  }

  /** How many resets (a resume, or a lost checker that finds the face gone) happen. */
  function Resets(s: State, evs: seq<Event>): nat
    decreases |evs|
  {
    if evs == [] then 0
    else
      var p := evs[..|evs| - 1];
      var e := evs[|evs| - 1];
      Resets(s, p) + if e == Resume || Apply(Run(s, p), e).1 == Gone then 1 else 0
  }

  /** Every frame carries a clock reading other than the "unset" value 0. */
  predicate FramesTimed(evs: seq<Event>) {
    forall i :: 0 <= i < |evs| && evs[i].Frame? ==> evs[i].at > 0
  }

  lemma ApplyKeepsInv(s: State, e: Event)
    requires Inv(s)
    requires e.Frame? ==> e.at > 0
    ensures Inv(Apply(s, e).0)
  {
  }

  /** Every sequence of events keeps the invariant. */
  lemma {:induction false} RunKeepsInv(s: State, evs: seq<Event>)
    requires Inv(s) && FramesTimed(evs)
    ensures Inv(Run(s, evs))
  {
    if evs != [] {
      var p := evs[..|evs| - 1];
      assert FramesTimed(p) by {
        forall i | 0 <= i < |p| && p[i].Frame? ensures p[i].at > 0 {
          assert p[i] == evs[i];
        }
      }
      RunKeepsInv(s, p);
      ApplyKeepsInv(Run(s, p), evs[|evs| - 1]);
    }
  }

  /** The greeting budget of a state: one for the pending found checker, or one for
      the episode not yet opened. */
  function Budget(s: State): nat {
    |s.foundCallbacks| + if s.lastFaceFoundTime == 0 then 1 else 0
  }

  lemma BudgetAtMostOne(s: State)
    requires Inv(s)
    ensures Budget(s) <= 1
  {
  }

  /** Every greeting spends the budget, and only a reset refills it. */
  lemma {:induction false} GreetingsWithinBudget(s: State, evs: seq<Event>)
    requires Inv(s) && FramesTimed(evs)
    ensures Greetings(s, evs) + Budget(Run(s, evs)) <= Budget(s) + Resets(s, evs)
  {
    if evs != [] {
      var p := evs[..|evs| - 1];
      var e := evs[|evs| - 1];
      assert FramesTimed(p) by {
        forall i | 0 <= i < |p| && p[i].Frame? ensures p[i].at > 0 {
          assert p[i] == evs[i];
        }
      }
      GreetingsWithinBudget(s, p);
      RunKeepsInv(s, p);
    }
  }

  /** The greeting starts at most once per episode: between two resets, at most one
      greeting. In particular, with no reset, at most one greeting in all. */
  lemma GreetingAtMostOncePerEpisode(s: State, evs: seq<Event>)
    requires Inv(s) && FramesTimed(evs)
    ensures Greetings(s, evs) <= 1 + Resets(s, evs)
    ensures Resets(s, evs) == 0 ==> Greetings(s, evs) <= 1
  {
    GreetingsWithinBudget(s, evs);
    BudgetAtMostOne(s);
  }

  /** Running a + b is running a, then b from where a left off. */
  lemma {:induction false} RunAppend(s: State, a: seq<Event>, b: seq<Event>)
    ensures Run(s, a + b) == Run(Run(s, a), b)
    ensures Greetings(s, a + b) == Greetings(s, a) + Greetings(Run(s, a), b)
    ensures Resets(s, a + b) == Resets(s, a) + Resets(Run(s, a), b)
    decreases |b|
  {
    if b == [] {
      assert a + b == a;
    } else {
      var b' := b[..|b| - 1];
      assert (a + b)[..|a + b| - 1] == a + b';
      assert (a + b)[|a + b| - 1] == b[|b| - 1];
      RunAppend(s, a, b');
    }
  }

  /** Inside a longer trace, a segment b with no reset starts at most one greeting,
      whatever came before it. */
  lemma SegmentGreetsAtMostOnce(s: State, a: seq<Event>, b: seq<Event>)
    requires Inv(s) && FramesTimed(a + b)
    requires Resets(Run(s, a), b) == 0
    ensures Greetings(s, a + b) <= Greetings(s, a) + 1
  {
    assert FramesTimed(a) by {
      forall i | 0 <= i < |a| && a[i].Frame? ensures a[i].at > 0 {
        assert a[i] == (a + b)[i];
      }
    }
    assert FramesTimed(b) by {
      forall i | 0 <= i < |b| && b[i].Frame? ensures b[i].at > 0 {
        assert b[i] == (a + b)[|a| + i];
      }
    }
    RunAppend(s, a, b);
    RunKeepsInv(s, a);
    GreetingAtMostOncePerEpisode(Run(s, a), b);
  }

  /** cancel-all twice is cancel-all once. */
  lemma CancelAllIdempotent(s: State)
    ensures CancelAll(CancelAll(s)) == CancelAll(s)
  {
  }

  /** A face flickering away and back (while its loss is still pending) keeps the
      episode: its start time and its found checker are unchanged, and no loss is pending. */
  lemma FlickerKeepsEpisode(s: State, n1: int, t1: int, n2: int, t2: int)
    requires Inv(s) && s.lastFaceFoundTime != 0
    requires n1 <= 0 && n2 > 0 && t1 > 0
    ensures var r := OnSuccess(OnSuccess(s, n1, t1), n2, t2);
      r.lastFaceFoundTime == s.lastFaceFoundTime && r.foundCallbacks == s.foundCallbacks &&
      r.lastFaceLostTime == 0 && r.lostCallbacks == []
  {
  }

  /** A checker delivered no earlier than its due time always passes its time test:
      the slack of 50 ms only matters when the event loop's clock and the wall clock
      disagree. */
  lemma OnTimeCheckersPass(s: State, now: int)
    requires Inv(s)
    ensures s.foundCallbacks != [] && now >= s.foundCallbacks[0] ==> FireFound(s, now).1
    ensures s.lostCallbacks != [] && now >= s.lostCallbacks[0] ==> FireLost(s, now).1
  {
  }

  /** A lost checker delivered before its time test passes is consumed but leaves the
      loss time set: with no lost checker left, further empty frames change nothing, so
      the face is never declared gone until a face is seen again or the screen resumes. */
  lemma EarlyLostCheckerStrandsLoss(s: State, now: int, n: int, t: int)
    requires Inv(s) && s.lostCallbacks != [] && !LostPeriodPassed(s, now)
    requires n <= 0
    ensures var r := FireLost(s, now).0;
      r.lastFaceLostTime != 0 && r.lostCallbacks == [] && OnSuccess(r, n, t) == r
  {
  }

  /** Some frame of evs reported a face at time t. */
  ghost predicate FaceSeenAt(evs: seq<Event>, t: int) {
    exists j :: 0 <= j < |evs| && evs[j].Frame? && evs[j].numFaces > 0 && evs[j].at == t
  }

  /** Some frame of evs reported no face at time t, and no later frame reported one. */
  ghost predicate AbsentSince(evs: seq<Event>, t: int) {
    exists j :: 0 <= j < |evs| && evs[j].Frame? && evs[j].numFaces <= 0 && evs[j].at == t &&
      forall k :: j < k < |evs| ==> !(evs[k].Frame? && evs[k].numFaces > 0)
  }

  /** Starting idle, the found time is the time of a frame that saw a face, and a
      pending loss time is the time of a frame that saw none, with no face seen since. */
  lemma {:induction false} TimestampsHaveWitnesses(evs: seq<Event>)
    requires FramesTimed(evs)
    ensures var s := Run(Initial(), evs);
      (s.lastFaceFoundTime != 0 ==> FaceSeenAt(evs, s.lastFaceFoundTime)) &&
      (s.lastFaceLostTime != 0 ==> AbsentSince(evs, s.lastFaceLostTime))
  {
    if evs != [] {
      var n := |evs| - 1;
      var p := evs[..n];
      var e := evs[n];
      assert FramesTimed(p) by {
        forall i | 0 <= i < |p| && p[i].Frame? ensures p[i].at > 0 {
          assert p[i] == evs[i];
        }
      }
      TimestampsHaveWitnesses(p);
      RunKeepsInv(Initial(), p);
      var s0 := Run(Initial(), p);
      var s := Run(Initial(), evs);
      assert s == Apply(s0, e).0;
      if s.lastFaceFoundTime != 0 {
        if s.lastFaceFoundTime == s0.lastFaceFoundTime && s0.lastFaceFoundTime != 0 {
          var j :| 0 <= j < |p| && p[j].Frame? && p[j].numFaces > 0 && p[j].at == s0.lastFaceFoundTime;
          assert evs[j] == p[j];
        } else {
          assert e.Frame? && e.numFaces > 0 && e.at == s.lastFaceFoundTime;
          assert evs[n] == e;
        }
      }
      if s.lastFaceLostTime != 0 {
        if s0.lastFaceLostTime != 0 && s.lastFaceLostTime == s0.lastFaceLostTime {
          var j :| 0 <= j < |p| && p[j].Frame? && p[j].numFaces <= 0 && p[j].at == s0.lastFaceLostTime &&
            forall k :: j < k < |p| ==> !(p[k].Frame? && p[k].numFaces > 0);
          assert !(e.Frame? && e.numFaces > 0);
          assert evs[j] == p[j];
          forall k | j < k < |evs| ensures !(evs[k].Frame? && evs[k].numFaces > 0) {
            if k < n { assert evs[k] == p[k]; }
          }
        } else {
          assert e.Frame? && e.numFaces <= 0 && e.at == s.lastFaceLostTime;
          assert evs[n] == e;
        }
      }
    }
  }

  /** Starting idle, the greeting only starts more than 2950 ms after a frame that saw a face. */
  lemma GreetingFollowsPresence(evs: seq<Event>, now: int)
    requires FramesTimed(evs)
    requires Apply(Run(Initial(), evs), FoundFires(now)).1 == StartGreeting
    ensures exists t :: FaceSeenAt(evs, t) && now > t + MIN_FACE_FOUND_PERIOD - SLACK
  {
    RunKeepsInv(Initial(), evs);
    TimestampsHaveWitnesses(evs);
    var s := Run(Initial(), evs);
    assert FaceSeenAt(evs, s.lastFaceFoundTime);
  }

  /** Starting idle, the face is only declared gone more than 450 ms after a frame that
      saw no face, with no face seen since that frame. */
  lemma GoneFollowsAbsence(evs: seq<Event>, now: int)
    requires FramesTimed(evs)
    requires Apply(Run(Initial(), evs), LostFires(now)).1 == Gone
    ensures exists t :: AbsentSince(evs, t) && now > t + MAX_FACE_MISSING_PERIOD - SLACK
  {
    RunKeepsInv(Initial(), evs);
    TimestampsHaveWitnesses(evs);
    var s := Run(Initial(), evs);
    assert AbsentSince(evs, s.lastFaceLostTime);
  }
}
