// What runs of the race make of dials, answers, cancellations and the request.
module RaceRuns {
  import opened Basics
  import opened Race

  // ----- what the other steps do

  /** The steps of the reader and of the loop, of which only one begins an attempt. */
  lemma OtherStep(s: State, e: Step)
    requires Can(s, e) && !OfOneTry(e)
    ensures var r := Do(s, e);
      && r.hasWinner == s.hasWinner && r.received == s.received
      && r.tries == (if Begins(s, e) then s.tries + [NewTry(e.answer)] else s.tries)
  {
    hide CanRead;
    if e.LoopTurn? {
      hide Read, Buffered;
    } else if e.ReadReturns? || e.ReadHandled? {
      hide Turned, CanTurn, StopTimer;
    } else {
      hide Read, Buffered, Turned, CanTurn, StopTimer;
    }
  }

  /** The step begins an attempt. */
  predicate Begins(s: State, e: Step) {
    e.LoopTurn? && !s.stop && s.attempts < s.maxAttempts
  }

  /** Attempt `i` after a step is a new one, or what it was, or what the step made of it. */
  lemma After(s: State, e: Step, i: nat)
    requires Can(s, e) && i < |Do(s, e).tries|
    ensures var u := Do(s, e).tries[i];
      if i >= |s.tries| then u == NewTry(u.answer)
      else if OfOneTry(e) && e.i == i then Becomes(s, s.tries[i], u, e)
      else u == s.tries[i]
    ensures s.hasWinner ==> Do(s, e).hasWinner
  {
    if OfOneTry(e) {
      OneTry(s, e);
    } else {
      OtherStep(s, e);
    }
    hide Can, Do, Becomes;
  }

  // ----- an answer in time wins

  predicate Answered(t: Try) { t.reply.Arrived? && !t.reply.failed }

  /** An attempt that was answered and is over was too late, or another one has won. */
  predicate FairTo(s: State, t: Try) {
    Answered(t) && t.phase in {Ending, Ended} ==> s.hasWinner || t.clock.Expired?
  }

  predicate Fair(s: State) {
    forall i :: 0 <= i < |s.tries| ==> FairTo(s, s.tries[i])
  }

  lemma FairStep(s: State, e: Step)
    requires Inv(s) && Fair(s) && Can(s, e)
    ensures Fair(Do(s, e))
  {
    var r := Do(s, e);
    forall i | 0 <= i < |r.tries|
      ensures FairTo(r, r.tries[i])
    {
      After(s, e, i);
      if i < |s.tries| {
        assert FairTo(s, s.tries[i]) && TryOk(s, s.tries[i]);
        assert s.tries[i].won ==> s.hasWinner;
      }
      hide Can, Do, Inv, Fair;
      hide Carries, SendOk, Hooked;
    }
  }

  lemma {:induction false} FairRun(s: State, es: seq<Step>)
    requires Inv(s) && Fair(s) && Run(s, es).Some?
    ensures Fair(Run(s, es).value)
    decreases es
  {
    if es != [] {
      StepKeeps(s, es[0]);
      FairStep(s, es[0]);
      hide Inv, Can, Do, Fair;
      FairRun(Do(s, es[0]), es[1..]);
    }
  }

  /** A clock expires only when its timer does. */
  lemma {:induction false} ClockRun(s: State, es: seq<Step>, i: nat)
    requires Run(s, es).Some? && i < |Run(s, es).value.tries|
    requires Acts(i, Expires) !in es && (i < |s.tries| ==> !s.tries[i].clock.Expired?)
    ensures !Run(s, es).value.tries[i].clock.Expired?
    decreases es
  {
    if es != [] {
      var r := Do(s, es[0]);
      if i < |r.tries| { After(s, es[0], i); }
      assert es[0] in es && forall e :: e in es[1..] ==> e in es;
      assert es[0] != Acts(i, Expires);
      hide Can, Do;
      ClockRun(r, es[1..], i);
    }
  }

  /** In every run in which the timer of attempt `i` does not expire: if it is over although its first
      byte arrived without an error, some attempt has won, and this has been reported. */
  lemma AnswerInTimeWins(o: Options, service: Options, client: bytes, es: seq<Step>, s: State, i: nat)
    requires Run(Start(o, service, client), es) == Some(s) && Acts(i, Expires) !in es
    requires i < |s.tries| && s.tries[i].reply.Arrived? && !s.tries[i].reply.failed
    requires s.tries[i].phase.Ending? || s.tries[i].phase.Ended?
    ensures s.hasWinner && s.events == [Response]
    ensures exists k :: 0 <= k < |s.tries| && s.tries[k].won
  {
    var start := Start(o, service, client);
    StartKeeps(o, service, client);
    RunKeeps(start, es);
    FairRun(start, es);
    ClockRun(start, es, i);
    assert FairTo(s, s.tries[i]);
    assert Won(s.tries);
  }

  /** When the first byte of an attempt has arrived without an error, in time and before any other
      winner, the next turn makes it the winner. */
  lemma AnswerWinsAtOnce(o: Options, service: Options, client: bytes, es: seq<Step>, s: State, i: nat)
    requires Run(Start(o, service, client), es) == Some(s) && Acts(i, Expires) !in es
    requires i < |s.tries| && s.tries[i].phase.Racing? && s.tries[i].reply.Arrived? && !s.tries[i].reply.failed
    requires !s.hasWinner
    ensures Can(s, ReplyHandled(i))
    ensures var r := Do(s, ReplyHandled(i));
      r.hasWinner && r.tries[i].won && r.tries[i].phase.Winning? && r.events == [Response]
  {
    var start := Start(o, service, client);
    StartKeeps(o, service, client);
    RunKeeps(start, es);
    ClockRun(start, es, i);
    OneTry(s, ReplyHandled(i));
    StepKeeps(s, ReplyHandled(i));
  }

  // ----- attempts end for a reason

  predicate Settled(t: Try) {
    t.phase in {Winning, Relaying, Ending, Ended} ==> t.reply.Arrived?
  }

  /** Only a failed dial ends an attempt that was not answered. */
  lemma SettledStep(s: State, e: Step, i: nat)
    requires Can(s, e) && i < |Do(s, e).tries| && (i < |s.tries| ==> Settled(s.tries[i]))
    requires e.Dialed? && e.i == i ==> e.connected
    ensures Settled(Do(s, e).tries[i])
  {
    hide Do, CanRead, CanTurn, CanAct, CanUpRead, CanDownWrite, Hooked, InTime;
    After(s, e, i);
    assert OfOneTry(e) && e.i == i && (e.ReplyHandled? || e.HandsOver?) ==> s.tries[i].reply.Arrived?;
    assert e.TryEnds? && e.i == i ==> s.tries[i].phase in {Relaying, Ending};
    hide Can;
  }

  lemma {:induction false} DialRun(s: State, es: seq<Step>, i: nat)
    requires Run(s, es).Some? && i < |Run(s, es).value.tries|
    requires Dialed(i, false, false) !in es && Dialed(i, false, true) !in es && (i < |s.tries| ==> Settled(s.tries[i]))
    ensures Settled(Run(s, es).value.tries[i])
    decreases es
  {
    if es != [] {
      var r := Do(s, es[0]);
      assert es[0] in es && forall e :: e in es[1..] ==> e in es;
      assert es[0].Dialed? && es[0].i == i ==> es[0] == Dialed(i, es[0].connected, es[0].closeConn);
      if i < |r.tries| { SettledStep(s, es[0], i); }
      hide Can, Do, Settled;
      DialRun(r, es[1..], i);
    }
  }

  /** An attempt that has a connection is not over before the answer has come. */
  lemma ConnectedUntilAnswer(o: Options, service: Options, client: bytes, es: seq<Step>, s: State, i: nat)
    requires Run(Start(o, service, client), es) == Some(s) && i < |s.tries|
    requires Dialed(i, false, false) !in es && Dialed(i, false, true) !in es
    ensures s.tries[i].reply.Awaited? ==> s.tries[i].phase.Dialing? || s.tries[i].phase.Racing?
  {
    DialRun(Start(o, service, client), es, i);
    hide Run, Start;
  }

  // ----- cancellation

  predicate AllHooked(s: State) {
    forall i :: 0 <= i < |s.tries| ==> Hooked(s.tries[i])
  }

  lemma {:induction false} HookedRun(s: State, es: seq<Step>)
    requires AllHooked(s) && Run(s, es).Some?
    ensures AllHooked(Run(s, es).value)
    decreases es
  {
    if es != [] {
      var r := Do(s, es[0]);
      forall i | 0 <= i < |r.tries|
        ensures Hooked(r.tries[i])
      {
        After(s, es[0], i);
        hide Can, Do;
      }
      hide Can, Do, AllHooked;
      HookedRun(r, es[1..]);
    }
  }

  /** Whenever an attempt that waits for its answer is cancelled, its read is made to fail: this is done,
      or is the next thing that its hook does. */
  lemma CancelledStopsReading(o: Options, service: Options, client: bytes, s: State, i: nat)
    requires Reachable(o, service, client, s) && i < |s.tries| && s.tries[i].phase.Racing? && s.tries[i].cancelled
    ensures s.tries[i].readPast || (Can(s, Acts(i, HookRuns)) && Do(s, Acts(i, HookRuns)).tries[i].readPast)
  {
    var es :| Run(Start(o, service, client), es) == Some(s);
    HookedRun(Start(o, service, client), es);
    ReachableInv(o, service, client, s);
    assert TryOk(s, s.tries[i]) && Hooked(s.tries[i]);
  }

  /** When an attempt is decided its sender is told to stop, and the write that it waits for is made to fail. */
  lemma DecidedStopsWriting(o: Options, service: Options, client: bytes, s: State, i: nat)
    requires Reachable(o, service, client, s) && At(s, i, {Ending, Winning})
    ensures s.tries[i].srStop && s.tries[i].writePast
  {
    var es :| Run(Start(o, service, client), es) == Some(s);
    HookedRun(Start(o, service, client), es);
    assert Hooked(s.tries[i]);
  }

  // ----- failed writes

  /** Nothing but the relay writes to an attempt after a write of the request to it has failed. */
  lemma {:induction false} MutedRun(s: State, es: seq<Step>, i: nat)
    requires i < |s.tries| && Muted(s.tries[i]) && Run(s, es).Some? && NoRelay(es, i)
    ensures i < |Run(s, es).value.tries| && Run(s, es).value.tries[i].got == s.tries[i].got
    decreases es
  {
    if es != [] {
      var r := Do(s, es[0]);
      Remain(s, es[0], i);
      After(s, es[0], i);
      assert forall k :: 0 <= k < |es[1..]| ==> es[1..][k] == es[k + 1];
      hide Can, Do, Hooked, InTime;
      MutedRun(r, es[1..], i);
    }
  }

  /** The relay does not write to the attempt. */
  predicate NoRelay(es: seq<Step>, i: nat) {
    forall k :: 0 <= k < |es| ==> es[k].Acts? && es[k].i == i ==> !es[k].act.UpWrites?
  }

  lemma Remain(s: State, e: Step, i: nat)
    requires Can(s, e) && i < |s.tries|
    ensures i < |Do(s, e).tries|
  {
    if OfOneTry(e) { OneTry(s, e); } else { OtherStep(s, e); }
    hide Can, Do;
  }

  /** After a write to an attempt has failed, nothing more of the request is sent to it. */
  lemma FailedWriteIsLast(s: State, i: nat, k: nat, es: seq<Step>)
    requires Can(s, Acts(i, WriteReturns(k, true))) && Run(Do(s, Acts(i, WriteReturns(k, true))), es).Some?
    requires NoRelay(es, i)
    ensures var r := Do(s, Acts(i, WriteReturns(k, true)));
      i < |r.tries| && i < |Run(r, es).value.tries| && Run(r, es).value.tries[i].got == r.tries[i].got
  {
    OneTry(s, Acts(i, WriteReturns(k, true)));
    MutedRun(Do(s, Acts(i, WriteReturns(k, true))), es, i);
  }

  /** The relay to attempt `i` has ended in one direction, or in the other. */
  predicate CutUp(s: State, i: nat) {
    At(s, i, {Relaying, Ended}) && s.tries[i].won && s.tries[i].up.broken
  }

  predicate CutDown(s: State, i: nat) {
    At(s, i, {Relaying, Ended}) && s.tries[i].won && s.tries[i].down.broken
  }

  lemma ShapeOf(s: State, i: nat)
    requires Inv(s) && i < |s.tries|
    ensures Shape(s.tries[i]) && OneWinner(s.tries)
  {
    assert TryOk(s, s.tries[i]);
  }

  lemma RelayPhases(s: State, e: Step, i: nat)
    requires Can(s, e) && At(s, i, {Relaying, Ended})
    ensures At(Do(s, e), i, {Relaying, Ended})
  {
    hide Do, CanRead, CanTurn, CanAct, CanUpRead, CanDownWrite;
    Remain(s, e, i);
    After(s, e, i);
    hide Hooked, InTime;
  }

  lemma CutUpStep(s: State, e: Step, i: nat)
    requires Inv(s) && Can(s, e) && CutUp(s, i)
    ensures CutUp(Do(s, e), i) && Do(s, e).tries[i].got == s.tries[i].got
  {
    hide Inv, Can, Do, Hooked, InTime, CutDown;
    RelayPhases(s, e, i);
    After(s, e, i);
    ShapeOf(s, i);
  }

  lemma CutDownStep(s: State, e: Step, i: nat)
    requires Inv(s) && Can(s, e) && CutDown(s, i)
    ensures CutDown(Do(s, e), i) && Do(s, e).received == s.received
  {
    hide Inv, Can, Do, Hooked, InTime, CutUp;
    RelayPhases(s, e, i);
    After(s, e, i);
    if OfOneTry(e) {
      OneTry(s, e);
      ShapeOf(s, e.i);
    } else {
      OtherStep(s, e);
    }
  }

  lemma {:induction false} CutRun(s: State, es: seq<Step>, i: nat)
    requires Inv(s) && Run(s, es).Some?
    ensures CutUp(s, i) ==> CutUp(Run(s, es).value, i) && Run(s, es).value.tries[i].got == s.tries[i].got
    ensures CutDown(s, i) ==> Run(s, es).value.received == s.received
    decreases es
  {
    if es != [] {
      StepKeeps(s, es[0]);
      if CutUp(s, i) { CutUpStep(s, es[0], i); }
      if CutDown(s, i) { CutDownStep(s, es[0], i); }
      hide Inv, Can, Do, CutUp, CutDown;
      CutRun(Do(s, es[0]), es[1..], i);
    }
  }

  /** After a write of the relay has failed or was short, nothing more is written in that direction. */
  lemma FailedRelayWriteIsLast(o: Options, service: Options, client: bytes, s: State, e: Step, i: nat, es: seq<Step>)
    requires Reachable(o, service, client, s) && Can(s, e) && Run(Do(s, e), es).Some? && i < |s.tries|
    ensures var r, end := Do(s, e), Run(Do(s, e), es).value;
      && (e.Acts? && e.i == i && e.act.UpWrites? && (e.act.failed || e.act.k < |s.tries[i].up.held|) ==>
            i < |r.tries| && i < |end.tries| && end.tries[i].got == r.tries[i].got)
      && (e.DownWrites? && e.i == i && (e.failed || e.k < |s.tries[i].down.held|) ==> end.received == r.received)
  {
    hide Reachable, Inv, Can, Do, Hooked, InTime;
    ReachableInv(o, service, client, s);
    StepKeeps(s, e);
    ShapeOf(s, i);
    Remain(s, e, i);
    After(s, e, i);
    CutRun(Do(s, e), es, i);
  }

  // ----- when attempts begin

  /** An attempt begins exactly when the loop is free to begin one: it has not been stopped, the interval
      is over, there is room for one more, and not all attempts were made. */
  lemma BeginsIff(o: Options, service: Options, client: bytes, s: State, answer: bytes)
    requires Reachable(o, service, client, s)
    ensures Can(s, LoopTurn(answer)) && |Do(s, LoopTurn(answer)).tries| == |s.tries| + 1 <==>
      && s.loop.Checking? && !s.hasWinner && !s.read.ReadOver? && s.timer.Off?
      && Live(s.tries) < Effective(o.parallel, service.parallel, 1)
      && |s.tries| < Effective(o.maxAttempts, service.maxAttempts, 30)
  {
    ReachableInv(o, service, client, s);
    hide Live, Won, OneWinner, TryOk, Reachable;
  }

  /** The loop is in the middle of an interval, or it has stopped for good. */
  predicate Held(s: State) {
    s.loop.Restarting? || s.loop.Draining? || s.loop.LoopOver? || s.timer.Running?
  }

  lemma HeldStep(s: State, e: Step)
    requires Inv(s) && Held(s) && Can(s, e) && !e.TimerFires?
    ensures Held(Do(s, e)) && |Do(s, e).tries| == |s.tries|
  {
    assert Timing(s) && Request(s);
    if OfOneTry(e) {
      OneTry(s, e);
      hide Can, Do;
    } else {
      OtherStep(s, e);
      hide CanRead, Inv;
    }
  }

  /** After an attempt has begun, none begins before the interval timer has run out. */
  lemma {:induction false} IntervalBetween(s: State, es: seq<Step>)
    requires Inv(s) && Held(s) && Run(s, es).Some? && TimerFires !in es
    ensures |Run(s, es).value.tries| == |s.tries|
    decreases es
  {
    if es != [] {
      assert es[0] in es && forall e :: e in es[1..] ==> e in es;
      StepKeeps(s, es[0]);
      HeldStep(s, es[0]);
      hide Inv, Can, Do, Held;
      IntervalBetween(Do(s, es[0]), es[1..]);
    }
  }

  /** Between the beginnings of two attempts the interval timer runs out. */
  lemma AttemptsApart(o: Options, service: Options, client: bytes, s: State, answer: bytes, es: seq<Step>)
    requires Reachable(o, service, client, s) && Can(s, LoopTurn(answer))
    requires var r := Do(s, LoopTurn(answer)); |r.tries| > |s.tries| && Run(r, es).Some?
    requires |Run(Do(s, LoopTurn(answer)), es).value.tries| > |s.tries| + 1
    ensures TimerFires in es
  {
    ReachableInv(o, service, client, s);
    StepKeeps(s, LoopTurn(answer));
    OtherStep(s, LoopTurn(answer));
    var r := Do(s, LoopTurn(answer));
    assert Held(r);
    hide Inv, Can, Do, Held, Reachable;
    if TimerFires !in es { IntervalBetween(r, es); }
  }

  // ----- the request

  predicate Open(s: State) {
    match s.read
    case Reading => true
    case HasRead(_, failed) => !failed
    case ReadOver => |s.data| >= MAX_REQUEST
  }

  lemma OpenStep(s: State, e: Step)
    requires Open(s) && Can(s, e) && (e.ReadReturns? ==> !e.failed)
    ensures Open(Do(s, e))
  {
    if OfOneTry(e) {
      OneTry(s, e);
      hide Can, Do;
    } else {
      hide CanRead;
    }
  }

  /** No read from the client has failed. */
  predicate ReadsWell(es: seq<Step>) {
    forall k :: 0 <= k < |es| ==> (es[k].ReadReturns? ==> !es[k].failed)
  }

  lemma {:induction false} OpenRun(s: State, es: seq<Step>)
    requires Open(s) && Run(s, es).Some? && ReadsWell(es)
    ensures Open(Run(s, es).value)
    decreases es
  {
    if es != [] {
      assert forall k :: 0 <= k < |es[1..]| ==> es[1..][k] == es[k + 1];
      OpenStep(s, es[0]);
      hide Can, Do, Open;
      OpenRun(Do(s, es[0]), es[1..]);
    }
  }

  /** Unless a read fails, the request is read until it is too large. */
  lemma RequestIsRead(o: Options, service: Options, client: bytes, es: seq<Step>, s: State)
    requires Run(Start(o, service, client), es) == Some(s) && ReadsWell(es)
    ensures s.read.ReadOver? ==> |s.data| >= 32768
    ensures !s.read.ReadOver? ==> |s.data| < 32768
  {
    OpenRun(Start(o, service, client), es);
    ReachableInv(o, service, client, s);
  }

  /** Reads from the client are made to fail by a winner and by a dial that asks to close, until the
      connection is handed over. */
  lemma ReadsMadeToFail(s: State, e: Step)
    requires Can(s, e)
    ensures Do(s, e).pipePast <==>
      Closes(e) || (e.ReplyHandled? && InTime(s, s.tries[e.i])) || (s.pipePast && !e.HandsOver?)
    ensures s.pipePast && e.ReadReturns? ==> e.k == 0 && e.failed
  {
    if OfOneTry(e) {
      OneTry(s, e);
      hide Can, Do, Becomes;
    }
  }

  /** Whatever of the request was read can be brought to an attempt that is connected. */
  lemma RequestReaches(s: State, i: nat) returns (es: seq<Step>)
    requires Inv(s) && At(s, i, {Racing}) && s.tries[i].write.NoWrite? && !s.tries[i].srDone
    ensures Run(s, es).Some?
    ensures At(Run(s, es).value, i, {Racing}) && Run(s, es).value.tries[i].got == s.data
  {
    var t := s.tries[i];
    assert TryOk(s, t);
    assert s.data == s.data[..t.sent] + s.data[t.sent..];
    if t.sent == |s.data| {
      es := [];
    } else {
      hide Inv, Shape;
      var n := |s.data| - t.sent;
      var r := Do(s, Acts(i, Sends));
      Prepended(s, Acts(i, Sends), [Acts(i, WriteReturns(n, false))]);
      Prepended(r, Acts(i, WriteReturns(n, false)), []);
      es := [Acts(i, Sends)] + [Acts(i, WriteReturns(n, false))];
    }
  }

  // ----- the relay can deliver everything

  function Least(a: nat, b: nat): nat { if a < b then a else b }

  /** What the client has written and the winner has not got yet arrives there, and then the direction ends. */
  lemma {:induction false} UpDelivers(s: State, i: nat) returns (es: seq<Step>)
    requires Inv(s) && At(s, i, {Relaying}) && !s.tries[i].up.broken && !s.pipePast
    ensures Run(s, es).Some?
    ensures At(Run(s, es).value, i, {Relaying}) && Run(s, es).value.tries[i].got == s.client
    decreases |s.tries[i].up.held| + 2 * |s.tries[i].up.replay| + 2 * |Rest(s.client, s.taken)|
  {
    var t := s.tries[i];
    assert TryOk(s, t);
    es := [];
    if t.got != s.client {
      var e := UpStep(s, i);
      UpStepDelivers(s, i);
      StepKeeps(s, e);
      hide Can, Do, Inv, UpStep;
      es := UpDelivers(Do(s, e), i);
      Prepended(s, e, es);
      es := [e] + es;
    }
  }

  function UpStep(s: State, i: nat): Step
    requires i < |s.tries|
  {
    var f := s.tries[i].up;
    if f.held != [] then Acts(i, UpWrites(|f.held|, false))
    else UpReads(i, Least(RELAY_SIZE, if f.replay != [] then |f.replay| else |Rest(s.client, s.taken)|))
  }

  lemma UpStepDelivers(s: State, i: nat)
    requires Inv(s) && At(s, i, {Relaying}) && !s.tries[i].up.broken && !s.pipePast && s.tries[i].got != s.client
    ensures Can(s, UpStep(s, i))
    ensures var r := Do(s, UpStep(s, i));
      && At(r, i, {Relaying}) && !r.tries[i].up.broken && !r.pipePast && r.client == s.client
      && |r.tries[i].up.held| + 2 * |r.tries[i].up.replay| + 2 * |Rest(r.client, r.taken)|
         < |s.tries[i].up.held| + 2 * |s.tries[i].up.replay| + 2 * |Rest(s.client, s.taken)|
  {
    var t := s.tries[i];
    assert TryOk(s, t) && t.won && s.handed;
    assert s.taken <= |s.client|;
    assert t.got + [] + [] + [] == t.got;
    hide Inv, TryOk, Shape;
  }

  /** What the winner has sent, the first byte included, arrives at the client. */
  lemma {:induction false} DownDelivers(s: State, i: nat) returns (es: seq<Step>)
    requires Inv(s) && At(s, i, {Relaying}) && !s.tries[i].down.broken
    ensures Run(s, es).Some?
    ensures At(Run(s, es).value, i, {Relaying}) && Run(s, es).value.received == s.tries[i].answer
    decreases DownLeft(s.tries[i])
  {
    var t := s.tries[i];
    es := [];
    if s.received != t.answer {
      var e := DownStep(t, i);
      DownStepDelivers(s, i);
      StepKeeps(s, e);
      hide Can, Do, Inv, DownStep, DownLeft;
      es := DownDelivers(Do(s, e), i);
      Prepended(s, e, es);
      es := [e] + es;
    }
  }

  function DownLeft(t: Try): nat {
    |t.down.held| + 2 * |t.down.replay| + 2 * |Rest(t.answer, t.heard)|
  }

  function DownStep(t: Try, i: nat): Step {
    var f := t.down;
    if f.held != [] then DownWrites(i, |f.held|, false)
    else Acts(i, DownReads(Least(RELAY_SIZE, if f.replay != [] then |f.replay| else |Rest(t.answer, t.heard)|)))
  }

  lemma DownStepDelivers(s: State, i: nat)
    requires Inv(s) && At(s, i, {Relaying}) && !s.tries[i].down.broken && s.received != s.tries[i].answer
    ensures Can(s, DownStep(s.tries[i], i))
    ensures var r := Do(s, DownStep(s.tries[i], i));
      && At(r, i, {Relaying}) && !r.tries[i].down.broken && r.tries[i].answer == s.tries[i].answer
      && DownLeft(r.tries[i]) < DownLeft(s.tries[i])
  {
    hide Inv, TryOk, Shape, Carries;
    DownPending(s, i);
    if s.tries[i].down.held != [] { DownWriteDelivers(s, i); } else { DownReadDelivers(s, i); }
  }

  /** There is something to write or to read as long as not everything has arrived. */
  lemma DownPending(s: State, i: nat)
    requires Inv(s) && At(s, i, {Relaying}) && s.received != s.tries[i].answer
    ensures var t := s.tries[i];
      && t.heard <= |t.answer| && !t.down.over
      && (t.down.held != [] || t.down.replay != [] || Rest(t.answer, t.heard) != [])
  {
    var t := s.tries[i];
    assert TryOk(s, t) && t.won && s.handed;
    assert s.received + [] + [] + [] == s.received;
    hide Inv, Rest;
  }

  lemma DownWriteDelivers(s: State, i: nat)
    requires At(s, i, {Relaying}) && !s.tries[i].down.broken && s.tries[i].down.held != []
    ensures Can(s, DownStep(s.tries[i], i))
    ensures var r := Do(s, DownStep(s.tries[i], i));
      && At(r, i, {Relaying}) && !r.tries[i].down.broken && r.tries[i].answer == s.tries[i].answer
      && DownLeft(r.tries[i]) < DownLeft(s.tries[i])
  {
    hide Rest;
  }

  lemma DownReadDoes(s: State, i: nat, k: nat)
    requires At(s, i, {Relaying}) && CanPull(s.tries[i].down, Rest(s.tries[i].answer, s.tries[i].heard), k)
    ensures Can(s, Acts(i, DownReads(k)))
    ensures var t := s.tries[i];
      At(Do(s, Acts(i, DownReads(k))), i, {Relaying}) && Do(s, Acts(i, DownReads(k))).tries[i] ==
        t.(down := Pulled(t.down, Rest(t.answer, t.heard), k), heard := t.heard + Consumed(t.down, k))
  {
    hide Rest, Pulled, Consumed, CanPull;
  }

  lemma DownReadDelivers(s: State, i: nat)
    requires At(s, i, {Relaying}) && s.tries[i].down.held == []
    requires !s.tries[i].down.broken && !s.tries[i].down.over && s.tries[i].heard <= |s.tries[i].answer|
    requires s.tries[i].down.replay != [] || Rest(s.tries[i].answer, s.tries[i].heard) != []
    ensures Can(s, DownStep(s.tries[i], i))
    ensures var r := Do(s, DownStep(s.tries[i], i));
      && At(r, i, {Relaying}) && !r.tries[i].down.broken && r.tries[i].answer == s.tries[i].answer
      && DownLeft(r.tries[i]) < DownLeft(s.tries[i])
  {
    hide Can, Do, Rest, Pulled, Consumed;
    var t := s.tries[i];
    var rest := Rest(t.answer, t.heard);
    var k := DownStep(t, i).act.k;
    assert CanPull(t.down, rest, k);
    DownReadDoes(s, i, k);
    RestShrinks(t.answer, t.heard, Consumed(t.down, k));
    PullLess(t.down, rest, k);
  }

  lemma PullLess(f: Flow, rest: bytes, k: nat)
    requires CanPull(f, rest, k)
    ensures var g := Pulled(f, rest, k);
      |g.held| + 2 * |g.replay| + 2 * |rest| < |f.held| + 2 * |f.replay| + 2 * |rest| + 2 * Consumed(f, k)
    ensures Consumed(f, k) <= |rest| && !Pulled(f, rest, k).broken
  {
  }

  lemma RestShrinks(b: bytes, n: nat, k: nat)
    requires n <= |b|
    ensures k <= |Rest(b, n)| ==> |Rest(b, n + k)| == |Rest(b, n)| - k
  {
  }
}
