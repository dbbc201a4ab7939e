// The relay between two connections: two copiers and a timer loop that talk
// over a channel with room for one message.
module Relays {
  import opened Basics

  const CONN_IDLE := 300_000_000_000
  const NOTICE := -1

  datatype Options = Options(connIdle: int, uplinkIdle: int, downlinkIdle: int)

  function Chosen(o: Options, service: Options): Options {
    Options(Effective(o.connIdle, service.connIdle, CONN_IDLE),
            Effective(o.uplinkIdle, service.uplinkIdle, 0),
            Effective(o.downlinkIdle, service.downlinkIdle, 0))
  }

  /** Where a copier reads from. */
  datatype Side = Remote | Local

  datatype At = Copying | Sending | Finishing | Over

  /** `clean` says that the copy met the end of its stream without an error, `past` that its reads now fail at once. */
  datatype Copier = Copier(at: At, clean: bool, idle: int, past: bool)

  /** `eofs` are the timeouts that the loop has received, and `active` is when a copier last read something
      or met the end of its stream. */
  datatype State = State(
    connIdle: int, remote: Copier, local: Copier, n: nat, slot: Option<int>, closed: bool, panicked: bool,
    td: int, now: int, since: int, due: int, expired: bool, returned: bool, active: int, eofs: seq<int>)

  function Start(o: Options): State {
    State(o.connIdle, Copier(Copying, false, o.uplinkIdle, false), Copier(Copying, false, o.downlinkIdle, false),
          0, None, false, false, o.connIdle, 0, 0, o.connIdle, false, false, 0, [])
  }

  function Get(s: State, c: Side): Copier {
    if c.Remote? then s.remote else s.local
  }

  function Put(s: State, c: Side, x: Copier): State {
    if c.Remote? then s.(remote := x) else s.(local := x)
  }

  function Other(c: Side): Side {
    if c.Remote? then Local else Remote
  }

  datatype Step =
    | Notices(c: Side)
    | CopyEnds(c: Side, failed: bool)
    | Sends(c: Side)
    | Finishes(c: Side)
    | Receives
    | Expires
    | Returns
    | Ticks(d: nat)

  predicate Can(s: State, e: Step) {
    match e
    case Notices(c) => Get(s, c).at.Copying?
    case CopyEnds(c, _) => Get(s, c).at.Copying?
    case Sends(c) => Get(s, c).at.Sending? && (s.slot.None? || s.closed)
    case Finishes(c) => Get(s, c).at.Finishing?
    case Receives => !s.returned && s.slot.Some?
    case Expires => !s.returned && !s.expired && s.now >= s.due
    case Returns => !s.returned && s.slot.None? && s.closed
    case Ticks(_) => true
  }

  /** A read notice is dropped when the channel is full; a send on a closed channel panics. */
  function Noticed(s: State): State {
    if s.closed then s.(panicked := true) else if s.slot.None? then s.(slot := Some(NOTICE)) else s
  }

  /** A failed copy makes the reads of the other one fail. */
  function CopyEnded(s: State, c: Side, failed: bool): State {
    if failed then
      Put(Put(s, c, Get(s, c).(at := Finishing)), Other(c), Get(s, Other(c)).(past := true))
    else
      Put(s, c, Get(s, c).(at := Sending, clean := true))
  }

  function Sent(s: State, c: Side): State {
    if s.closed then s.(panicked := true)
    else Put(s, c, Get(s, c).(at := Finishing)).(slot := Some(Get(s, c).idle))
  }

  /** The copier that ends last closes the channel. */
  function Finished(s: State, c: Side): State {
    Put(s, c, Get(s, c).(at := Over)).(n := s.n + 1, closed := s.closed || s.n + 1 == 2)
  }

  /** A timeout takes effect, and either message restarts the timer unless it has expired. */
  function Received(s: State): State
    requires s.slot.Some?
  {
    var d := s.slot.value;
    var r := if d >= 0 then s.(slot := None, td := d, eofs := s.eofs + [d]) else s.(slot := None);
    if s.expired then r else r.(since := s.now, due := s.now + r.td)
  }

  function SetPast(s: State, past: bool): State {
    s.(remote := s.remote.(past := past), local := s.local.(past := past))
  }

  function Do(s: State, e: Step): State
    requires Can(s, e)
  {
    match e
    case Notices(c) => Noticed(s).(active := s.now)
    case CopyEnds(c, failed) => CopyEnded(s, c, failed)
    case Sends(c) => Sent(s, c).(active := s.now)
    case Finishes(c) => Finished(s, c)
    case Receives => Received(s)
    case Expires => SetPast(s, true).(expired := true)
    case Returns => SetPast(s, false).(returned := true)
    case Ticks(d) => s.(now := s.now + d)
  }

  // ----- what every step keeps

  predicate HasSent(c: Copier) {
    c.clean && c.at in {Finishing, Over}
  }

  /** The orders in which the timeouts that were sent may have been sent. */
  predicate InOrder(log: seq<int>, remote: Copier, local: Copier) {
    if HasSent(remote) && HasSent(local) then log == [remote.idle, local.idle] || log == [local.idle, remote.idle]
    else if HasSent(remote) then log == [remote.idle]
    else if HasSent(local) then log == [local.idle]
    else log == []
  }

  function Waiting(slot: Option<int>): seq<int> {
    if slot.Some? && slot.value >= 0 then [slot.value] else []
  }

  /** Every timeout that was sent has been received or is in the channel. */
  predicate Delivered(s: State) {
    InOrder(s.eofs + Waiting(s.slot), s.remote, s.local)
  }

  predicate CopierOk(c: Copier) {
    c.idle >= 0 && (c.at.Copying? ==> !c.clean) && (c.at.Sending? ==> c.clean)
  }

  /** A copy that has failed. */
  predicate Failed(c: Copier) {
    c.at in {Finishing, Over} && !c.clean
  }

  predicate Closing(s: State) {
    && !s.panicked
    && s.n == (if s.remote.at.Over? then 1 else 0) + (if s.local.at.Over? then 1 else 0)
    && (s.closed <==> s.n == 2)
    && (s.returned ==> s.closed && s.slot.None? && !s.remote.past && !s.local.past)
    && (!s.returned && Failed(s.remote) ==> s.local.past)
    && (!s.returned && Failed(s.local) ==> s.remote.past)
  }

  predicate Timing(s: State) {
    && s.td == (if s.eofs == [] then s.connIdle else s.eofs[|s.eofs| - 1])
    && s.since <= s.now && (!s.expired ==> s.due == s.since + s.td)
    && (s.expired ==> s.due <= s.now)
    && (s.expired && !s.returned ==> s.remote.past && s.local.past)
    && s.active <= s.now && (s.slot.None? && !s.expired ==> s.since >= s.active)
  }

  predicate Inv(s: State) {
    CopierOk(s.remote) && CopierOk(s.local) && Delivered(s) && Closing(s) && Timing(s)
  }

  lemma StartKeeps(o: Options, service: Options)
    ensures Inv(Start(Chosen(o, service)))
  {
  }

  lemma SentDelivers(s: State, c: Side)
    requires Inv(s) && Can(s, Sends(c)) && !s.closed
    ensures Delivered(Sent(s, c))
  {
    var r := Sent(s, c);
    hide Closing, Timing;
    assert r.eofs + Waiting(r.slot) == s.eofs + Waiting(s.slot) + [Get(s, c).idle];
  }

  lemma SentKeeps(s: State, c: Side)
    requires Inv(s) && Can(s, Sends(c))
    ensures !s.closed && Inv(Sent(s, c).(active := s.now))
  {
    SentDelivers(s, c);
    assert Delivered(Sent(s, c).(active := s.now));
    hide Delivered;
  }

  lemma ReceivedDelivers(s: State)
    requires Inv(s) && Can(s, Receives)
    ensures Delivered(Received(s))
  {
    var r := Received(s);
    hide Closing, Timing;
    assert r.eofs + Waiting(r.slot) == s.eofs + Waiting(s.slot);
    assert r.remote == s.remote && r.local == s.local;
    hide InOrder, Waiting;
  }

  lemma ReceivedKeeps(s: State)
    requires Inv(s) && Can(s, Receives)
    ensures Inv(Received(s))
  {
    ReceivedDelivers(s);
    hide Delivered;
  }

  /** A step that neither sends nor receives a timeout. */
  lemma OtherKeeps(s: State, r: State)
    requires Inv(s) && r.eofs == s.eofs && Waiting(r.slot) == Waiting(s.slot)
    requires HasSent(r.remote) == HasSent(s.remote) && HasSent(r.local) == HasSent(s.local)
    requires r.remote.idle == s.remote.idle && r.local.idle == s.local.idle
    requires CopierOk(r.remote) && CopierOk(r.local) && Closing(r) && Timing(r)
    ensures Inv(r)
  {
  }

  lemma NoticedKeeps(s: State, c: Side)
    requires Inv(s) && Can(s, Notices(c))
    ensures !s.closed && Inv(Noticed(s).(active := s.now))
  {
    OtherKeeps(s, Noticed(s).(active := s.now));
  }

  lemma CopyEndedKeeps(s: State, c: Side, failed: bool)
    requires Inv(s) && Can(s, CopyEnds(c, failed))
    ensures Inv(CopyEnded(s, c, failed))
  {
    hide Delivered;
    OtherKeeps(s, CopyEnded(s, c, failed));
  }

  lemma FinishedKeeps(s: State, c: Side)
    requires Inv(s) && Can(s, Finishes(c))
    ensures Inv(Finished(s, c))
  {
    hide Delivered;
    OtherKeeps(s, Finished(s, c));
  }

  lemma ClockKeeps(s: State, e: Step)
    requires Inv(s) && Can(s, e) && (e.Expires? || e.Returns? || e.Ticks?)
    ensures Inv(Do(s, e))
  {
    hide Delivered;
    OtherKeeps(s, Do(s, e));
  }

  lemma StepKeeps(s: State, e: Step)
    requires Inv(s) && Can(s, e)
    ensures Inv(Do(s, e))
  {
    hide Inv, Noticed, CopyEnded, Sent, Finished, Received;
    match e
    case Notices(c) => NoticedKeeps(s, c);
    case CopyEnds(c, failed) => CopyEndedKeeps(s, c, failed);
    case Sends(c) => SentKeeps(s, c);
    case Finishes(c) => FinishedKeeps(s, c);
    case Receives => ReceivedKeeps(s);
    case _ => ClockKeeps(s, e);
  }

  /** What no step changes. */
  predicate SameRun(s: State, r: State) {
    r.connIdle == s.connIdle && r.remote.idle == s.remote.idle && r.local.idle == s.local.idle
  }

  lemma StepFixes(s: State, e: Step)
    requires Can(s, e)
    ensures SameRun(s, Do(s, e))
  {
    match e
    case CopyEnds(c, failed) =>
    case Sends(c) =>
    case Finishes(c) =>
    case Receives =>
    case _ =>
  }

  // ----- whole runs

  function Run(s: State, es: seq<Step>): Option<State>
    decreases es
  {
    if es == [] then Some(s)
    else if Can(s, es[0]) then Run(Do(s, es[0]), es[1..])
    else None
  }

  lemma {:induction false} RunKeeps(s: State, es: seq<Step>)
    requires Inv(s) && Run(s, es).Some?
    ensures Inv(Run(s, es).value)
    ensures SameRun(s, Run(s, es).value)
    decreases es
  {
    if es != [] {
      StepKeeps(s, es[0]);
      StepFixes(s, es[0]);
      hide Inv, Can, Do;
      RunKeeps(Do(s, es[0]), es[1..]);
    }
  }

  ghost predicate Reachable(o: Options, service: Options, s: State) {
    exists es :: Run(Start(Chosen(o, service)), es) == Some(s)
  }

  lemma ReachableInv(o: Options, service: Options, s: State)
    requires Reachable(o, service, s)
    ensures Inv(s)
    ensures var c := Chosen(o, service);
      s.connIdle == c.connIdle && s.remote.idle == c.uplinkIdle && s.local.idle == c.downlinkIdle
  {
    var es :| Run(Start(Chosen(o, service)), es) == Some(s);
    StartKeeps(o, service);
    RunKeeps(Start(Chosen(o, service)), es);
  }

  /** No message follows the close of the channel. */
  lemma NoSendAfterClose(o: Options, service: Options, s: State, e: Step)
    requires Reachable(o, service, s)
    ensures !s.panicked && (s.closed && (e.Sends? || e.Notices?) ==> !Can(s, e))
  {
    ReachableInv(o, service, s);
  }

  /** The timeout in force is the last one received, whatever notices came in between. */
  lemma TimeoutInForce(o: Options, service: Options, s: State)
    requires Reachable(o, service, s)
    ensures s.td == (if s.eofs == [] then Chosen(o, service).connIdle else s.eofs[|s.eofs| - 1])
    ensures forall k :: 0 <= k < |s.eofs| ==>
      s.eofs[k] in {Chosen(o, service).uplinkIdle, Chosen(o, service).downlinkIdle}
    ensures |s.eofs| <= 2
  {
    ReachableInv(o, service, s);
    var log := s.eofs + Waiting(s.slot);
    assert forall k :: 0 <= k < |s.eofs| ==> s.eofs[k] == log[k];
  }

  /** Unless a message waits in the channel, the timer has been restarted since anything was read. */
  lemma ReadsRestartTimer(o: Options, service: Options, s: State)
    requires Reachable(o, service, s) && s.slot.None? && !s.expired
    ensures s.active <= s.since <= s.now && s.due == s.since + s.td
  {
    ReachableInv(o, service, s);
  }

  /** The timer can expire just when nothing was received for as long as the timeout in force; and if no
      message waits then, nothing was read either for so long. */
  lemma ExpiresWhenIdle(o: Options, service: Options, s: State)
    requires Reachable(o, service, s)
    ensures Can(s, Expires) <==> !s.returned && !s.expired && s.now - s.since >= s.td
    ensures Can(s, Expires) && s.slot.None? ==> s.now - s.active >= s.td
  {
    ReachableInv(o, service, s);
  }

  /** A copy that has failed, and a timer that has expired, make the reads of the other side fail. */
  lemma ReadsMadeToFail(o: Options, service: Options, s: State, c: Side)
    requires Reachable(o, service, s) && !s.returned && (s.expired || Failed(Get(s, Other(c))))
    ensures Get(s, c).past
  {
    ReachableInv(o, service, s);
  }

  /** The relay returns only after both copiers, with every timeout received and no deadline left: the
      uplink timeout for the end of the remote side, and the downlink timeout for that of the local side. */
  lemma ReturnsLast(o: Options, service: Options, s: State)
    requires Reachable(o, service, s) && s.returned
    ensures s.remote.at.Over? && s.local.at.Over? && !s.remote.past && !s.local.past
    ensures InOrder(s.eofs, s.remote, s.local)
    ensures s.remote.idle == Chosen(o, service).uplinkIdle && s.local.idle == Chosen(o, service).downlinkIdle
  {
    ReachableInv(o, service, s);
    assert s.eofs + Waiting(s.slot) == s.eofs;
  }

  /** A copier that waits for room in the channel gets it from the next receive. */
  lemma SenderProceeds(o: Options, service: Options, s: State, c: Side)
    requires Reachable(o, service, s) && Get(s, c).at.Sending?
    ensures Can(s, Sends(c)) || (Can(s, Receives) && Can(Do(s, Receives), Sends(c)))
  {
    ReachableInv(o, service, s);
  }

  /** Once no copier is copying, messages alone bring the relay to its end. */
  lemma NeverStuck(o: Options, service: Options, s: State)
    requires Reachable(o, service, s) && !s.returned && !s.remote.at.Copying? && !s.local.at.Copying?
    ensures Can(s, Receives) || Can(s, Returns) || exists c :: Can(s, Sends(c)) || Can(s, Finishes(c))
  {
    ReachableInv(o, service, s);
    if s.slot.None? && !s.closed {
      var c := if s.remote.at.Over? then Local else Remote;
      assert Can(s, Sends(c)) || Can(s, Finishes(c));
    }
  }

  function Steps(at: At): nat {
    match at case Copying => 9 case Sending => 6 case Finishing => 3 case Over => 0
  }

  /** A bound on the steps to the end. */
  function Left(s: State): nat {
    Steps(s.remote.at) + Steps(s.local.at) + (if s.slot.Some? then 1 else 0) + (if s.returned then 0 else 1)
  }

  /** Every step of that end but the passing of time brings it nearer. */
  lemma EndComesNearer(s: State, e: Step)
    requires Inv(s) && Can(s, e) && !s.remote.at.Copying? && !s.local.at.Copying?
    requires e.Sends? || e.Finishes? || e.Receives? || e.Returns?
    ensures Left(Do(s, e)) < Left(s)
  {
    assert e.Sends? ==> !s.closed;
    hide Inv;
    if e.Sends? {
      assert Left(Sent(s, e.c)) < Left(s);
    } else if e.Finishes? {
      assert Left(Finished(s, e.c)) < Left(s);
    } else if e.Receives? {
      assert Left(Received(s)) < Left(s);
    }
  }

  // ----- options, and a run from beginning to end

  /** An option of the call comes first, then that of the service; without either it is five minutes for
      both sides together and nothing for one side alone. */
  lemma OptionsInForce(o: Options, service: Options)
    ensures var c := Chosen(o, service);
      && c.connIdle == (if o.connIdle > 0 then o.connIdle else if service.connIdle > 0 then service.connIdle
                        else 5 * 60 * 1_000_000_000)
      && c.uplinkIdle == (if o.uplinkIdle > 0 then o.uplinkIdle
                          else if service.uplinkIdle > 0 then service.uplinkIdle else 0)
      && c.downlinkIdle == (if o.downlinkIdle > 0 then o.downlinkIdle
                            else if service.downlinkIdle > 0 then service.downlinkIdle else 0)
  {
  }

  lemma Prepended(s: State, e: Step, es: seq<Step>)
    requires Can(s, e)
    ensures Run(s, [e] + es) == Run(Do(s, e), es)
  {
    assert ([e] + es)[1..] == es;
    hide Can, Do;
  }

  /** How one copier that is copying gets to its end, with its timeout received. */
  lemma EndsCleanly(s: State, c: Side) returns (es: seq<Step>)
    requires Inv(s) && Get(s, c).at.Copying? && s.slot.None? && !s.returned && !s.expired
    ensures Run(s, es).Some?
    ensures var r := Run(s, es).value;
      && Get(r, c).at.Over? && Get(r, Other(c)) == Get(s, Other(c)) && r.slot.None? && !r.returned && !r.expired
      && r.td == Get(s, c).idle && r.eofs == s.eofs + [Get(s, c).idle]
  {
    var steps := [CopyEnds(c, false), Sends(c), Receives, Finishes(c)];
    var s1 := Do(s, steps[0]);
    StepKeeps(s, steps[0]);
    var s2 := Do(s1, steps[1]);
    var s3 := Do(s2, steps[2]);
    var s4 := Do(s3, steps[3]);
    assert Run(s4, []) == Some(s4);
    hide Inv;
    Prepended(s3, steps[3], []);
    Prepended(s2, steps[2], [steps[3]]);
    Prepended(s1, steps[1], [steps[2], steps[3]]);
    Prepended(s, steps[0], [steps[1], steps[2], steps[3]]);
    assert [steps[2]] + [steps[3]] == [steps[2], steps[3]];
    assert [steps[1]] + [steps[2], steps[3]] == [steps[1], steps[2], steps[3]];
    assert [steps[0]] + [steps[1], steps[2], steps[3]] == steps;
    es := steps;
  }
}
