// Racing connection attempts: one client request is fed to every attempt, and
// the first attempt that answers takes the connection over.
//
// Every turn of the single-threaded executor is one step, and so is every
// completion of a goroutine, timer or cancellation; any order is allowed.
module Race {
  import opened Basics

  const MAX_REQUEST := 32768
  const READ_SIZE := 8192
  const RELAY_SIZE := 32768

  // ----- one attempt

  datatype Phase = Dialing | Racing | Ending | Winning | Relaying | Ended

  /** The write that the attempt's sender waits for. */
  datatype WriteOp = NoWrite | Writing(chunk: bytes) | Wrote(count: nat, failed: bool)

  /** The one-byte read that decides the race. */
  datatype Reply = Awaited | Arrived(first: byte, failed: bool)

  datatype Clock = Ticking | Stopped | Expired

  /** The function that runs when the attempt's context is cancelled. */
  datatype Hook = Unset | Armed | Started | Posted | Finished

  /** One direction of the relay: what it reads first, and what it holds. */
  datatype Flow = Flow(replay: bytes, held: bytes, broken: bool, over: bool)

  /** `answer` is all that the remote will ever send; `heard` of it has been read. */
  datatype Try = Try(
    phase: Phase, won: bool, clock: Clock, cancelled: bool, hook: Hook, reply: Reply,
    sent: nat, write: WriteOp, srStop: bool, srDone: bool, got: bytes,
    readPast: bool, writePast: bool, answer: bytes, heard: nat, up: Flow, down: Flow)

  function NewTry(answer: bytes): Try {
    var none := Flow([], [], false, false);
    Try(Dialing, false, Ticking, false, Unset, Awaited,
        0, NoWrite, false, false, [], false, false, answer, 0, none, none)
  }

  // ----- the race

  datatype ReadOp = Reading | HasRead(chunk: bytes, failed: bool) | ReadOver

  datatype LoopAt = Checking | Restarting | Draining | LoopOver

  datatype Timer = Off | Running | Fired

  datatype ConnEvent = Response | MaxAttempts

  /** `client` is all that the client will ever write; `taken` of it has been read.
      `handed` records that the winner has been handed the connection, and `pipePast` that the race has
      set a read deadline in the past on the client's side; the deadlines of the relay are not here. */
  datatype State = State(
    parallel: int, maxAttempts: int, client: bytes, taken: nat, received: bytes,
    data: bytes, read: ReadOp, pipePast: bool,
    loop: LoopAt, stop: bool, newConn: bool, timer: Timer, n: int, attempts: int,
    hasWinner: bool, handed: bool, events: seq<ConnEvent>, tries: seq<Try>)

  datatype Options = Options(parallel: int, maxAttempts: int)

  function Start(o: Options, service: Options, client: bytes): State {
    State(Effective(o.parallel, service.parallel, 1), Effective(o.maxAttempts, service.maxAttempts, 30),
          client, 0, [], [], Reading, false,
          Checking, false, true, Off, 0, 0, false, false, [], [])
  }

  /** What changes one attempt and nothing else. */
  datatype Act =
    | Sends
    | WriteReturns(k: nat, failed: bool)
    | WriteHandled
    | Expires
    | LoopCancels
    | HookRuns
    | HookHandled
    | ReplyReturns(k: nat, failed: bool)
    | UpWrites(k: nat, failed: bool)
    | UpEnds
    | DownReads(k: nat)
    | DownEnds

  datatype Step =
    | ReadReturns(k: nat, failed: bool)
    | ReadHandled
    | LoopTurn(answer: bytes)
    | LoopRestarts
    | LoopDrained
    | TimerFires
    | TimerHandled
    | Dialed(i: nat, connected: bool, closeConn: bool)
    | Acts(i: nat, act: Act)
    | ReplyHandled(i: nat)
    | HandsOver(i: nat)
    | UpReads(i: nat, k: nat)
    | DownWrites(i: nat, k: nat, failed: bool)
    | TryEnds(i: nat)

  /** What follows the first `n` bytes. */
  function Rest(b: bytes, n: nat): bytes {
    if n <= |b| then b[n..] else []
  }

  /** What no step changes. */
  predicate SameRun(s: State, r: State) {
    r.client == s.client && r.parallel == s.parallel && r.maxAttempts == s.maxAttempts
  }

  // ----- steps of the request reader and of the connection loop

  predicate CanRead(s: State, k: nat, failed: bool) {
    && s.read.Reading? && k <= READ_SIZE && k <= |Rest(s.client, s.taken)|
    && (s.pipePast ==> k == 0 && failed)
  }

  function Read(s: State, k: nat, failed: bool): (r: State)
    requires CanRead(s, k, failed)
    ensures SameRun(s, r)
  {
    s.(taken := s.taken + k, read := HasRead(Rest(s.client, s.taken)[..k], failed))
  }

  function Buffered(s: State): (r: State)
    requires s.read.HasRead?
    ensures SameRun(s, r)
  {
    var data := s.data + s.read.chunk;
    if s.read.failed || |data| >= MAX_REQUEST then
      s.(data := data, read := ReadOver, stop := true)
    else
      s.(data := data, read := Reading)
  }

  function StopTimer(s: State): (r: State)
    ensures SameRun(s, r)
  {
    if s.timer.Running? then s.(newConn := true, timer := Off) else s
  }

  /** The loop does not yield: it stops, gives up or starts an attempt. */
  predicate CanTurn(s: State) {
    && s.loop.Checking?
    && (s.stop || (s.newConn && s.n < s.parallel && (s.attempts < s.maxAttempts || s.n == 0)))
  }

  function Turned(s: State, answer: bytes): (r: State)
    requires CanTurn(s)
    ensures SameRun(s, r)
  {
    if s.stop then
      StopTimer(s).(loop := Draining)
    else if s.attempts >= s.maxAttempts then
      StopTimer(s).(loop := Draining, events := s.events + [MaxAttempts])
    else
      StopTimer(s.(n := s.n + 1, attempts := s.attempts + 1, tries := s.tries + [NewTry(answer)], loop := Restarting))
  }

  // ----- steps of one attempt

  function Put(s: State, i: nat, t: Try): (r: State)
    requires i < |s.tries|
    ensures SameRun(s, r)
  {
    s.(tries := s.tries[i := t])
  }

  /** The outermost deferred function: the attempt no longer counts. */
  function Over(s: State, i: nat, t: Try): (r: State)
    requires i < |s.tries|
    ensures SameRun(s, r)
  {
    Put(s, i, t.(phase := Ended)).(n := s.n - 1)
  }

  function DialedTo(s: State, i: nat, connected: bool, closeConn: bool): (r: State)
    requires i < |s.tries|
    ensures SameRun(s, r)
  {
    var t := s.tries[i];
    var c := if closeConn then s.(pipePast := true) else s;
    if connected then Put(c, i, t.(phase := Racing, hook := if t.cancelled then Started else Armed))
    else Over(c, i, t)
  }

  predicate CanSend(t: Try, data: bytes) {
    t.phase in {Racing, Ending, Winning} && !t.srDone && t.write.NoWrite? && (t.srStop || t.sent != |data|)
  }

  function Sent(t: Try, data: bytes): Try {
    if t.srStop then t.(srDone := true) else t.(write := Writing(Rest(data, t.sent)))
  }

  function Written(t: Try, k: nat, failed: bool): Try
    requires t.write.Writing? && k <= |t.write.chunk|
  {
    t.(got := t.got + t.write.chunk[..k], write := Wrote(k, failed))
  }

  function Counted(t: Try): Try
    requires t.write.Wrote?
  {
    t.(sent := t.sent + t.write.count, write := NoWrite, srDone := t.srDone || t.write.failed)
  }

  function Cancel(t: Try): Try {
    t.(cancelled := true, hook := if t.hook.Armed? then Started else t.hook)
  }

  function StopSending(t: Try): Try {
    t.(srStop := true, writePast := true)
  }

  function StopHook(t: Try): Try {
    if t.hook.Armed? then t.(hook := Finished) else t
  }

  predicate CanReply(t: Try, k: nat, failed: bool) {
    t.phase.Racing? && t.reply.Awaited? && k <= 1 && k <= |Rest(t.answer, t.heard)| && (k == 0 ==> failed)
  }

  function Replied(t: Try, k: nat, failed: bool): Try
    requires CanReply(t, k, failed)
  {
    t.(heard := t.heard + k, reply := Arrived(if k == 1 then Rest(t.answer, t.heard)[0] else 0, failed))
  }

  function Wins(t: Try): Try {
    StopHook(StopSending(t)).(phase := Winning, clock := Stopped, won := true)
  }

  function Decided(s: State, i: nat): (r: State)
    requires i < |s.tries|
    ensures SameRun(s, r)
  {
    Put(s, i, Wins(s.tries[i]))
      .(hasWinner := true, events := s.events + [Response], stop := true, pipePast := true)
  }

  /** The first answer that is in time takes everything; any other ends its attempt. */
  function Judged(s: State, i: nat): (r: State)
    requires i < |s.tries| && s.tries[i].reply.Arrived?
    ensures SameRun(s, r)
  {
    var t := s.tries[i];
    if t.reply.failed || t.clock.Expired? then
      Put(s, i, StopHook(StopSending(t)).(phase := Ending))
    else if s.hasWinner then
      Put(s, i, StopHook(StopSending(t)).(phase := Ending, clock := Stopped))
    else
      Decided(s, i)
  }

  predicate CanHandOver(s: State, t: Try) {
    t.phase.Winning? && s.loop.LoopOver? && s.read.ReadOver? && t.srDone && t.hook.Finished? && t.reply.Arrived?
  }

  function HandedOver(s: State, i: nat): (r: State)
    requires i < |s.tries| && s.tries[i].reply.Arrived?
    ensures SameRun(s, r)
  {
    var t := s.tries[i];
    Put(s, i, t.(phase := Relaying, readPast := false, writePast := false,
                 up := Flow(Rest(s.data, t.sent), [], false, false), down := Flow([t.reply.first], [], false, false)))
      .(pipePast := false, handed := true)
  }

  // ----- the two directions of the relay

  predicate CanPull(f: Flow, rest: bytes, k: nat) {
    && f.held == [] && !f.broken && !f.over && 0 < k <= RELAY_SIZE
    && k <= (if f.replay != [] then |f.replay| else |rest|)
  }

  /** The replayed bytes come first, then what is left of the stream. */
  function Pulled(f: Flow, rest: bytes, k: nat): Flow
    requires CanPull(f, rest, k)
  {
    if f.replay != [] then f.(replay := f.replay[k..], held := f.replay[..k])
    else f.(held := rest[..k])
  }

  /** How many of the `k` bytes come from the stream. */
  function Consumed(f: Flow, k: nat): nat {
    if f.replay != [] then 0 else k
  }

  predicate CanPush(f: Flow, k: nat) {
    f.held != [] && !f.broken && k <= |f.held|
  }

  /** A short or failed write ends this direction. */
  function Pushed(f: Flow, k: nat, failed: bool): Flow
    requires CanPush(f, k)
  {
    f.(held := f.held[k..], broken := failed || k < |f.held|)
  }

  predicate CanFinish(f: Flow, rest: bytes) {
    f.held == [] && f.replay == [] && !f.broken && !f.over && rest == []
  }

  // ----- the whole step relation

  predicate At(s: State, i: nat, p: set<Phase>) {
    i < |s.tries| && s.tries[i].phase in p
  }

  predicate CanAct(s: State, t: Try, a: Act) {
    match a
    case Sends => CanSend(t, s.data)
    case WriteReturns(k, _) => t.write.Writing? && k <= |t.write.chunk|
    case WriteHandled => t.write.Wrote?
    case Expires => t.phase in {Dialing, Racing, Ending} && t.clock.Ticking?
    case LoopCancels => s.loop.LoopOver? && t.phase in {Dialing, Racing, Ending}
    case HookRuns => t.hook.Started?
    case HookHandled => t.hook.Posted?
    case ReplyReturns(k, failed) => CanReply(t, k, failed)
    case UpWrites(k, _) => t.phase.Relaying? && CanPush(t.up, k)
    case UpEnds => t.phase.Relaying? && CanFinish(t.up, Rest(s.client, s.taken))
    case DownReads(k) => t.phase.Relaying? && CanPull(t.down, Rest(t.answer, t.heard), k)
    case DownEnds => t.phase.Relaying? && CanFinish(t.down, Rest(t.answer, t.heard))
  }

  function Acted(s: State, t: Try, a: Act): Try
    requires CanAct(s, t, a)
  {
    match a
    case Sends => Sent(t, s.data)
    case WriteReturns(k, failed) => Written(t, k, failed)
    case WriteHandled => Counted(t)
    case Expires => Cancel(t).(clock := Expired)
    case LoopCancels => Cancel(t)
    case HookRuns => t.(hook := Posted, readPast := true)
    case HookHandled => t.(hook := Finished)
    case ReplyReturns(k, failed) => Replied(t, k, failed)
    case UpWrites(k, failed) => t.(got := t.got + t.up.held[..k], up := Pushed(t.up, k, failed))
    case UpEnds => t.(up := t.up.(over := true))
    case DownReads(k) =>
      t.(down := Pulled(t.down, Rest(t.answer, t.heard), k), heard := t.heard + Consumed(t.down, k))
    case DownEnds => t.(down := t.down.(over := true))
  }

  predicate CanUpRead(s: State, i: nat, k: nat) {
    && At(s, i, {Relaying}) && CanPull(s.tries[i].up, Rest(s.client, s.taken), k)
    && (s.tries[i].up.replay != [] || !s.pipePast)
  }

  function UpRead(s: State, i: nat, k: nat): (r: State)
    requires CanUpRead(s, i, k)
    ensures SameRun(s, r)
  {
    var t := s.tries[i];
    Put(s, i, t.(up := Pulled(t.up, Rest(s.client, s.taken), k))).(taken := s.taken + Consumed(t.up, k))
  }

  predicate CanDownWrite(s: State, i: nat, k: nat) {
    At(s, i, {Relaying}) && CanPush(s.tries[i].down, k)
  }

  function DownWritten(s: State, i: nat, k: nat, failed: bool): (r: State)
    requires CanDownWrite(s, i, k)
    ensures SameRun(s, r)
  {
    var t := s.tries[i];
    Put(s, i, t.(down := Pushed(t.down, k, failed))).(received := s.received + t.down.held[..k])
  }

  predicate Can(s: State, e: Step) {
    match e
    case ReadReturns(k, failed) => CanRead(s, k, failed)
    case ReadHandled => s.read.HasRead?
    case LoopTurn(_) => CanTurn(s)
    case LoopRestarts => s.loop.Restarting? && s.timer.Off?
    case LoopDrained => s.loop.Draining? && s.timer.Off?
    case TimerFires => s.timer.Running?
    case TimerHandled => s.timer.Fired?
    case Dialed(i, _, _) => At(s, i, {Dialing})
    case Acts(i, a) => i < |s.tries| && CanAct(s, s.tries[i], a)
    case ReplyHandled(i) => At(s, i, {Racing}) && s.tries[i].reply.Arrived?
    case HandsOver(i) => i < |s.tries| && CanHandOver(s, s.tries[i])
    case UpReads(i, k) => CanUpRead(s, i, k)
    case DownWrites(i, k, _) => CanDownWrite(s, i, k)
    case TryEnds(i) => CanEnd(s, i)
  }

  predicate CanEnd(s: State, i: nat) {
    At(s, i, {Relaying, Ending}) && s.tries[i].srDone && s.tries[i].hook.Finished?
  }

  function Do(s: State, e: Step): State
    requires Can(s, e)
  {
    match e
    case ReadReturns(k, failed) => Read(s, k, failed)
    case ReadHandled => Buffered(s)
    case LoopTurn(answer) => Turned(s, answer)
    case LoopRestarts => s.(loop := Checking, newConn := false, timer := Running)
    case LoopDrained => s.(loop := LoopOver)
    case TimerFires => s.(timer := Fired)
    case TimerHandled => s.(timer := Off, newConn := true)
    case Dialed(i, connected, closeConn) => DialedTo(s, i, connected, closeConn)
    case Acts(i, a) => Put(s, i, Acted(s, s.tries[i], a))
    case ReplyHandled(i) => Judged(s, i)
    case HandsOver(i) => HandedOver(s, i)
    case UpReads(i, k) => UpRead(s, i, k)
    case DownWrites(i, k, failed) => DownWritten(s, i, k, failed)
    case TryEnds(i) => Over(s, i, s.tries[i])
  }

  // ----- what every step keeps

  /** `done` bytes have arrived, and the rest of `whole` is on its way in order. */
  predicate Carries(done: bytes, f: Flow, rest: bytes, whole: bytes) {
    && done + f.held + f.replay + rest == whole
    && (f.over ==> done == whole)
  }

  /** What is written while racing is the request from its beginning. */
  predicate SendOk(t: Try, data: bytes) {
    match t.write
    case NoWrite => t.sent <= |data| && t.got == data[..t.sent]
    case Writing(chunk) => t.sent <= |data| && chunk <= data[t.sent..] && t.got == data[..t.sent]
    case Wrote(k, _) => t.sent + k <= |data| && t.got == data[..t.sent + k]
  }

  /** How the fields of one attempt go together. */
  predicate Shape(t: Try) {
    && t.heard <= |t.answer|
    && (t.srDone ==> t.write.NoWrite?)
    && (t.won ==> t.phase in {Winning, Relaying, Ended} && t.clock.Stopped?)
    && (match t.phase
        case Dialing =>
          t == NewTry(t.answer).(clock := t.clock, cancelled := t.cancelled)
        case Racing =>
          && !t.hook.Unset? && !t.srStop && !t.writePast && t.heard <= 1
          && (t.reply.Awaited? ==> t.heard == 0)
          && (t.reply.Arrived? && !t.reply.failed ==> t.heard == 1 && t.reply.first == t.answer[0])
        case Ending =>
          !t.hook.Unset? && !t.hook.Armed? && t.srStop
        case Winning =>
          && !t.hook.Unset? && !t.hook.Armed? && t.srStop && t.won && t.clock.Stopped?
          && t.heard == 1 && t.reply == Arrived(t.answer[0], false)
        case Relaying =>
          t.won && t.srDone && t.hook.Finished? && t.clock.Stopped? && !t.readPast && !t.writePast
        case Ended =>
          t.write.NoWrite? && (t.hook.Unset? || t.hook.Finished?))
  }

  predicate TryOk(s: State, t: Try) {
    && Shape(t)
    && (t.won ==> (s.handed <==> t.phase != Winning))
    && (if t.won && s.handed then
          && Carries(t.got, t.up, Rest(s.client, s.taken), s.client)
          && Carries(s.received, t.down, Rest(t.answer, t.heard), t.answer)
        else SendOk(t, s.data))
  }

  function Live(ts: seq<Try>): nat {
    if ts == [] then 0 else Live(ts[..|ts| - 1]) + if ts[|ts| - 1].phase.Ended? then 0 else 1
  }

  predicate Counters(s: State) {
    && 0 < s.parallel && 0 < s.maxAttempts
    && s.n == Live(s.tries) && s.n <= s.parallel
    && s.attempts == |s.tries| <= s.maxAttempts
  }

  predicate Timing(s: State) {
    && (s.newConn <==> s.timer.Off?)
    && (s.loop in {Restarting, LoopOver} ==> s.timer.Off?)
    && (s.loop in {Draining, LoopOver} ==> s.stop || s.events == [MaxAttempts])
  }

  predicate Request(s: State) {
    && s.taken <= |s.client|
    && |s.data| < MAX_REQUEST + READ_SIZE
    && (!s.read.ReadOver? ==> |s.data| < MAX_REQUEST)
    && (s.read.ReadOver? ==> s.stop)
    && (s.read.HasRead? ==> |s.read.chunk| <= READ_SIZE)
    && (if s.handed then s.data <= s.client
        else s.data + (if s.read.HasRead? then s.read.chunk else []) == s.client[..s.taken])
  }

  predicate Won(ts: seq<Try>) {
    exists i :: 0 <= i < |ts| && ts[i].won
  }

  predicate OneWinner(ts: seq<Try>) {
    forall i, j :: 0 <= i < |ts| && 0 <= j < |ts| && ts[i].won && ts[j].won ==> i == j
  }

  predicate Winner(s: State) {
    && OneWinner(s.tries) && (s.hasWinner <==> Won(s.tries))
    && (s.hasWinner ==> s.stop && s.events == [Response])
    && (!s.hasWinner ==> s.received == [] && (s.events == [] || s.events == [MaxAttempts]))
    && (s.events == [MaxAttempts] ==> s.loop in {Draining, LoopOver} && s.n == 0 && s.attempts == s.maxAttempts)
    && (s.stop ==> s.hasWinner || s.read.ReadOver?)
    && (s.handed ==> s.hasWinner && s.loop.LoopOver? && s.read.ReadOver?)
    && (!s.handed ==> s.received == [])
  }

  predicate Inv(s: State) {
    && Counters(s) && Timing(s) && Request(s) && Winner(s)
    && forall i :: 0 <= i < |s.tries| ==> TryOk(s, s.tries[i])
  }

  lemma {:induction false} LivePut(ts: seq<Try>, i: nat, t: Try)
    requires i < |ts|
    ensures Live(ts[i := t]) == Live(ts) - (if ts[i].phase.Ended? then 0 else 1) + (if t.phase.Ended? then 0 else 1)
  {
    var n := |ts| - 1;
    if i == n {
      assert ts[i := t][..n] == ts[..n];
    } else {
      assert ts[i := t][..n] == ts[..n][i := t];
      LivePut(ts[..n], i, t);
    }
  }

  lemma {:induction false} LiveWitness(ts: seq<Try>)
    requires Live(ts) > 0
    ensures exists i :: 0 <= i < |ts| && !ts[i].phase.Ended?
  {
    var n := |ts| - 1;
    if ts[n].phase.Ended? { LiveWitness(ts[..n]); }
  }

  lemma WonPut(ts: seq<Try>, i: nat, t: Try)
    requires i < |ts| && t.won == ts[i].won
    ensures Won(ts[i := t]) == Won(ts) && OneWinner(ts[i := t]) == OneWinner(ts)
  {
    var r := ts[i := t];
    assert forall k :: 0 <= k < |ts| ==> r[k].won == ts[k].won;
    if Won(ts) {
      var k :| 0 <= k < |ts| && ts[k].won;
      assert r[k].won;
    }
  }

  /** Only these parts of the state matter to an attempt. */
  predicate Alike(s: State, r: State) {
    && s.data == r.data && s.handed == r.handed && s.client == r.client
    && Rest(s.client, s.taken) == Rest(r.client, r.taken) && s.received == r.received
  }

  lemma OthersKeep(s: State, r: State, i: nat, t: Try)
    requires (forall j :: 0 <= j < |s.tries| ==> TryOk(s, s.tries[j]))
    requires Alike(s, r) && i < |s.tries| && r.tries == s.tries[i := t] && TryOk(r, t)
    ensures forall j :: 0 <= j < |r.tries| ==> TryOk(r, r.tries[j])
  {
    hide Shape, SendOk, Carries, Rest;
    forall j | 0 <= j < |r.tries| ensures TryOk(r, r.tries[j]) {
      if j != i { assert TryOk(s, s.tries[j]); }
    }
  }

  /** A change to one attempt that neither wins nor ends it. */
  lemma PutKeeps(s: State, i: nat, t: Try)
    requires Inv(s) && i < |s.tries| && TryOk(s, t)
    requires t.won == s.tries[i].won && t.phase.Ended? == s.tries[i].phase.Ended?
    ensures Inv(Put(s, i, t))
  {
    var r := Put(s, i, t);
    assert TryOk(r, t);
    LivePut(s.tries, i, t);
    WonPut(s.tries, i, t);
    hide Shape, SendOk, Carries, Live, Won, OneWinner, TryOk;
    OthersKeep(s, r, i, t);
  }

  lemma PullCarries(done: bytes, f: Flow, whole: bytes, at: nat, k: nat)
    requires at <= |whole| && Carries(done, f, Rest(whole, at), whole) && CanPull(f, Rest(whole, at), k)
    ensures at + Consumed(f, k) <= |whole|
    ensures Carries(done, Pulled(f, Rest(whole, at), k), Rest(whole, at + Consumed(f, k)), whole)
  {
    var rest := Rest(whole, at);
    assert done + f.held == done;
    if f.replay != [] {
      SplitMiddle(done, f.replay, rest, k);
    } else {
      SplitEnd(done, rest, k);
      assert rest[k..] == Rest(whole, at + k);
    }
  }

  lemma SplitEnd(a: bytes, b: bytes, k: nat)
    requires k <= |b|
    ensures a + [] + b == a + b[..k] + [] + b[k..]
  {
  }

  lemma SplitMiddle(a: bytes, b: bytes, c: bytes, k: nat)
    requires k <= |b|
    ensures a + b + c == a + b[..k] + b[k..] + c
  {
  }

  lemma PushCarries(done: bytes, f: Flow, rest: bytes, whole: bytes, k: nat, failed: bool)
    requires Carries(done, f, rest, whole) && CanPush(f, k)
    ensures Carries(done + f.held[..k], Pushed(f, k, failed), rest, whole)
  {
    assert f.held == f.held[..k] + f.held[k..];
  }

  /** A change that touches no attempt. */
  lemma TriesKeep(s: State, r: State)
    requires Inv(s) && s.data <= r.data && r.tries == s.tries && r.handed == s.handed && r.client == s.client
    requires r.received == s.received && (s.handed ==> s.taken == r.taken)
    ensures forall j :: 0 <= j < |r.tries| ==> TryOk(r, r.tries[j])
  {
    hide Counters, Timing, Request, Winner, Shape, Carries, Rest;
    forall j | 0 <= j < |r.tries| ensures TryOk(r, r.tries[j]) {
      assert TryOk(s, s.tries[j]);
    }
  }

  lemma SenderKept(s: State, t: Try, a: Act)
    requires TryOk(s, t) && CanAct(s, t, a) && (a.Sends? || a.WriteReturns? || a.WriteHandled?)
    ensures TryOk(s, Acted(s, t, a))
  {
    hide Carries;
    if a.WriteReturns? {
      assert s.data[..t.sent + a.k] == s.data[..t.sent] + s.data[t.sent..][..a.k];
    }
  }

  /** What an attempt does by itself while racing. */
  lemma RacerKept(s: State, t: Try, a: Act)
    requires TryOk(s, t) && CanAct(s, t, a) && !t.phase.Relaying?
    ensures TryOk(s, Acted(s, t, a))
  {
    if a.Sends? || a.WriteReturns? || a.WriteHandled? {
      hide TryOk, Acted;
      SenderKept(s, t, a);
    } else {
      hide Carries, Sent, Counted, CanSend;
    }
  }

  lemma RelayKept(s: State, t: Try, a: Act)
    requires TryOk(s, t) && CanAct(s, t, a) && t.phase.Relaying?
    ensures TryOk(s, Acted(s, t, a))
  {
    if a.UpWrites? {
      PushCarries(t.got, t.up, Rest(s.client, s.taken), s.client, a.k, a.failed);
      hide Rest, Carries;
    } else if a.DownReads? {
      PullCarries(s.received, t.down, t.answer, t.heard, a.k);
      hide Rest, Carries;
    }
  }

  lemma ActKeeps(s: State, i: nat, a: Act)
    requires Inv(s) && i < |s.tries| && CanAct(s, s.tries[i], a)
    ensures Inv(Put(s, i, Acted(s, s.tries[i], a)))
  {
    var t := s.tries[i];
    assert TryOk(s, t);
    if t.phase.Relaying? { RelayKept(s, t, a); } else { RacerKept(s, t, a); }
    var u := Acted(s, t, a);
    assert u.won == t.won && u.phase == t.phase;
    hide Inv, TryOk, Acted;
    PutKeeps(s, i, u);
  }

  lemma ReadKeeps(s: State, k: nat, failed: bool)
    requires Inv(s) && CanRead(s, k, failed)
    ensures Inv(Read(s, k, failed))
  {
    var r := Read(s, k, failed);
    TriesKeep(s, r);
    hide Live, OneWinner, Won, TryOk;
    assert s.client[..r.taken] == s.client[..s.taken] + r.read.chunk;
  }

  lemma BufferedKeeps(s: State)
    requires Inv(s) && s.read.HasRead?
    ensures Inv(Buffered(s))
  {
    TriesKeep(s, Buffered(s));
    hide Live, OneWinner, Won, TryOk;
  }

  /** The reader and the attempts see nothing of the loop and of its timer. */
  lemma LoopKeeps(s: State, r: State)
    requires Inv(s)
    requires r == s.(loop := r.loop, newConn := r.newConn, timer := r.timer, events := r.events)
    requires Timing(r) && Winner(r)
    ensures Inv(r)
  {
    TriesKeep(s, r);
    hide Live, OneWinner, Won, TryOk;
  }

  /** An attempt that has not ended keeps the loop from giving up. */
  lemma NotGivenUp(s: State, i: nat)
    requires Inv(s) && i < |s.tries| && !s.tries[i].phase.Ended?
    ensures s.n > 0 && s.events != [MaxAttempts]
  {
    LivePut(s.tries, i, s.tries[i].(phase := Ended));
  }

  lemma TurnedKeeps(s: State, answer: bytes)
    requires Inv(s) && CanTurn(s)
    ensures Inv(Turned(s, answer))
  {
    var r := Turned(s, answer);
    if s.stop || s.attempts >= s.maxAttempts {
      assert Timing(r) && Winner(r) by { hide Live, Won, OneWinner; }
      LoopKeeps(s, r);
    } else {
      StartedKeeps(s, answer);
    }
  }

  lemma StartedKeeps(s: State, answer: bytes)
    requires Inv(s) && CanTurn(s) && !s.stop && s.attempts < s.maxAttempts
    ensures Inv(Turned(s, answer))
  {
    var r := Turned(s, answer);
    assert r.tries[..|s.tries|] == s.tries;
    assert forall j :: 0 <= j < |s.tries| ==> r.tries[j] == s.tries[j] && TryOk(s, s.tries[j]);
    assert TryOk(r, NewTry(answer));
    hide Shape, SendOk, Carries;
    assert forall j :: 0 <= j < |s.tries| ==> TryOk(r, r.tries[j]);
  }

  lemma EndKept(s: State, t: Try)
    requires TryOk(s, t) && t.write.NoWrite? && t.phase in {Dialing, Ending, Relaying}
    requires t.hook.Unset? || t.hook.Finished?
    ensures TryOk(s, t.(phase := Ended))
  {
    hide Carries;
  }

  lemma OverKeeps(s: State, i: nat)
    requires Inv(s) && i < |s.tries| && s.tries[i].write.NoWrite?
    requires s.tries[i].phase in {Dialing, Ending, Relaying}
    requires s.tries[i].hook.Unset? || s.tries[i].hook.Finished?
    ensures Inv(Over(s, i, s.tries[i]))
  {
    var t := s.tries[i].(phase := Ended);
    NotGivenUp(s, i);
    EndKept(s, s.tries[i]);
    LivePut(s.tries, i, t);
    WonPut(s.tries, i, t);
    hide Shape, SendOk, Carries, Live, Won, OneWinner, TryOk;
    OthersKeep(s, Over(s, i, s.tries[i]), i, t);
  }

  lemma DialedKeeps(s: State, i: nat, connected: bool, closeConn: bool)
    requires Inv(s) && At(s, i, {Dialing})
    ensures Inv(DialedTo(s, i, connected, closeConn))
  {
    var c := if closeConn then s.(pipePast := true) else s;
    TriesKeep(s, c);
    assert TryOk(s, s.tries[i]);
    if connected {
      var t := s.tries[i];
      var u := t.(phase := Racing, hook := if t.cancelled then Started else Armed);
      assert TryOk(c, u);
      hide Live, Won, OneWinner, TryOk;
      PutKeeps(c, i, u);
    } else {
      hide Live, Won, OneWinner;
      OverKeeps(c, i);
    }
  }

  lemma LoserKeeps(s: State, i: nat, clock: Clock)
    requires Inv(s) && At(s, i, {Racing})
    ensures Inv(Put(s, i, StopHook(StopSending(s.tries[i])).(phase := Ending, clock := clock)))
  {
    assert TryOk(s, s.tries[i]);
    hide Carries;
    PutKeeps(s, i, StopHook(StopSending(s.tries[i])).(phase := Ending, clock := clock));
  }

  lemma FirstWon(ts: seq<Try>, i: nat, t: Try)
    requires i < |ts| && t.won && !Won(ts)
    ensures Won(ts[i := t]) && OneWinner(ts[i := t])
  {
    assert ts[i := t][i].won;
    assert forall j :: 0 <= j < |ts| ==> !ts[j].won;
  }

  lemma WinKept(s: State, t: Try)
    requires TryOk(s, t) && t.phase.Racing? && t.reply.Arrived? && !t.reply.failed && !s.handed
    ensures TryOk(s, Wins(t))
  {
    hide Carries;
  }

  lemma WinnerKeeps(s: State, i: nat)
    requires Inv(s) && At(s, i, {Racing}) && s.tries[i].reply.Arrived? && !s.tries[i].reply.failed && !s.hasWinner
    ensures Inv(Decided(s, i))
  {
    var u := Wins(s.tries[i]);
    var r := Decided(s, i);
    NotGivenUp(s, i);
    LivePut(s.tries, i, u);
    assert TryOk(s, s.tries[i]);
    WinKept(s, s.tries[i]);
    FirstWon(s.tries, i, u);
    hide Live, Won, OneWinner, Shape, SendOk, Carries, Rest;
    assert TryOk(r, u);
    assert r.events == [Response] && r.tries == s.tries[i := u];
    assert !u.phase.Ended? && !s.tries[i].phase.Ended?;
    hide TryOk, Wins;
    assert Counters(r) && Timing(r) && Request(r) && Winner(r);
    OthersKeep(s, r, i, u);
  }

  lemma HandedOverKeeps(s: State, i: nat)
    requires Inv(s) && i < |s.tries| && CanHandOver(s, s.tries[i])
    ensures Inv(HandedOver(s, i))
  {
    var t := s.tries[i];
    var r := HandedOver(s, i);
    var u := r.tries[i];
    assert TryOk(s, t);
    LivePut(s.tries, i, u);
    WonPut(s.tries, i, u);
    assert TryOk(r, u) by {
      assert s.client == s.client[..s.taken] + Rest(s.client, s.taken);
      assert s.data == s.data[..t.sent] + s.data[t.sent..];
      assert t.answer == [t.answer[0]] + Rest(t.answer, 1);
    }
    hide Live, Carries, SendOk;
    forall j | 0 <= j < |r.tries| ensures TryOk(r, r.tries[j]) {
      if j != i { assert TryOk(s, s.tries[j]) && !s.tries[j].won; }
    }
    hide Won, OneWinner, TryOk;
  }

  /** While the winner is relaying, other attempts see only the request. */
  lemma RelayedKeeps(s: State, r: State, i: nat)
    requires Inv(s) && At(s, i, {Relaying}) && |r.tries| == |s.tries| && r.tries == s.tries[i := r.tries[i]]
    requires r == s.(taken := r.taken, received := r.received, tries := r.tries) && r.taken <= |r.client|
    requires TryOk(r, r.tries[i]) && r.tries[i].won && r.tries[i].phase.Relaying?
    ensures Inv(r)
  {
    var u := r.tries[i];
    assert TryOk(s, s.tries[i]);
    LivePut(s.tries, i, u);
    WonPut(s.tries, i, u);
    hide Live, Carries, SendOk;
    assert s.tries[i].won && s.hasWinner && s.handed;
    forall j | 0 <= j < |r.tries| ensures TryOk(r, r.tries[j]) {
      if j != i { assert TryOk(s, s.tries[j]) && !s.tries[j].won; }
    }
    hide Won, OneWinner, TryOk;
  }

  lemma UpReadKeeps(s: State, i: nat, k: nat)
    requires Inv(s) && CanUpRead(s, i, k)
    ensures Inv(UpRead(s, i, k))
  {
    var t := s.tries[i];
    var r := UpRead(s, i, k);
    assert TryOk(s, t);
    PullCarries(t.got, t.up, s.client, s.taken, k);
    assert TryOk(r, r.tries[i]) by { hide Carries, Rest; }
    hide Inv, TryOk;
    RelayedKeeps(s, r, i);
  }

  lemma DownWriteKeeps(s: State, i: nat, k: nat, failed: bool)
    requires Inv(s) && CanDownWrite(s, i, k)
    ensures Inv(DownWritten(s, i, k, failed))
  {
    var t := s.tries[i];
    var r := DownWritten(s, i, k, failed);
    assert TryOk(s, t);
    PushCarries(s.received, t.down, Rest(t.answer, t.heard), t.answer, k, failed);
    assert TryOk(r, r.tries[i]) by { hide Carries, Rest; }
    assert r.taken <= |r.client|;
    hide Inv, TryOk;
    RelayedKeeps(s, r, i);
  }

  lemma JudgedKeeps(s: State, i: nat)
    requires Inv(s) && At(s, i, {Racing}) && s.tries[i].reply.Arrived?
    ensures Inv(Judged(s, i))
  {
    hide Inv;
    if s.tries[i].reply.failed || s.tries[i].clock.Expired? {
      LoserKeeps(s, i, s.tries[i].clock);
    } else if s.hasWinner {
      LoserKeeps(s, i, Stopped);
    } else {
      WinnerKeeps(s, i);
    }
  }

  lemma TimingKeeps(s: State, e: Step)
    requires Inv(s) && Can(s, e)
    requires e.LoopRestarts? || e.LoopDrained? || e.TimerFires? || e.TimerHandled?
    ensures Inv(Do(s, e))
  {
    hide Live, Won, OneWinner, TryOk;
    LoopKeeps(s, Do(s, e));
  }

  lemma EndKeeps(s: State, i: nat)
    requires Inv(s) && CanEnd(s, i)
    ensures Inv(Over(s, i, s.tries[i]))
  {
    assert TryOk(s, s.tries[i]);
    OverKeeps(s, i);
  }

  lemma StepKeeps(s: State, e: Step)
    requires Inv(s) && Can(s, e)
    ensures Inv(Do(s, e))
  {
    hide Inv, CanRead, Read, Buffered, CanTurn, Turned, At, DialedTo, CanAct, Acted, Put, Judged;
    hide CanHandOver, HandedOver;
    hide CanUpRead, UpRead, CanDownWrite, DownWritten, CanEnd, Over;
    match e
    case ReadReturns(k, failed) => ReadKeeps(s, k, failed);
    case ReadHandled => BufferedKeeps(s);
    case LoopTurn(answer) => TurnedKeeps(s, answer);
    case Dialed(i, connected, closeConn) => DialedKeeps(s, i, connected, closeConn);
    case Acts(i, a) => ActKeeps(s, i, a);
    case ReplyHandled(i) => JudgedKeeps(s, i);
    case HandsOver(i) => HandedOverKeeps(s, i);
    case UpReads(i, k) => UpReadKeeps(s, i, k);
    case DownWrites(i, k, failed) => DownWriteKeeps(s, i, k, failed);
    case TryEnds(i) => EndKeeps(s, i);
    case _ => TimingKeeps(s, e);
  }

  // ----- whole runs

  function Run(s: State, es: seq<Step>): Option<State>
    decreases es
  {
    if es == [] then Some(s)
    else if Can(s, es[0]) then Run(Do(s, es[0]), es[1..])
    else None
  }

  lemma {:induction false} RunKeeps(s: State, es: seq<Step>)
    requires Inv(s) && Run(s, es).Some?
    ensures Inv(Run(s, es).value)
    decreases es
  {
    if es != [] {
      StepKeeps(s, es[0]);
      hide Inv, Can, Do;
      RunKeeps(Do(s, es[0]), es[1..]);
    }
  }

  lemma StartKeeps(o: Options, service: Options, client: bytes)
    ensures Inv(Start(o, service, client))
  {
  }

  ghost predicate Reachable(o: Options, service: Options, client: bytes, s: State) {
    exists es :: Run(Start(o, service, client), es) == Some(s)
  }

  lemma ReachableInv(o: Options, service: Options, client: bytes, s: State)
    requires Reachable(o, service, client, s)
    ensures Inv(s) && s.client == client
    ensures s.parallel == Effective(o.parallel, service.parallel, 1)
    ensures s.maxAttempts == Effective(o.maxAttempts, service.maxAttempts, 30)
  {
    var es :| Run(Start(o, service, client), es) == Some(s);
    StartKeeps(o, service, client);
    RunKeeps(Start(o, service, client), es);
    RunFixes(Start(o, service, client), es);
  }

  lemma StepFixes(s: State, e: Step)
    requires Can(s, e)
    ensures SameRun(s, Do(s, e))
  {
    hide Read, Buffered, Turned, DialedTo, Acted, Put, Judged, HandedOver, UpRead, DownWritten, Over;
    hide CanRead, CanTurn, At, CanAct, CanHandOver, CanUpRead, CanDownWrite, CanEnd;
  }

  lemma {:induction false} RunFixes(s: State, es: seq<Step>)
    requires Run(s, es).Some?
    ensures SameRun(s, Run(s, es).value)
    decreases es
  {
    if es != [] {
      StepFixes(s, es[0]);
      hide Can, Do;
      RunFixes(Do(s, es[0]), es[1..]);
    }
  }

  /** The counters, the winner and the events, at any moment of any run. */
  lemma CountsInEveryRun(o: Options, service: Options, client: bytes, s: State)
    requires Reachable(o, service, client, s)
    ensures s.n == Live(s.tries) <= Effective(o.parallel, service.parallel, 1)
    ensures s.attempts == |s.tries| <= Effective(o.maxAttempts, service.maxAttempts, 30)
    ensures OneWinner(s.tries) && (s.hasWinner <==> Won(s.tries))
    ensures s.events in {[], [Response], [MaxAttempts]} && (s.events == [Response] <==> s.hasWinner)
    ensures s.events == [MaxAttempts] ==> s.n == 0 && s.attempts == s.maxAttempts
    ensures s.loop in {Draining, LoopOver} ==> s.hasWinner || s.read.ReadOver? || s.events == [MaxAttempts]
    ensures |s.data| < 32768 + 8192
  {
    ReachableInv(o, service, client, s);
    hide Live, OneWinner, Won, TryOk;
  }

  /** The client's bytes reach the winner in order and whole, and a loser gets some of the request. */
  lemma BytesInEveryRun(o: Options, service: Options, client: bytes, s: State, i: nat)
    requires Reachable(o, service, client, s) && i < |s.tries|
    ensures s.data <= client && s.tries[i].got <= client
    ensures !s.tries[i].won ==> s.tries[i].got <= s.data
    ensures var t := s.tries[i]; t.won && s.handed ==>
      && t.got + t.up.held + t.up.replay + Rest(client, s.taken) == client
      && s.received + t.down.held + t.down.replay + Rest(t.answer, t.heard) == t.answer
    ensures s.tries[i].won && s.handed && s.tries[i].up.over ==> s.tries[i].got == client
    ensures s.tries[i].won && s.handed && s.tries[i].down.over ==> s.received == s.tries[i].answer
    ensures s.received != [] ==> Won(s.tries) && s.handed
  {
    ReachableInv(o, service, client, s);
    var t := s.tries[i];
    assert TryOk(s, t);
    RequestIsPrefix(s);
    hide Live, OneWinner, Won, Counters, Timing, Request, Rest, Shape, Reachable;
    if t.won && s.handed {
      CarriesPrefix(t.got, t.up, Rest(client, s.taken), client);
    } else {
      SentIsPrefix(t, s.data);
    }
  }

  lemma RequestIsPrefix(s: State)
    requires Request(s)
    ensures s.data <= s.client
  {
    if !s.handed { assert s.data <= s.client[..s.taken]; }
  }

  lemma CarriesPrefix(done: bytes, f: Flow, rest: bytes, whole: bytes)
    requires Carries(done, f, rest, whole)
    ensures done <= whole
  {
    assert done + (f.held + f.replay + rest) == whole;
  }

  lemma SentIsPrefix(t: Try, data: bytes)
    requires SendOk(t, data)
    ensures t.got <= data
  {
  }

  /** An attempt that has timed out is out of the race for good. */
  lemma {:induction false} ExpiredNeverWins(s: State, es: seq<Step>, i: nat)
    requires Inv(s) && Run(s, es).Some? && i < |s.tries| && s.tries[i].clock.Expired?
    ensures var r := Run(s, es).value; i < |r.tries| && r.tries[i].clock.Expired? && !r.tries[i].won
    decreases es
  {
    if es == [] {
      assert TryOk(s, s.tries[i]);
    } else {
      StepKeeps(s, es[0]);
      ExpiredStays(s, es[0], i);
      hide Inv, Can, Do;
      ExpiredNeverWins(Do(s, es[0]), es[1..], i);
    }
  }

  predicate OfOneTry(e: Step) {
    e.Dialed? || e.Acts? || e.ReplyHandled? || e.HandsOver? || e.UpReads? || e.DownWrites? || e.TryEnds?
  }

  /** Only attempt `e.i` changes, and how: what a dial, a reply, a hand-over and an end mean for it. */
  predicate OnlyTry(s: State, r: State, e: Step)
    requires OfOneTry(e)
  {
    && e.i < |s.tries| == |r.tries| && r.tries == s.tries[e.i := r.tries[e.i]]
    && Becomes(s, s.tries[e.i], r.tries[e.i], e)
    && r.hasWinner == (s.hasWinner || (e.ReplyHandled? && InTime(s, s.tries[e.i])))
    && r.loop == s.loop && r.timer == s.timer && r.read == s.read && r.data == s.data
    && (!e.DownWrites? ==> r.received == s.received)
    && r.pipePast == (match e
         case Dialed(_, _, closeConn) => s.pipePast || closeConn
         case ReplyHandled(_) => s.pipePast || InTime(s, s.tries[e.i])
         case HandsOver(_) => false
         case _ => s.pipePast)
  }

  /** A cancellation starts what makes the read for the answer fail, and an attempt that is decided is
      made to stop writing. */
  predicate Hooked(t: Try) {
    && (t.cancelled ==> !t.hook.Armed?)
    && (t.phase.Racing? && (t.hook.Posted? || t.hook.Finished?) ==> t.readPast)
    && (t.phase in {Ending, Winning} ==> t.srStop && t.writePast)
  }

  /** A write has failed, or the sender has stopped for some other reason. */
  predicate Muted(t: Try) {
    (t.srDone && t.write.NoWrite?) || (t.write.Wrote? && t.write.failed)
  }

  /** The attempt is answered in time, and no other was before. */
  predicate InTime(s: State, t: Try) {
    t.reply.Arrived? && !t.reply.failed && !t.clock.Expired? && !s.hasWinner
  }

  predicate Becomes(s: State, t: Try, u: Try, e: Step) {
    && (u.clock.Expired? <==> t.clock.Expired? || (e.Acts? && e.act.Expires?))
    && (t.reply.Arrived? ==> u.reply == t.reply)
    && (u.reply.Arrived? && t.reply.Awaited? ==> u.phase.Racing?)
    && (u.won <==> t.won || (e.ReplyHandled? && InTime(s, t)))
    && (u.cancelled <==> t.cancelled || (e.Acts? && (e.act.Expires? || e.act.LoopCancels?)))
    && (Hooked(t) ==> Hooked(u))
    && (e.Acts? && e.act.WriteReturns? && e.act.failed ==> Muted(u))
    && (Muted(t) ==> Muted(u))
    && (u.got != t.got ==> e.Acts? && (e.act.UpWrites? || (e.act.WriteReturns? && t.write.Writing?)))
    && (e.Acts? && e.act.UpWrites? ==> t.phase.Relaying? && !t.up.broken)
    && (e.Acts? && e.act.UpWrites? && (e.act.failed || e.act.k < |t.up.held|) ==> u.up.broken)
    && (t.phase in {Relaying, Ended} ==> (t.up.broken ==> u.up.broken) && (t.down.broken ==> u.down.broken))
    && (e.DownWrites? ==> t.phase.Relaying? && !t.down.broken)
    && (e.DownWrites? && (e.failed || e.k < |t.down.held|) ==> u.down.broken)
    && u.phase == (match e
         case Dialed(_, connected, _) => if connected then Racing else Ended
         case ReplyHandled(_) => if InTime(s, t) then Winning else Ending
         case HandsOver(_) => Relaying
         case TryEnds(_) => Ended
         case _ => t.phase)
  }

  lemma ActedBecomes(s: State, t: Try, a: Act, i: nat)
    requires CanAct(s, t, a)
    ensures Becomes(s, t, Acted(s, t, a), Acts(i, a))
  {
    hide CanFinish, Rest, Consumed;
    if a.UpWrites? || a.UpEnds? || a.DownReads? || a.DownEnds? { hide Sent, Written, Counted, Replied; }
  }

  lemma ActsOnlyTry(s: State, i: nat, a: Act)
    requires i < |s.tries| && CanAct(s, s.tries[i], a)
    ensures OnlyTry(s, Put(s, i, Acted(s, s.tries[i], a)), Acts(i, a))
  {
    ActedBecomes(s, s.tries[i], a, i);
    hide Acted, CanAct, Becomes;
  }

  lemma EndsOnlyTry(s: State, i: nat)
    requires i < |s.tries|
    ensures OnlyTry(s, Over(s, i, s.tries[i]), TryEnds(i))
  {
  }

  lemma DialOnlyTry(s: State, i: nat, connected: bool, closeConn: bool)
    requires i < |s.tries|
    ensures OnlyTry(s, DialedTo(s, i, connected, closeConn), Dialed(i, connected, closeConn))
  {
  }

  lemma LoserOnlyTry(s: State, i: nat, clock: Clock)
    requires i < |s.tries| && s.tries[i].reply.Arrived? && !InTime(s, s.tries[i])
    requires clock.Expired? <==> s.tries[i].clock.Expired?
    ensures OnlyTry(s, Put(s, i, StopHook(StopSending(s.tries[i])).(phase := Ending, clock := clock)), ReplyHandled(i))
  {
  }

  lemma WinnerOnlyTry(s: State, i: nat)
    requires i < |s.tries| && InTime(s, s.tries[i])
    ensures OnlyTry(s, Decided(s, i), ReplyHandled(i))
  {
  }

  lemma JudgedOnlyTry(s: State, i: nat)
    requires i < |s.tries| && s.tries[i].reply.Arrived?
    ensures OnlyTry(s, Judged(s, i), ReplyHandled(i))
  {
    assert StopHook(StopSending(s.tries[i])).clock == s.tries[i].clock;
    hide OnlyTry, Put, Decided, StopHook, StopSending;
    if InTime(s, s.tries[i]) {
      WinnerOnlyTry(s, i);
    } else {
      LoserOnlyTry(s, i, s.tries[i].clock);
      if !s.tries[i].clock.Expired? { LoserOnlyTry(s, i, Stopped); }
    }
  }

  lemma HandedOnlyTry(s: State, i: nat)
    requires i < |s.tries| && s.tries[i].reply.Arrived? && s.tries[i].phase.Winning?
    ensures OnlyTry(s, HandedOver(s, i), HandsOver(i))
  {
    hide Rest;
  }

  lemma RelayOnlyTry(s: State, i: nat, k: nat, failed: bool)
    ensures CanUpRead(s, i, k) ==> OnlyTry(s, UpRead(s, i, k), UpReads(i, k))
    ensures CanDownWrite(s, i, k) ==> OnlyTry(s, DownWritten(s, i, k, failed), DownWrites(i, k, failed))
  {
    hide Rest, Consumed;
  }

  lemma OneTry(s: State, e: Step)
    requires Can(s, e) && OfOneTry(e)
    ensures OnlyTry(s, Do(s, e), e)
  {
    hide OnlyTry, Over, DialedTo, Judged, HandedOver, UpRead, DownWritten, Acted, CanAct, CanUpRead, CanDownWrite, Put;
    match e
    case Acts(k, a) => ActsOnlyTry(s, k, a);
    case Dialed(k, connected, closeConn) => DialOnlyTry(s, k, connected, closeConn);
    case ReplyHandled(k) => JudgedOnlyTry(s, k);
    case HandsOver(k) => HandedOnlyTry(s, k);
    case UpReads(i, k) => RelayOnlyTry(s, i, k, false);
    case DownWrites(i, k, failed) => RelayOnlyTry(s, i, k, failed);
    case TryEnds(k) => EndsOnlyTry(s, k);
  }

  lemma ExpiredStays(s: State, e: Step, i: nat)
    requires Can(s, e) && i < |s.tries| && s.tries[i].clock.Expired?
    ensures i < |Do(s, e).tries| && Do(s, e).tries[i].clock.Expired?
  {
    if OfOneTry(e) {
      OneTry(s, e);
      hide Can, Do;
    } else {
      assert s.tries <= Do(s, e).tries;
    }
  }

  /** While the interval timer has not run out, no attempt begins. */
  lemma AttemptsAreSpaced(o: Options, service: Options, client: bytes, s: State, e: Step)
    requires Reachable(o, service, client, s) && Can(s, e) && !s.timer.Off?
    ensures |Do(s, e).tries| == |s.tries|
  {
    ReachableInv(o, service, client, s);
    assert Timing(s);
    if OfOneTry(e) {
      OneTry(s, e);
      hide Inv, Reachable, Can, Do, Timing;
    } else {
      hide Inv, Reachable, CanRead, Acted, CanAct;
    }
  }

  /** When the winner relays, nobody else reads from the client, and no deadline is set on the winner's connection. */
  lemma HandOverIsClean(o: Options, service: Options, client: bytes, s: State, i: nat)
    requires Reachable(o, service, client, s) && At(s, i, {Relaying})
    ensures s.loop.LoopOver? && s.read.ReadOver? && s.tries[i].write.NoWrite?
    ensures !s.tries[i].readPast && !s.tries[i].writePast
    ensures s.received <= s.tries[i].answer
  {
    ReachableInv(o, service, client, s);
    var t := s.tries[i];
    assert TryOk(s, t);
    assert s.received + (t.down.held + t.down.replay + Rest(t.answer, t.heard)) == t.answer;
  }

  /** Nothing of an attempt that has ended still runs, so its buffers can be reused. */
  lemma EndedIsQuiet(o: Options, service: Options, client: bytes, s: State, i: nat, a: Act)
    requires Reachable(o, service, client, s) && At(s, i, {Ended})
    ensures !CanAct(s, s.tries[i], a)
  {
    ReachableInv(o, service, client, s);
    assert TryOk(s, s.tries[i]);
  }

  predicate AllOver(s: State) {
    s.loop.LoopOver? && s.read.ReadOver? && forall i :: 0 <= i < |s.tries| ==> s.tries[i].phase.Ended?
  }

  /** When everything is over, no goroutine, timer or cancellation is left to act. */
  lemma OverIsQuiet(o: Options, service: Options, client: bytes, s: State, e: Step)
    requires Reachable(o, service, client, s) && AllOver(s)
    ensures !Can(s, e)
  {
    ReachableInv(o, service, client, s);
    if e.Acts? && e.i < |s.tries| {
      EndedIsQuiet(o, service, client, s, e.i, e.act);
    }
    hide TryOk, Live, Won, OneWinner;
  }

  // ----- every race can be completed

  function ReadLeft(r: ReadOp): nat {
    match r
    case Reading => 2
    case HasRead(_, failed) => if failed then 1 else 3
    case ReadOver => 0
  }

  function LoopLeft(l: LoopAt, t: Timer): nat {
    (match l case Restarting => 7 case Checking => 4 case Draining => 3 case LoopOver => 0)
    + match t case Running => 2 case Fired => 1 case Off => 0
  }

  function SenderLeft(t: Try): nat {
    if t.srDone then 0 else match t.write case NoWrite => 1 case Wrote(_, _) => 2 case Writing(_) => 3
  }

  function HookLeft(t: Try): nat {
    match t.hook case Started => 2 case Posted => 1 case _ => 0
  }

  /** How much is left to do for one attempt. */
  function TryLeft(t: Try): nat {
    match t.phase
    case Dialing => 60
    case Racing => 50 + (if t.reply.Awaited? then 1 else 0) + SenderLeft(t) + HookLeft(t)
    case Winning => 30 + SenderLeft(t) + HookLeft(t)
    case Relaying => 20
    case Ending => 10 + SenderLeft(t) + HookLeft(t)
    case Ended => 0
  }

  predicate Early(s: State) { !s.read.ReadOver? || !s.loop.LoopOver? }

  function EarlyLeft(s: State): nat { ReadLeft(s.read) + LoopLeft(s.loop, s.timer) }

  /** The request ends, and then the loop stops. */
  function EarlyStep(s: State): Step {
    if s.read.Reading? then ReadReturns(0, true)
    else if s.read.HasRead? then ReadHandled
    else if s.loop.Restarting? then LoopRestarts
    else if s.loop.Checking? then LoopTurn([])
    else if s.timer.Running? then TimerFires
    else if s.timer.Fired? then TimerHandled
    else LoopDrained
  }

  lemma EarlyNearer(s: State)
    requires Inv(s) && Early(s)
    ensures Can(s, EarlyStep(s))
    ensures var r := Do(s, EarlyStep(s)); EarlyLeft(r) < EarlyLeft(s) && r.tries == s.tries
  {
    hide OneWinner, Won, TryOk, Live;
  }

  /** What an attempt does next when the request and the loop are over: dials and replies fail, its sender
      and its cancellation finish, and then it hands over or ends. */
  function TryStep(t: Try, i: nat): Step {
    if t.phase.Dialing? then Dialed(i, false, false)
    else if t.phase.Racing? then
      if t.reply.Awaited? then Acts(i, ReplyReturns(0, true)) else ReplyHandled(i)
    else if t.phase.Relaying? then TryEnds(i)
    else if !t.srDone then
      Acts(i, match t.write
              case NoWrite => Sends
              case Writing(_) => WriteReturns(0, true)
              case Wrote(_, _) => WriteHandled)
    else if !t.hook.Finished? then Acts(i, if t.hook.Started? then HookRuns else HookHandled)
    else if t.phase.Winning? then HandsOver(i) else TryEnds(i)
  }

  lemma TryCan(s: State, i: nat)
    requires Inv(s) && i < |s.tries| && !s.tries[i].phase.Ended? && !Early(s)
    ensures Can(s, TryStep(s.tries[i], i))
  {
    assert TryOk(s, s.tries[i]);
    hide Carries, Timing, Counters, Request, Winner;
  }

  lemma SenderNearer(s: State, t: Try)
    requires CanSend(t, s.data) && t.phase in {Ending, Winning} && t.srStop
    ensures var u := Sent(t, s.data); u.phase == t.phase && TryLeft(u) < TryLeft(t)
  {
    hide Rest;
  }

  lemma WriterNearer(t: Try)
    requires t.phase in {Ending, Winning} && !t.srDone
    ensures t.write.Writing? ==> Written(t, 0, true).phase == t.phase && TryLeft(Written(t, 0, true)) < TryLeft(t)
    ensures t.write.Wrote? ==> Counted(t).phase == t.phase && TryLeft(Counted(t)) < TryLeft(t)
  {
  }

  lemma ReplyNearer(t: Try)
    requires CanReply(t, 0, true)
    ensures Replied(t, 0, true).phase == t.phase && TryLeft(Replied(t, 0, true)) < TryLeft(t)
  {
    hide Rest;
  }

  lemma ActNearer(s: State, t: Try, i: nat)
    requires TryOk(s, t) && TryStep(t, i).Acts? && !t.phase.Ended? && CanAct(s, t, TryStep(t, i).act)
    ensures var u := Acted(s, t, TryStep(t, i).act); u.phase == t.phase && TryLeft(u) < TryLeft(t)
  {
    var a := TryStep(t, i).act;
    hide Carries, SendOk, Rest;
    if a.Sends? {
      hide TryLeft, Sent;
      SenderNearer(s, t);
    } else if a.ReplyReturns? {
      hide TryLeft, Replied;
      ReplyNearer(t);
    } else if a.WriteReturns? || a.WriteHandled? {
      hide TryLeft, Written, Counted;
      WriterNearer(t);
    }
  }

  /** Only attempt `i` moves, and nearer to its end; a winner that waits moves nearer to the relay. */
  predicate Moves(s: State, r: State, i: nat) {
    && i < |s.tries| == |r.tries| && r.read == s.read && r.loop == s.loop && r.timer == s.timer
    && r.tries == s.tries[i := r.tries[i]] && TryLeft(r.tries[i]) < TryLeft(s.tries[i])
    && (s.tries[i].phase.Winning? ==> r.tries[i].phase in {Winning, Relaying})
  }

  lemma DialMoves(s: State, i: nat)
    requires i < |s.tries| && s.tries[i].phase.Dialing?
    ensures Moves(s, DialedTo(s, i, false, false), i)
  {
  }

  lemma LeftByPhase(t: Try)
    ensures t.phase.Racing? ==> TryLeft(t) >= 50
    ensures t.phase.Winning? || t.phase.Ending? ==> TryLeft(t) < 50
  {
  }

  lemma JudgedMoves(s: State, i: nat)
    requires i < |s.tries| && s.tries[i].phase.Racing? && s.tries[i].reply.Arrived?
    ensures Moves(s, Judged(s, i), i)
  {
    var u := StopHook(StopSending(s.tries[i]));
    LeftByPhase(s.tries[i]);
    LeftByPhase(u.(phase := Ending));
    LeftByPhase(u.(phase := Ending, clock := Stopped));
    LeftByPhase(Wins(s.tries[i]));
    assert Wins(s.tries[i]).phase.Winning?;
    hide TryLeft, StopHook, StopSending, Wins;
  }

  lemma HandedMoves(s: State, i: nat)
    requires i < |s.tries| && s.tries[i].phase.Winning? && s.tries[i].reply.Arrived?
    ensures Moves(s, HandedOver(s, i), i)
  {
    hide Rest;
  }

  lemma EndMoves(s: State, i: nat)
    requires i < |s.tries| && s.tries[i].phase in {Relaying, Ending}
    ensures Moves(s, Over(s, i, s.tries[i]), i)
  {
  }

  lemma ActMoves(s: State, i: nat)
    requires i < |s.tries| && TryOk(s, s.tries[i]) && !s.tries[i].phase.Ended?
    requires TryStep(s.tries[i], i).Acts? && CanAct(s, s.tries[i], TryStep(s.tries[i], i).act)
    ensures Moves(s, Put(s, i, Acted(s, s.tries[i], TryStep(s.tries[i], i).act)), i)
  {
    ActNearer(s, s.tries[i], i);
    hide Acted, CanAct, TryLeft, TryOk, TryStep;
  }

  lemma TryNearer(s: State, i: nat)
    requires Inv(s) && i < |s.tries| && !s.tries[i].phase.Ended? && Can(s, TryStep(s.tries[i], i))
    ensures Moves(s, Do(s, TryStep(s.tries[i], i)), i)
  {
    assert TryOk(s, s.tries[i]);
    var e := TryStep(s.tries[i], i);
    hide Inv, TryOk, TryLeft, Moves, Acted, CanAct, Put, DialedTo, Judged, HandedOver, Over;
    if e.Acts? {
      ActMoves(s, i);
    } else if e.Dialed? {
      DialMoves(s, i);
    } else if e.ReplyHandled? {
      JudgedMoves(s, i);
    } else if e.HandsOver? {
      HandedMoves(s, i);
    } else {
      EndMoves(s, i);
    }
  }

  function Total(ts: seq<Try>): nat {
    if ts == [] then 0 else Total(ts[..|ts| - 1]) + TryLeft(ts[|ts| - 1])
  }

  lemma {:induction false} TotalPut(ts: seq<Try>, i: nat, t: Try)
    requires i < |ts|
    ensures Total(ts[i := t]) == Total(ts) - TryLeft(ts[i]) + TryLeft(t)
  {
    hide TryLeft;
    var n := |ts| - 1;
    if i == n {
      assert ts[i := t][..n] == ts[..n];
    } else {
      assert ts[i := t][..n] == ts[..n][i := t];
      TotalPut(ts[..n], i, t);
    }
  }

  lemma Prepended(s: State, e: Step, es: seq<Step>)
    requires Can(s, e)
    ensures Run(s, [e] + es) == Run(Do(s, e), es)
  {
    assert ([e] + es)[1..] == es;
    hide Can, Do;
  }

  /** Finishes everything, step by step. */
  lemma {:induction false} Finish(s: State) returns (es: seq<Step>)
    requires Inv(s)
    ensures Run(s, es).Some? && AllOver(Run(s, es).value)
    decreases EarlyLeft(s), Total(s.tries)
  {
    es := [];
    if !AllOver(s) {
      var e: Step;
      if Early(s) {
        e := EarlyStep(s);
        EarlyNearer(s);
      } else {
        var i :| 0 <= i < |s.tries| && !s.tries[i].phase.Ended?;
        e := TryStep(s.tries[i], i);
        TryCan(s, i);
        TryNearer(s, i);
        TotalPut(s.tries, i, Do(s, e).tries[i]);
      }
      StepKeeps(s, e);
      hide Can, Do, Inv, Total, TryLeft, AllOver, EarlyStep, TryStep;
      es := Finish(Do(s, e));
      Prepended(s, e, es);
      es := [e] + es;
    }
  }

  /** Lets the request and the loop end and the sender of attempt `i` stop, until it is handed over. */
  lemma {:induction false} Handing(s: State, i: nat) returns (es: seq<Step>)
    requires Inv(s) && At(s, i, {Winning, Relaying})
    ensures Run(s, es).Some? && At(Run(s, es).value, i, {Relaying})
    decreases EarlyLeft(s), TryLeft(s.tries[i])
  {
    es := [];
    if s.tries[i].phase.Winning? {
      var e: Step;
      if Early(s) {
        e := EarlyStep(s);
        EarlyNearer(s);
      } else {
        e := TryStep(s.tries[i], i);
        TryCan(s, i);
        TryNearer(s, i);
      }
      StepKeeps(s, e);
      hide Can, Do, Inv, TryLeft, EarlyStep, TryStep;
      es := Handing(Do(s, e), i);
      Prepended(s, e, es);
      es := [e] + es;
    }
  }

  /** From every state that a race can reach it can be brought to its end. */
  lemma Completes(o: Options, service: Options, client: bytes, s: State)
    requires Reachable(o, service, client, s)
    ensures exists es :: Run(s, es).Some? && AllOver(Run(s, es).value)
  {
    ReachableInv(o, service, client, s);
    var es := Finish(s);
  }

  /** A winner that waits can always get to the relay, whatever the other attempts are doing. */
  lemma WinnerRelays(o: Options, service: Options, client: bytes, s: State, i: nat)
    requires Reachable(o, service, client, s) && At(s, i, {Winning})
    ensures exists es :: Run(s, es).Some? && At(Run(s, es).value, i, {Relaying})
  {
    ReachableInv(o, service, client, s);
    var es := Handing(s, i);
  }

  // ----- the read deadline after the hand-over

  predicate Closes(e: Step) {
    e.Dialed? && e.closeConn
  }

  predicate SomeCloses(es: seq<Step>) {
    exists k :: 0 <= k < |es| && Closes(es[k])
  }

  lemma SomeClosesFirst(es: seq<Step>)
    requires es != []
    ensures SomeCloses(es) <==> Closes(es[0]) || SomeCloses(es[1..])
  {
    if k :| 0 <= k < |es| && Closes(es[k]) {
      assert k == 0 || Closes(es[1..][k - 1]);
    }
    if k :| 0 <= k < |es[1..]| && Closes(es[1..][k]) {
      assert Closes(es[k + 1]);
    }
  }

  /** Once the winner has the connection, a remaining dial that asks to close it is the only thing
      by which the race itself makes reads from the client expire. */
  lemma {:induction false} DeadlineAfterHandOver(s: State, es: seq<Step>)
    requires Inv(s) && s.handed && Run(s, es).Some?
    ensures Run(s, es).value.pipePast <==> s.pipePast || SomeCloses(es)
    decreases es
  {
    if es != [] {
      hide Can, Do, Inv, Closes;
      StepKeeps(s, es[0]);
      HandedStep(s, es[0]);
      DeadlineAfterHandOver(Do(s, es[0]), es[1..]);
      SomeClosesFirst(es);
      hide SomeCloses;
    }
  }

  lemma HandedStep(s: State, e: Step)
    requires Inv(s) && s.handed && Can(s, e)
    ensures Do(s, e).handed && (Do(s, e).pipePast <==> s.pipePast || Closes(e))
  {
    hide Counters, Timing, Request, Live, Won, OneWinner, Acted, Carries, SendOk;
  }

  lemma {:induction false} RunThen(s: State, es: seq<Step>, e: Step)
    requires Run(s, es).Some? && Can(Run(s, es).value, e)
    ensures Run(s, es + [e]) == Some(Do(Run(s, es).value, e))
    decreases es
  {
    hide Can, Do;
    if es == [] {
      assert Run(Do(s, e), []) == Some(Do(s, e));
    } else {
      assert (es + [e])[1..] == es[1..] + [e];
      RunThen(Do(s, es[0]), es[1..], e);
    }
  }

  lemma Then(s: State, e: Step) returns (r: State)
    requires Reachable(Options(2, 0), Options(0, 0), [], s) && Can(s, e)
    ensures Reachable(Options(2, 0), Options(0, 0), [], r) && r == Do(s, e)
  {
    var start := Start(Options(2, 0), Options(0, 0), []);
    var es :| Run(start, es) == Some(s);
    RunThen(start, es, e);
    r := Do(s, e);
  }

  function TwoDialingState(): State {
    Start(Options(2, 0), Options(0, 0), []).(
      loop := Restarting, n := 2, attempts := 2, tries := [NewTry([7]), NewTry([])])
  }

  /** Two attempts are dialing, and the timer of the loop is off. */
  lemma TwoDialing() returns (s: State)
    ensures Reachable(Options(2, 0), Options(0, 0), [], s)
    ensures s == TwoDialingState()
  {
    s := OneDialing();
    hide Reachable;
    s := Then(s, TimerHandled);
    s := Then(s, LoopTurn([]));
  }

  lemma OneDialing() returns (s: State)
    ensures Reachable(Options(2, 0), Options(0, 0), [], s)
    ensures s == TwoDialingState().(
      loop := Checking, newConn := false, timer := Fired, n := 1, attempts := 1, tries := [NewTry([7])])
  {
    s := Start(Options(2, 0), Options(0, 0), []);
    assert Run(s, []) == Some(s);
    hide Reachable;
    s := Then(s, LoopTurn([7]));
    s := Then(s, LoopRestarts);
    s := Then(s, TimerFires);
  }

  lemma OneWinning() returns (s: State)
    ensures Reachable(Options(2, 0), Options(0, 0), [], s) && |s.tries| == 2
    ensures s == TwoDialingState().(
      hasWinner := true, events := [Response], stop := true, pipePast := true, tries := s.tries)
    ensures s.tries[1] == NewTry([])
    ensures s.tries[0] == NewTry([7]).(phase := Winning, won := true, clock := Stopped, hook := Finished,
      reply := Arrived(7, false), heard := 1, srStop := true, writePast := true)
  {
    s := TwoDialing();
    hide Reachable;
    s := Then(s, Dialed(0, true, false));
    s := Then(s, Acts(0, ReplyReturns(1, false)));
    s := Then(s, ReplyHandled(0));
  }

  lemma OneRelaying() returns (s: State)
    ensures Reachable(Options(2, 0), Options(0, 0), [], s) && s.handed
    ensures |s.tries| == 2 && s.tries[0].phase.Relaying? && s.tries[1] == NewTry([])
  {
    s := OneWinning();
    hide Reachable;
    s := Then(s, ReadReturns(0, true));
    s := Then(s, ReadHandled);
    s := Then(s, LoopRestarts);
    s := Then(s, LoopTurn([]));
    s := Then(s, LoopDrained);
    s := Then(s, Acts(0, Sends));
    s := Then(s, HandsOver(0));
  }

  /** A dial that asks to close the connection after another attempt took it over
      makes the winner's reads from the client expire. */
  lemma ClosedAfterHandOver()
    ensures exists s ::
      && Reachable(Options(2, 0), Options(0, 0), [], s)
      && s.pipePast && |s.tries| == 2 && s.tries[0].phase.Relaying?
  {
    var s := OneRelaying();
    hide Reachable;
    s := Then(s, Dialed(1, false, true));
  }
}
