/**
 What a stream does in any run, without reference counts: which calls succeed, which events
 are emitted, when the stream is destroyed, and which bytes reach the wire.
 */
module StreamRuns {
  import opened Common
  import opened StreamSpec

  // What a program, or a handler of an event, does with the stream. The other arguments are
  // the environment's answers (what uv_try_write returns, whether uv_write and uv_shutdown
  // accept the request) and what the handlers of the destroy event do.
  datatype Program = Stop | Do(op: Op, rest: Program)

  datatype Op =
    | Write(bufs: seq<seq<Byte>>, tried: int, accepted: bool)
    | End(bufs: seq<seq<Byte>>, tried: int, accepted: bool, shut: bool)
    | Connect(accepted: bool)
    | Destroy(onDestroy: Program)
    | Copy
    | Drop(onDestroy: Program)

  // What the event loop does next.
  datatype Event =
    | Use(program: Program)
    | Progress(n: nat)
    | Written(status: int, onDrain: Program, onDestroy: Program)
    | Shut(status: int, onDestroy: Program)
    | Connected(status: int, onEvent: Program, onDestroy: Program)
    | Data(onData: Program)
    | Eof(onEnd: Program, shut: bool, onDestroy: Program)
    | ReadFailed(onError: Program, onDestroy: Program)
    | Closed

  datatype Name = DataEvent | EndEvent | ErrorEvent | ConnectEvent | DrainEvent | DestroyEvent

  datatype State = State(
    meter: Meter,
    writable: bool,      // neither ended nor being ended by the program
    writeEnded: bool,    // the shutdown has completed
    readEnded: bool,     // the peer's end has been seen
    pointers: nat,       // live shared_ptrs
    queue: seq<Request>, // writes libuv has accepted
    shutting: bool,      // a shutdown request is pending
    connecting: nat,     // pending connect requests
    closing: bool,       // destroyed, the handle being closed
    closed: bool,
    calling: bool,       // the callback of a request runs
    shutdowns: nat,      // shutdown requests accepted
    wire: seq<Byte>,
    written: seq<Byte>,  // what the writes that did not throw were given
    log: seq<Name>)      // the events emitted

  predicate Open(s: State) {
    !s.closing && !s.closed
  }

  function One(b: bool): nat {
    if b then 1 else 0
  }

  // Whoever keeps the stream alive.
  function Holders(s: State): nat {
    s.pointers + |s.queue| + One(s.shutting) + s.connecting + One(s.closing) + One(s.calling)
  }

  // ---------- Calls ----------

  // Whether the immediate write sends anything: not while writes are queued.
  predicate CanSend(s: State, tried: int) {
    Open(s) && Queued(s.queue) == [] && tried > 0
  }

  function SentNow(s: State, total: nat, tried: int): (n: nat)
    ensures n <= total
  {
    if !CanSend(s, tried) then 0 else if tried < total then tried else total
  }

  function Enqueued(s: State, rest: seq<Byte>, total: nat): State {
    s.(queue := s.queue + [Request(rest, total)], meter := Moved(s.meter, Enqueue(total)))
  }

  // The writing proper. The second component is false if it throws.
  function Pushed(s: State, bufs: seq<seq<Byte>>, tried: int, accepted: bool): (State, bool) {
    var all := Flatten(bufs);
    var sent := SentNow(s, |all|, tried);
    var t := s.(wire := s.wire + all[..sent]);
    if |bufs| == 0 || (CanSend(s, tried) && tried >= |all|) then (t.(written := s.written + all), true)
    else if accepted && Open(s) then (Enqueued(t, all[sent..], |all|).(written := s.written + all), true)
    else (t, false)
  }

  function Leveled(s: State): State {
    s.(meter := Moved(s.meter, Settle))
  }

  function Wrote(s: State, bufs: seq<seq<Byte>>, tried: int, accepted: bool): State {
    if !s.writable then s
    else
      var (t, ok) := Pushed(s, bufs, tried, accepted);
      if ok then Leveled(t) else t
  }

  // What `end` does before it marks the stream: the last writes and the shutdown request.
  function Ending(s: State, bufs: seq<seq<Byte>>, tried: int, accepted: bool, shut: bool): (State, bool) {
    if !Open(s) then (s, true)
    else
      var (t, ok) := Pushed(s, bufs, tried, accepted);
      if ok && shut then (t.(shutting := true, shutdowns := s.shutdowns + 1), true) else (t, false)
  }

  function Ended(s: State, bufs: seq<seq<Byte>>, tried: int, accepted: bool, shut: bool): State {
    if !s.writable then s
    else
      var (t, ok) := Ending(s, bufs, tried, accepted, shut);
      if ok then Leveled(t).(writable := false) else t
  }

  function Performed(s: State, op: Op): State
    decreases op, 0
  {
    match op
    case Write(bufs, tried, accepted) => Wrote(s, bufs, tried, accepted)
    case End(bufs, tried, accepted, shut) => Ended(s, bufs, tried, accepted, shut)
    case Connect(accepted) => if accepted && Open(s) then s.(connecting := s.connecting + 1) else s
    case Destroy(onDestroy) => Destroyed(s, onDestroy)
    case Copy => if s.pointers > 0 then s.(pointers := s.pointers + 1) else s
    case Drop(onDestroy) => if s.pointers > 0 then Released(s.(pointers := s.pointers - 1), onDestroy) else s
  }

  // A program holds a pointer; a handler can also run while the stream is not closed.
  predicate Alive(s: State) {
    s.pointers > 0 || !s.closed
  }

  function Ran(s: State, program: Program): State
    decreases program, 0
  {
    match program
    case Stop => s
    case Do(op, rest) => Ran(if Alive(s) then Performed(s, op) else s, rest)
  }

  function Noted(s: State, name: Name): State {
    s.(log := s.log + [name])
  }

  function Emitted(s: State, name: Name, handlers: Program): State
    decreases handlers, 1
  {
    Ran(Noted(s, name), handlers)
  }

  function Destroyed(s: State, onDestroy: Program): State
    decreases onDestroy, 2
  {
    if Open(s) then Emitted(s.(closing := true), DestroyEvent, onDestroy) else s
  }

  // Somebody has let go.
  function Released(s: State, onDestroy: Program): State
    decreases onDestroy, 3
  {
    if Holders(s) == 0 then Destroyed(s, onDestroy) else s
  }

  // ---------- Events ----------

  predicate Enabled(s: State, e: Event) {
    match e
    case Use(_) => s.pointers > 0
    case Progress(n) => n <= |Queued(s.queue)|
    case Written(status, _, _) => |s.queue| > 0 && (status == 0 ==> s.queue[0].rest == [])
    case Shut(status, _) => s.shutting && (status == 0 ==> |s.queue| == 0)
    case Connected(_, _, _) => s.connecting > 0
    case Data(_) => Open(s)
    case Eof(_, _, _) => Open(s)
    case ReadFailed(_, _) => Open(s)
    case Closed => s.closing && |s.queue| == 0 && !s.shutting && s.connecting == 0
  }

  // The end of a request's callback.
  function Finished(s: State, failed: bool, onDestroy: Program): State {
    Released((if failed then Destroyed(s, onDestroy) else s).(calling := false), onDestroy)
  }

  predicate DrainDue(s: State)
    requires |s.queue| > 0
  {
    Decrease(s.meter.level, s.queue[0].total).1
  }

  // What `_set_reading_ended` leaves.
  function AfterEnd(s: State, onEnd: Program): State {
    if s.readEnded then s else Emitted(s.(readEnded := true), EndEvent, onEnd)
  }

  function Completed(s: State): State
    requires |s.queue| > 0
  {
    s.(queue := s.queue[1..], meter := Moved(s.meter, Complete), calling := true)
  }

  function Drained(s: State, onDrain: Program): State
    requires |s.queue| > 0
  {
    if DrainDue(s) then Emitted(Completed(s), DrainEvent, onDrain) else Completed(s)
  }

  function Next(s: State, e: Event): State
    requires Enabled(s, e)
  {
    match e
    case Use(program) => Ran(s, program)
    case Progress(n) => s.(wire := s.wire + Queued(s.queue)[..n], queue := Advance(s.queue, n))
    case Written(status, onDrain, onDestroy) => Finished(Drained(s, onDrain), status != 0, onDestroy)
    case Shut(status, onDestroy) =>
      var t := s.(shutting := false, calling := true, writable := false, writeEnded := true);
      Finished(t, status != 0 || s.readEnded, onDestroy)
    case Connected(status, onEvent, onDestroy) =>
      var t := s.(connecting := s.connecting - 1, calling := true);
      Finished(Emitted(t, if status == 0 then ConnectEvent else ErrorEvent, onEvent), status != 0, onDestroy)
    case Data(onData) => Emitted(s, DataEvent, onData)
    case Eof(onEnd, shut, onDestroy) =>
      var t := AfterEnd(s, onEnd);
      if t.writeEnded then Destroyed(t, onDestroy) else Ended(t, [], 0, false, shut)
    case ReadFailed(onError, onDestroy) => Destroyed(Emitted(s, ErrorEvent, onError), onDestroy)
    case Closed => s.(closing := false, closed := true)
  }

  // Any finite run; what cannot happen at its turn is skipped.
  function Run(s: State, events: seq<Event>): State
    decreases |events|
  {
    if |events| == 0 then s
    else Run(if Enabled(s, events[0]) then Next(s, events[0]) else s, events[1..])
  }

  function Start(hwm: nat, lwm: nat): State {
    State(NewMeter(hwm, lwm),
          true, false, false, 1, [], false, 0, false, false, false, 0, [], [], [])
  }

  // ---------- What calls and events leave behind ----------

  // The moves of the meter, the events emitted, the bytes sent and those accepted, and the
  // numbers of connect and shutdown requests accepted, in terms of the calls and of libuv's
  // answers.
  datatype Trace = Trace(
    moves: seq<Move>, events: seq<Name>, sent: seq<Byte>, written: seq<Byte>, connects: nat, shutdowns: nat)

  const NOTHING := Trace([], [], [], [], 0, 0)

  function Joined(a: Trace, b: Trace): Trace {
    Trace(a.moves + b.moves, a.events + b.events, a.sent + b.sent, a.written + b.written,
          a.connects + b.connects, a.shutdowns + b.shutdowns)
  }

  // Whether libuv takes all of a write at once, which it does only with nothing queued; and
  // whether it refuses what is left.
  predicate AllSent(s: State, bufs: seq<seq<Byte>>, tried: int) {
    |bufs| == 0 || (Open(s) && Queued(s.queue) == [] && tried > 0 && tried >= |Flatten(bufs)|)
  }

  predicate Refuses(s: State, bufs: seq<seq<Byte>>, tried: int, accepted: bool) {
    !AllSent(s, bufs, tried) && !(accepted && Open(s))
  }

  // A write of which a part is left to be queued counts with its whole size.
  function WriteMoves(s: State, bufs: seq<seq<Byte>>, tried: int): seq<Move> {
    if AllSent(s, bufs, tried) then [] else [Enqueue(|Flatten(bufs)|)]
  }

  function AtOnce(s: State, bufs: seq<seq<Byte>>, tried: int): seq<Byte> {
    var all := Flatten(bufs);
    if !Open(s) || Queued(s.queue) != [] || tried <= 0 then [] else if tried < |all| then all[..tried] else all
  }

  // A refused write may have sent a part.
  function WriteTrace(s: State, bufs: seq<seq<Byte>>, tried: int, accepted: bool): (r: Trace)
    ensures r.events == [] && r.connects == 0 && r.shutdowns == 0
  {
    if Refuses(s, bufs, tried, accepted) then NOTHING.(sent := AtOnce(s, bufs, tried))
    else NOTHING.(moves := WriteMoves(s, bufs, tried), sent := AtOnce(s, bufs, tried), written := Flatten(bufs))
  }

  const SETTLED := NOTHING.(moves := [Settle])

  function OpTrace(s: State, op: Op): Trace
    decreases op, 0
  {
    match op
    case Write(bufs, tried, accepted) =>
      if !s.writable then NOTHING
      else if Refuses(s, bufs, tried, accepted) then WriteTrace(s, bufs, tried, accepted)
      else Joined(WriteTrace(s, bufs, tried, accepted), SETTLED)
    case End(bufs, tried, accepted, shut) =>
      if !s.writable then NOTHING
      else if !Open(s) then SETTLED
      else if Refuses(s, bufs, tried, accepted) || !shut then WriteTrace(s, bufs, tried, accepted)
      else Joined(WriteTrace(s, bufs, tried, accepted), SETTLED.(shutdowns := 1))
    case Connect(accepted) => NOTHING.(connects := One(accepted && Open(s)))
    case Destroy(onDestroy) => DestroyTrace(s, onDestroy)
    case Copy => NOTHING
    case Drop(onDestroy) =>
      if s.pointers > 0 then ReleaseTrace(s.(pointers := s.pointers - 1), onDestroy) else NOTHING
  }

  function ProgramTrace(s: State, program: Program): Trace
    decreases program, 0
  {
    match program
    case Stop => NOTHING
    case Do(op, rest) =>
      if Alive(s) then Joined(OpTrace(s, op), ProgramTrace(Performed(s, op), rest)) else ProgramTrace(s, rest)
  }

  // An event, and then what its handlers do.
  function EventTrace(s: State, name: Name, handlers: Program): Trace
    decreases handlers, 1
  {
    Joined(NOTHING.(events := [name]), ProgramTrace(Noted(s, name), handlers))
  }

  function DestroyTrace(s: State, onDestroy: Program): Trace
    decreases onDestroy, 2
  {
    if Open(s) then EventTrace(s.(closing := true), DestroyEvent, onDestroy) else NOTHING
  }

  function ReleaseTrace(s: State, onDestroy: Program): Trace
    decreases onDestroy, 3
  {
    if Holders(s) == 0 then DestroyTrace(s, onDestroy) else NOTHING
  }

  // The end of a callback, in the state its handlers leave.
  function FinishTrace(s: State, failed: bool, onDestroy: Program): Trace {
    if failed then
      Joined(DestroyTrace(s, onDestroy), ReleaseTrace(Destroyed(s, onDestroy).(calling := false), onDestroy))
    else ReleaseTrace(s.(calling := false), onDestroy)
  }

  function NextTrace(s: State, e: Event): Trace
    requires Enabled(s, e)
  {
    match e
    case Use(program) => ProgramTrace(s, program)
    case Progress(n) => NOTHING.(sent := Queued(s.queue)[..n])
    case Written(status, onDrain, onDestroy) =>
      Joined(Joined(NOTHING.(moves := [Complete]),
                    if DrainDue(s) then EventTrace(Completed(s), DrainEvent, onDrain) else NOTHING),
             FinishTrace(Drained(s, onDrain), status != 0, onDestroy))
    case Shut(status, onDestroy) =>
      FinishTrace(s.(shutting := false, calling := true, writable := false, writeEnded := true),
                  status != 0 || s.readEnded, onDestroy)
    case Connected(status, onEvent, onDestroy) =>
      var t := s.(connecting := s.connecting - 1, calling := true);
      var name := if status == 0 then ConnectEvent else ErrorEvent;
      Joined(EventTrace(t, name, onEvent), FinishTrace(Emitted(t, name, onEvent), status != 0, onDestroy))
    case Data(onData) => EventTrace(s, DataEvent, onData)
    case Eof(onEnd, shut, onDestroy) =>
      var t := AfterEnd(s, onEnd);
      Joined(if s.readEnded then NOTHING else EventTrace(s.(readEnded := true), EndEvent, onEnd),
             if t.writeEnded then DestroyTrace(t, onDestroy) else OpTrace(t, End([], 0, false, shut)))
    case ReadFailed(onError, onDestroy) =>
      Joined(EventTrace(s, ErrorEvent, onError), DestroyTrace(Emitted(s, ErrorEvent, onError), onDestroy))
    case Closed => NOTHING
  }

  function RunTrace(s: State, events: seq<Event>): Trace
    decreases |events|
  {
    if |events| == 0 then NOTHING
    else if Enabled(s, events[0]) then Joined(NextTrace(s, events[0]), RunTrace(Next(s, events[0]), events[1..]))
    else RunTrace(s, events[1..])
  }

  // The state t is left behind by the trace, apart from the connects that have completed.
  ghost predicate Leaves(s: State, r: Trace, t: State) {
    && t.meter == AllMoved(s.meter, r.moves)
    && t.log == s.log + r.events
    && t.wire == s.wire + r.sent && t.written == s.written + r.written
    && t.shutdowns == s.shutdowns + r.shutdowns
  }

  lemma LeavesNothing(s: State)
    ensures Leaves(s, NOTHING, s)
  {}

  lemma LeavesJoined(s: State, a: Trace, t: State, b: Trace, u: State)
    requires Leaves(s, a, t) && Leaves(t, b, u)
    ensures Leaves(s, Joined(a, b), u)
  {
    hide AllMoved;
    AllMovedAppend(s.meter, a.moves, b.moves);
  }

  lemma MovesAre(m: Meter, n: nat)
    ensures AllMoved(m, []) == m && AllMoved(m, [Settle]) == Moved(m, Settle)
    ensures AllMoved(m, [Enqueue(n)]) == Moved(m, Enqueue(n)) && AllMoved(m, [Complete]) == Moved(m, Complete)
    ensures AllMoved(m, [Enqueue(n)] + [Settle]) == Moved(Moved(m, Enqueue(n)), Settle)
    ensures AllMoved(m, [] + [Settle]) == Moved(m, Settle)
  {
    hide Moved;
    AllMovedSnoc(m, [], Settle);
    AllMovedSnoc(m, [], Enqueue(n));
    AllMovedSnoc(m, [], Complete);
    AllMovedSnoc(m, [Enqueue(n)], Settle);
    assert [] + [Settle] == [Settle] && [] + [Complete] == [Complete] && [] + [Enqueue(n)] == [Enqueue(n)];
  }

  lemma PushLeaves(s: State, bufs: seq<seq<Byte>>, tried: int, accepted: bool)
    ensures var (t, ok) := Pushed(s, bufs, tried, accepted);
            && (ok <==> !Refuses(s, bufs, tried, accepted))
            && Leaves(s, WriteTrace(s, bufs, tried, accepted), t)
            && t.connecting == s.connecting
  {
    hide AllMoved, Moved, Flatten, Queued, AtOnce, SentNow, Pushed;
    FlattenNothing(bufs);
    AtOnceIs(s, bufs, tried);
    PushedIs(s, bufs, tried, accepted);
    MovesAre(s.meter, |Flatten(bufs)|);
  }

  lemma AtOnceIs(s: State, bufs: seq<seq<Byte>>, tried: int)
    ensures AtOnce(s, bufs, tried) == Flatten(bufs)[..SentNow(s, |Flatten(bufs)|, tried)]
  {
    hide Flatten, Queued;
  }

  lemma SettleLeaves(s: State)
    ensures Leaves(s, SETTLED, Leveled(s))
  {
    hide AllMoved, Moved;
    MovesAre(s.meter, 0);
  }

  lemma WriteLeaves(s: State, bufs: seq<seq<Byte>>, tried: int, accepted: bool)
    ensures var t := Wrote(s, bufs, tried, accepted);
            Leaves(s, OpTrace(s, Write(bufs, tried, accepted)), t) && t.connecting == s.connecting
  {
    hide Leaves, Pushed, Refuses, WriteTrace;
    LeavesNothing(s);
    PushLeaves(s, bufs, tried, accepted);
    var t := Pushed(s, bufs, tried, accepted).0;
    SettleLeaves(t);
    LeavesJoined(s, WriteTrace(s, bufs, tried, accepted), t, SETTLED, Leveled(t));
  }

  // Marking the stream adds nothing, and an accepted shutdown request one.
  lemma EndMarkLeaves(s: State, shut: bool)
    ensures var u := if shut then s.(shutting := true, shutdowns := s.shutdowns + 1) else s;
            Leaves(s, SETTLED.(shutdowns := One(shut)), Leveled(u).(writable := false))
  {
    hide AllMoved, Moved;
    MovesAre(s.meter, 0);
  }

  lemma EndLeaves(s: State, bufs: seq<seq<Byte>>, tried: int, accepted: bool, shut: bool)
    ensures var t := Ended(s, bufs, tried, accepted, shut);
            Leaves(s, OpTrace(s, End(bufs, tried, accepted, shut)), t) && t.connecting == s.connecting
  {
    hide Leaves, Pushed, Refuses, WriteTrace, Moved;
    LeavesNothing(s);
    PushLeaves(s, bufs, tried, accepted);
    var t := Pushed(s, bufs, tried, accepted).0;
    EndMarkLeaves(s, false);
    EndMarkLeaves(t, true);
    LeavesJoined(s, WriteTrace(s, bufs, tried, accepted), t, SETTLED.(shutdowns := 1),
                 Leveled(t.(shutting := true, shutdowns := t.shutdowns + 1)).(writable := false));
    PushedShutdowns(s, bufs, tried, accepted);
  }

  lemma PushedShutdowns(s: State, bufs: seq<seq<Byte>>, tried: int, accepted: bool)
    ensures Pushed(s, bufs, tried, accepted).0.shutdowns == s.shutdowns
  {
    hide Flatten, Queued, Moved;
  }

  lemma ConnectLeaves(s: State, accepted: bool)
    ensures var t, r := Performed(s, Op.Connect(accepted)), OpTrace(s, Op.Connect(accepted));
            Leaves(s, r, t) && t.connecting == s.connecting + r.connects
  {
    LeavesNothing(s);
  }

  lemma {:induction false} DropLeaves(s: State, onDestroy: Program)
    ensures var t, r := Performed(s, Drop(onDestroy)), OpTrace(s, Drop(onDestroy));
            Leaves(s, r, t) && t.connecting == s.connecting + r.connects
    decreases onDestroy, 4
  {
    hide AllMoved, Released, ReleaseTrace;
    LeavesNothing(s);
    if s.pointers > 0 {
      ReleaseLeaves(s.(pointers := s.pointers - 1), onDestroy);
    }
  }

  lemma CopyLeaves(s: State)
    ensures Leaves(s, OpTrace(s, Copy), Performed(s, Copy)) && Performed(s, Copy).connecting == s.connecting
    ensures OpTrace(s, Copy).connects == 0
  {
    LeavesNothing(s);
  }

  // What a call, a program and a handler leave behind.
  lemma {:induction false} OpLeaves(s: State, op: Op)
    ensures var t, r := Performed(s, op), OpTrace(s, op);
            Leaves(s, r, t) && t.connecting == s.connecting + r.connects
    decreases op, 0
  {
    hide Leaves, Wrote, Ended, Destroyed, Released, DestroyTrace, ReleaseTrace, Refuses, WriteTrace, Holders;
    match op
    case Write(bufs, tried, accepted) => WriteLeaves(s, bufs, tried, accepted);
    case End(bufs, tried, accepted, shut) => EndLeaves(s, bufs, tried, accepted, shut);
    case Connect(accepted) => ConnectLeaves(s, accepted);
    case Destroy(onDestroy) => DestroyLeaves(s, onDestroy);
    case Copy => CopyLeaves(s);
    case Drop(onDestroy) => DropLeaves(s, onDestroy);
  }

  lemma {:induction false} ProgramLeaves(s: State, program: Program)
    ensures var t, r := Ran(s, program), ProgramTrace(s, program);
            Leaves(s, r, t) && t.connecting == s.connecting + r.connects
    decreases program, 0
  {
    hide Leaves, Performed, OpTrace;
    LeavesNothing(s);
    match program
    case Stop =>
    case Do(op, rest) =>
      OpLeaves(s, op);
      if Alive(s) {
        var t := Performed(s, op);
        ProgramLeaves(t, rest);
        LeavesJoined(s, OpTrace(s, op), t, ProgramTrace(t, rest), Ran(t, rest));
      } else {
        ProgramLeaves(s, rest);
      }
  }

  lemma {:induction false} EventLeaves(s: State, name: Name, handlers: Program)
    ensures var t, r := Emitted(s, name, handlers), EventTrace(s, name, handlers);
            Leaves(s, r, t) && t.connecting == s.connecting + r.connects
    decreases handlers, 1
  {
    hide AllMoved, Ran, ProgramTrace;
    ProgramLeaves(Noted(s, name), handlers);
    MovesAre(s.meter, 0);
    LeavesJoined(s, NOTHING.(events := [name]), Noted(s, name), ProgramTrace(Noted(s, name), handlers),
                 Emitted(s, name, handlers));
  }

  lemma {:induction false} DestroyLeaves(s: State, onDestroy: Program)
    ensures var t, r := Destroyed(s, onDestroy), DestroyTrace(s, onDestroy);
            Leaves(s, r, t) && t.connecting == s.connecting + r.connects
    decreases onDestroy, 2
  {
    hide AllMoved, Emitted, EventTrace;
    LeavesNothing(s);
    EventLeaves(s.(closing := true), DestroyEvent, onDestroy);
  }

  lemma {:induction false} ReleaseLeaves(s: State, onDestroy: Program)
    ensures var t, r := Released(s, onDestroy), ReleaseTrace(s, onDestroy);
            Leaves(s, r, t) && t.connecting == s.connecting + r.connects
    decreases onDestroy, 3
  {
    hide Leaves, Destroyed, DestroyTrace, Holders;
    LeavesNothing(s);
    DestroyLeaves(s, onDestroy);
  }

  lemma FinishLeaves(s: State, failed: bool, onDestroy: Program)
    ensures var t, r := Finished(s, failed, onDestroy), FinishTrace(s, failed, onDestroy);
            Leaves(s, r, t) && t.connecting == s.connecting + r.connects
  {
    hide AllMoved, Destroyed, Released, DestroyTrace, ReleaseTrace;
    DestroyLeaves(s, onDestroy);
    var d := if failed then Destroyed(s, onDestroy) else s;
    var u := d.(calling := false);
    ReleaseLeaves(u, onDestroy);
    if failed {
      LeavesJoined(s, DestroyTrace(s, onDestroy), u, ReleaseTrace(u, onDestroy), Released(u, onDestroy));
    }
  }

  lemma CompleteLeaves(s: State)
    requires |s.queue| > 0
    ensures Leaves(s, NOTHING.(moves := [Complete]), Completed(s)) && Completed(s).connecting == s.connecting
  {
    hide AllMoved, Moved;
    MovesAre(s.meter, 0);
  }

  // What an event leaves behind; a completed connect leaves one fewer of those pending.
  ghost predicate Accounted(s: State, e: Event)
    requires Enabled(s, e)
  {
    var t, r := Next(s, e), NextTrace(s, e);
    Leaves(s, r, t) && t.connecting + One(e.Connected?) == s.connecting + r.connects
  }

  // The completed write, then the drain event if it is due, then the end of the callback.
  lemma WrittenLeaves(s: State, status: int, onDrain: Program, onDestroy: Program)
    requires Enabled(s, Written(status, onDrain, onDestroy))
    ensures Accounted(s, Written(status, onDrain, onDestroy))
  {
    hide Leaves, Completed, Emitted, EventTrace, Finished, FinishTrace, DrainDue;
    var c, d := Completed(s), Drained(s, onDrain);
    CompleteLeaves(s);
    LeavesNothing(c);
    EventLeaves(c, DrainEvent, onDrain);
    var r := if DrainDue(s) then EventTrace(c, DrainEvent, onDrain) else NOTHING;
    LeavesJoined(s, NOTHING.(moves := [Complete]), c, r, d);
    FinishLeaves(d, status != 0, onDestroy);
    LeavesJoined(s, Joined(NOTHING.(moves := [Complete]), r), d, FinishTrace(d, status != 0, onDestroy),
                 Finished(d, status != 0, onDestroy));
  }

  lemma ConnectedLeaves(s: State, status: int, onEvent: Program, onDestroy: Program)
    requires Enabled(s, Connected(status, onEvent, onDestroy))
    ensures Accounted(s, Connected(status, onEvent, onDestroy))
  {
    hide AllMoved, Emitted, EventTrace, Finished, FinishTrace;
    var name, failed := if status == 0 then ConnectEvent else ErrorEvent, status != 0;
    var c := s.(connecting := s.connecting - 1, calling := true);
    var u := Emitted(c, name, onEvent);
    EventLeaves(c, name, onEvent);
    FinishLeaves(u, failed, onDestroy);
    LeavesJoined(s, EventTrace(c, name, onEvent), u, FinishTrace(u, failed, onDestroy), Finished(u, failed, onDestroy));
  }

  lemma ShutLeaves(s: State, status: int, onDestroy: Program)
    requires Enabled(s, Shut(status, onDestroy))
    ensures Accounted(s, Shut(status, onDestroy))
  {
    hide AllMoved, Finished, FinishTrace;
    FinishLeaves(s.(shutting := false, calling := true, writable := false, writeEnded := true),
                 status != 0 || s.readEnded, onDestroy);
  }

  lemma DataLeaves(s: State, onData: Program)
    requires Enabled(s, Data(onData))
    ensures Accounted(s, Data(onData))
  {
    hide Leaves, Emitted, EventTrace;
    EventLeaves(s, DataEvent, onData);
  }

  lemma EofLeaves(s: State, onEnd: Program, shut: bool, onDestroy: Program)
    requires Enabled(s, Eof(onEnd, shut, onDestroy))
    ensures Accounted(s, Eof(onEnd, shut, onDestroy))
  {
    hide AllMoved, Emitted, EventTrace, Destroyed, DestroyTrace, Ended, OpTrace;
    var u := AfterEnd(s, onEnd);
    var a := if s.readEnded then NOTHING else EventTrace(s.(readEnded := true), EndEvent, onEnd);
    LeavesNothing(s);
    EventLeaves(s.(readEnded := true), EndEvent, onEnd);
    if u.writeEnded {
      DestroyLeaves(u, onDestroy);
      LeavesJoined(s, a, u, DestroyTrace(u, onDestroy), Destroyed(u, onDestroy));
    } else {
      EndIs(u, shut);
      OpLeaves(u, End([], 0, false, shut));
      LeavesJoined(s, a, u, OpTrace(u, End([], 0, false, shut)), Ended(u, [], 0, false, shut));
    }
  }

  lemma EndIs(s: State, shut: bool)
    ensures Performed(s, End([], 0, false, shut)) == Ended(s, [], 0, false, shut)
  {}

  lemma ReadFailedLeaves(s: State, onError: Program, onDestroy: Program)
    requires Enabled(s, ReadFailed(onError, onDestroy))
    ensures Accounted(s, ReadFailed(onError, onDestroy))
  {
    hide Leaves, Emitted, EventTrace, Destroyed, DestroyTrace;
    var u := Emitted(s, ErrorEvent, onError);
    EventLeaves(s, ErrorEvent, onError);
    DestroyLeaves(u, onDestroy);
    LeavesJoined(s, EventTrace(s, ErrorEvent, onError), u, DestroyTrace(u, onDestroy), Destroyed(u, onDestroy));
  }

  lemma QuietLeaves(s: State, e: Event)
    requires Enabled(s, e) && (e.Progress? || e.Closed?)
    ensures Accounted(s, e)
  {
    hide AllMoved, Advance, Queued;
    LeavesNothing(s);
  }

  lemma UseLeaves(s: State, program: Program)
    requires Enabled(s, Use(program))
    ensures Accounted(s, Use(program))
  {
    hide Leaves, Ran, ProgramTrace;
    ProgramLeaves(s, program);
  }

  // Every event leaves its trace: the event itself first, then what its handlers do.
  lemma NextLeaves(s: State, e: Event)
    requires Enabled(s, e)
    ensures Accounted(s, e)
  {
    hide *;
    match e
    case Use(program) => UseLeaves(s, program);
    case Written(status, onDrain, onDestroy) => WrittenLeaves(s, status, onDrain, onDestroy);
    case Shut(status, onDestroy) => ShutLeaves(s, status, onDestroy);
    case Connected(status, onEvent, onDestroy) => ConnectedLeaves(s, status, onEvent, onDestroy);
    case Data(onData) => DataLeaves(s, onData);
    case Eof(onEnd, shut, onDestroy) => EofLeaves(s, onEnd, shut, onDestroy);
    case ReadFailed(onError, onDestroy) => ReadFailedLeaves(s, onError, onDestroy);
    case _ => QuietLeaves(s, e);
  }

  lemma {:induction false} RunLeaves(s: State, events: seq<Event>)
    ensures Leaves(s, RunTrace(s, events), Run(s, events))
    decreases |events|
  {
    hide Leaves, Next, NextTrace, Enabled;
    LeavesNothing(s);
    if |events| > 0 {
      var e := events[0];
      if Enabled(s, e) {
        NextLeaves(s, e);
        RunLeaves(Next(s, e), events[1..]);
        LeavesJoined(s, NextTrace(s, e), Next(s, e), RunTrace(Next(s, e), events[1..]), Run(s, events));
      } else {
        RunLeaves(s, events[1..]);
      }
    }
  }

  // ---------- What every run keeps ----------

  function Times(log: seq<Name>, name: Name): nat {
    multiset(log)[name]
  }

  // The watermark is the sum of the outstanding writes; nothing is outstanding once the handle
  // is closed; at most one shutdown is ever accepted, and none while the stream is writable;
  // the drain, destroy and end events have been emitted exactly as often as they were due.
  ghost predicate Core(s: State) {
    && Metered(s.meter) && s.meter.outstanding == Totals(s.queue)
    && !(s.closing && s.closed) && (s.closed ==> |s.queue| == 0 && !s.shutting && s.connecting == 0)
    && s.shutdowns == One(s.shutting || s.writeEnded) && !(s.shutting && s.writeEnded)
    && (if s.writable then s.shutdowns == 0 else s.shutdowns == 1 || !Open(s))
    && Times(s.log, DrainEvent) == s.meter.drains
    && Times(s.log, DestroyEvent) == One(!Open(s))
    && Times(s.log, EndEvent) == One(s.readEnded)
  }

  // Until the handle is closed, somebody keeps the stream alive.
  ghost predicate Inv(s: State) {
    Core(s) && (Holders(s) == 0 ==> s.closed)
  }

  // What a program can do: it adds requests while the stream is open, and ends none.
  ghost predicate Later(s: State, t: State) {
    && t.closed == s.closed && t.calling == s.calling
    && t.readEnded == s.readEnded && t.writeEnded == s.writeEnded
    && (Open(t) ==> Open(s)) && (t.writable ==> s.writable)
    && (s.shutting ==> t.shutting) && s.connecting <= t.connecting && |s.queue| <= |t.queue|
    && (!Open(s) ==>
          t.queue == s.queue && t.connecting == s.connecting && t.shutting == s.shutting && t.written == s.written)
    && s.log <= t.log
  }

  lemma LaterRefl(s: State)
    ensures Later(s, s)
  {}

  lemma LaterTrans(s: State, t: State, u: State)
    requires Later(s, t) && Later(t, u)
    ensures Later(s, u)
  {}

  lemma NotedCounts(s: State, name: Name)
    ensures forall n :: Times(Noted(s, name).log, n) == Times(s.log, n) + One(n == name)
  {
    assert multiset(s.log + [name]) == multiset(s.log) + multiset{name};
  }

  lemma TotalsSnoc(queue: seq<Request>, r: Request)
    ensures Totals(queue + [r]) == Totals(queue) + [r.total]
  {}

  lemma EnqueuedKeeps(s: State, rest: seq<Byte>, total: nat)
    requires Inv(s) && Open(s)
    ensures var t := Enqueued(s, rest, total);
            && Inv(t) && Later(s, t) && Open(t)
            && t.writable == s.writable && t.shutting == s.shutting && t.shutdowns == s.shutdowns
  {
    hide Metered, Totals, Times;
    TotalsSnoc(s.queue, Request(rest, total));
    MovedKeeps(s.meter, Enqueue(total));
    EnqueuedMeter(s.meter, total);
  }

  lemma EnqueuedMeter(m: Meter, n: nat)
    ensures var t := Moved(m, Enqueue(n)); t.outstanding == m.outstanding + [n] && t.drains == m.drains
  {}

  // The bytes that went through a state do not matter to the invariant.
  lemma BytesKeep(s: State, wire: seq<Byte>, written: seq<Byte>)
    requires Inv(s)
    ensures var t := s.(wire := wire, written := written); Inv(t) && (Open(s) || written == s.written ==> Later(s, t))
  {}

  lemma PushedKeeps(s: State, bufs: seq<seq<Byte>>, tried: int, accepted: bool)
    requires Inv(s)
    ensures var t := Pushed(s, bufs, tried, accepted).0;
            && Inv(t) && Later(s, t) && (Open(t) <==> Open(s))
            && t.writable == s.writable && t.shutting == s.shutting && t.shutdowns == s.shutdowns
  {
    hide Inv, Later, Pushed, Enqueued, Queued, SentNow, Flatten;
    var all := Flatten(bufs);
    var sent := SentNow(s, |all|, tried);
    PushedIs(s, bufs, tried, accepted);
    LaterRefl(s);
    var t := s.(wire := s.wire + all[..sent]);
    BytesKeep(s, t.wire, s.written);
    BytesKeep(s, t.wire, s.written + all);
    if Open(s) {
      EnqueuedKeeps(t, all[sent..], |all|);
      var u := Enqueued(t, all[sent..], |all|);
      BytesKeep(u, u.wire, s.written + all);
      LaterTrans(s, t, u);
      LaterTrans(s, u, u.(written := s.written + all));
    }
  }

  lemma FlattenNothing(bufs: seq<seq<Byte>>)
    ensures |bufs| == 0 ==> Flatten(bufs) == []
  {}

  lemma LeveledKeeps(s: State)
    requires Core(s)
    ensures Core(Leveled(s)) && Later(s, Leveled(s))
  {
    hide Metered, Totals;
    MovedKeeps(s.meter, Settle);
  }

  lemma WroteKeeps(s: State, bufs: seq<seq<Byte>>, tried: int, accepted: bool)
    requires Inv(s)
    ensures Inv(Wrote(s, bufs, tried, accepted)) && Later(s, Wrote(s, bufs, tried, accepted))
  {
    hide Pushed, Metered, Totals;
    LaterRefl(s);
    var t := Pushed(s, bufs, tried, accepted).0;
    PushedKeeps(s, bufs, tried, accepted);
    LeveledKeeps(t);
    LaterTrans(s, t, Leveled(t));
  }

  // What holds of the first half of `end`, as far as the second half does not follow.
  lemma EndingKeeps(s: State, bufs: seq<seq<Byte>>, tried: int, accepted: bool, shut: bool)
    requires Inv(s) && s.writable
    ensures var (t, ok) := Ending(s, bufs, tried, accepted, shut);
            && Later(s, t) && t.writable && (Open(t) <==> Open(s)) && (Holders(t) == 0 ==> t.closed)
            && Core(if ok then t.(writable := false) else t)
            && (!ok ==> Open(t) && ((!accepted && |bufs| > 0) || !shut))
  {
    hide Pushed, Metered, Totals, Times;
    PushedKeeps(s, bufs, tried, accepted);
    PushedAccepts(s, bufs, tried, accepted);
  }

  lemma EndedKeeps(s: State, bufs: seq<seq<Byte>>, tried: int, accepted: bool, shut: bool)
    requires Inv(s)
    ensures var t := Ended(s, bufs, tried, accepted, shut);
            && Inv(t) && Later(s, t)
            && (t.writable ==> Open(t) && ((!accepted && |bufs| > 0) || !shut))
  {
    hide Ending, Metered, Totals, Times;
    if s.writable {
      EndingKeeps(s, bufs, tried, accepted, shut);
      var t := Ending(s, bufs, tried, accepted, shut).0;
      MovedKeeps(t.meter, Settle);
    } else {
      LaterRefl(s);
    }
  }

  lemma NothingPushed(s: State, bufs: seq<seq<Byte>>, tried: int, accepted: bool)
    requires |bufs| == 0
    ensures Pushed(s, bufs, tried, accepted) == (s, true)
  {
    assert s.wire + [] == s.wire && s.written + [] == s.written;
  }

  lemma DroppedCore(s: State)
    requires Core(s) && s.pointers > 0
    ensures Core(s.(pointers := s.pointers - 1))
  {}

  lemma PushedAccepts(s: State, bufs: seq<seq<Byte>>, tried: int, accepted: bool)
    ensures Open(s) && (accepted || |bufs| == 0) ==> Pushed(s, bufs, tried, accepted).1
  {}

  // One more holder; the rest stays.
  lemma HeldKeeps(s: State, pointers: nat, connecting: nat)
    requires Inv(s) && s.pointers <= pointers && s.connecting <= connecting && (connecting > s.connecting ==> Open(s))
    ensures var t := s.(pointers := pointers, connecting := connecting); Inv(t) && Later(s, t)
  {
    hide Metered, Totals, Times;
  }

  lemma {:induction false} DropKeeps(s: State, onDestroy: Program)
    requires Inv(s) && s.pointers > 0
    ensures var t := Released(s.(pointers := s.pointers - 1), onDestroy); Inv(t) && Later(s, t)
    decreases onDestroy, 4
  {
    hide Released, Metered, Totals, Times;
    ReleasedKeeps(s.(pointers := s.pointers - 1), onDestroy);
  }

  lemma {:induction false} PerformedKeeps(s: State, op: Op)
    requires Inv(s)
    ensures Inv(Performed(s, op)) && Later(s, Performed(s, op))
    decreases op, 0
  {
    hide Inv, Later, Wrote, Ended, Destroyed, Released;
    LaterRefl(s);
    match op
    case Write(bufs, tried, accepted) => WroteKeeps(s, bufs, tried, accepted);
    case End(bufs, tried, accepted, shut) => EndedKeeps(s, bufs, tried, accepted, shut);
    case Connect(accepted) =>
      if accepted && Open(s) {
        HeldKeeps(s, s.pointers, s.connecting + 1);
      }
    case Destroy(onDestroy) => InvIsCore(s); DestroyedKeeps(s, onDestroy);
    case Copy => HeldKeeps(s, s.pointers + 1, s.connecting);
    case Drop(onDestroy) =>
      if s.pointers > 0 {
        DropKeeps(s, onDestroy);
      }
  }

  lemma InvIsCore(s: State)
    requires Inv(s)
    ensures Core(s)
  {}

  // Every program keeps the invariant, whatever the handlers of the destroy event do.
  lemma {:induction false} RanKeeps(s: State, program: Program)
    requires Inv(s)
    ensures Inv(Ran(s, program)) && Later(s, Ran(s, program))
    decreases program, 0
  {
    hide Inv, Later, Performed;
    LaterRefl(s);
    match program
    case Stop =>
    case Do(op, rest) =>
      PerformedKeeps(s, op);
      var t := if Alive(s) then Performed(s, op) else s;
      RanKeeps(t, rest);
      LaterTrans(s, t, Ran(t, rest));
  }

  lemma {:induction false} EmittedKeeps(s: State, name: Name, handlers: Program)
    requires Inv(Noted(s, name))
    ensures var t := Emitted(s, name, handlers); Inv(t) && Later(s, t) && s.log + [name] <= t.log
    decreases handlers, 1
  {
    hide Inv, Ran;
    RanKeeps(Noted(s, name), handlers);
    LaterNoted(s, name);
    LaterTrans(s, Noted(s, name), Emitted(s, name, handlers));
  }

  lemma LaterNoted(s: State, name: Name)
    ensures Later(s, Noted(s, name))
  {}

  lemma {:induction false} DestroyedKeeps(s: State, onDestroy: Program)
    requires Core(s) && (!Open(s) ==> Inv(s))
    ensures var t := Destroyed(s, onDestroy);
            && Inv(t) && Later(s, t) && !Open(t)
            && (if Open(s) then s.log + [DestroyEvent] <= t.log else t == s)
    decreases onDestroy, 2
  {
    hide Emitted, Core, Noted;
    if Open(s) {
      DestroyNoted(s);
      ClosingLater(s);
      EmittedKeeps(s.(closing := true), DestroyEvent, onDestroy);
    }
  }

  lemma DestroyNoted(s: State)
    requires Core(s) && Open(s)
    ensures Inv(Noted(s.(closing := true), DestroyEvent))
  {
    hide Metered, Totals, Times;
    NotedCounts(s.(closing := true), DestroyEvent);
  }

  lemma ClosingLater(s: State)
    requires Open(s)
    ensures Later(s, s.(closing := true))
  {}

  lemma {:induction false} ReleasedKeeps(s: State, onDestroy: Program)
    requires Core(s)
    ensures Inv(Released(s, onDestroy)) && Later(s, Released(s, onDestroy))
    decreases onDestroy, 3
  {
    hide Destroyed, Core;
    LaterRefl(s);
    if Holders(s) == 0 {
      DestroyedKeeps(s, onDestroy);
    }
  }

  // ---------- Between two events ----------

  // A stream both halves of which have ended is destroyed.
  ghost predicate Rest(s: State) {
    Inv(s) && !s.calling && (s.readEnded && s.writeEnded ==> !Open(s))
  }

  ghost predicate Forward(s: State, t: State) {
    && (Open(t) ==> Open(s)) && (s.closed ==> t.closed)
    && (s.readEnded ==> t.readEnded) && (s.writeEnded ==> t.writeEnded)
    && (t.writable ==> s.writable) && s.log <= t.log
  }

  lemma StartRests(hwm: nat, lwm: nat)
    requires lwm < hwm
    ensures Rest(Start(hwm, lwm)) && Open(Start(hwm, lwm))
  {
    assert Totals([]) == [];
  }

  lemma FinishedKeeps(s: State, failed: bool, onDestroy: Program)
    requires Inv(s) && s.calling
    ensures var t := Finished(s, failed, onDestroy);
            && Inv(t) && Later(s.(calling := false), t) && (failed ==> !Open(t))
            && (!failed && s.pointers > 0 ==> t == s.(calling := false))
  {
    hide Destroyed, Released, Metered, Totals, Times;
    var d := if failed then Destroyed(s, onDestroy) else s;
    LaterRefl(s);
    if failed {
      DestroyedKeeps(s, onDestroy);
    }
    var u := d.(calling := false);
    ReleasedKeeps(u, onDestroy);
    LaterTrans(s.(calling := false), u, Released(u, onDestroy));
    HeldStays(u, onDestroy);
  }

  lemma ReleasedIs(s: State, onDestroy: Program)
    requires Core(s)
    ensures Released(s, onDestroy) == if Holders(s) == 0 && Open(s) then Destroyed(s, onDestroy) else s
    ensures Holders(s) == 0 && !Open(s) ==> s.closed
  {}

  lemma HeldStays(s: State, onDestroy: Program)
    ensures Holders(s) > 0 ==> Released(s, onDestroy) == s
  {}

  lemma CompletedKeeps(s: State)
    requires Rest(s) && |s.queue| > 0
    ensures Inv(if DrainDue(s) then Noted(Completed(s), DrainEvent) else Completed(s))
  {
    hide Metered, Times;
    MovedKeeps(s.meter, Complete);
    NotedCounts(Completed(s), DrainEvent);
    CompletedMeter(s.meter, s.queue);
  }

  lemma CompletedMeter(m: Meter, queue: seq<Request>)
    requires |queue| > 0 && m.outstanding == Totals(queue)
    ensures var t := Moved(m, Complete);
            && t.outstanding == Totals(queue[1..])
            && t.level == Decrease(m.level, queue[0].total).0
            && t.drains == m.drains + One(Decrease(m.level, queue[0].total).1)
  {}

  lemma ForwardIs(s: State, t: State)
    requires Later(s, t)
    ensures Forward(s, t)
  {}

  lemma DrainedKeeps(s: State, onDrain: Program)
    requires Rest(s) && |s.queue| > 0
    ensures var u := Drained(s, onDrain);
            && Inv(u) && Later(Completed(s), u)
            && (DrainDue(s) ==> s.log + [DrainEvent] <= u.log)
  {
    hide Emitted, DrainDue, Core, Decrease, Moved;
    CompletedKeeps(s);
    LaterRefl(Completed(s));
    if DrainDue(s) {
      EmittedKeeps(Completed(s), DrainEvent, onDrain);
    }
  }

  lemma WrittenKeeps(s: State, status: int, onDrain: Program, onDestroy: Program)
    requires Rest(s) && |s.queue| > 0
    ensures var t := Finished(Drained(s, onDrain), status != 0, onDestroy);
            && Rest(t) && Later(Completed(s).(calling := false), t) && (status != 0 ==> !Open(t))
            && (DrainDue(s) ==> s.log + [DrainEvent] <= t.log)
  {
    hide Drained, Finished, DrainDue, Core, Moved;
    var c, u := Completed(s), Drained(s, onDrain);
    DrainedKeeps(s, onDrain);
    FinishedKeeps(u, status != 0, onDestroy);
    LaterTrans(c.(calling := false), u.(calling := false), Finished(u, status != 0, onDestroy));
  }

  lemma ShutKeeps(s: State, status: int, onDestroy: Program)
    requires Rest(s) && s.shutting
    ensures var t := s.(shutting := false, calling := true, writable := false, writeEnded := true);
            var u := Finished(t, status != 0 || s.readEnded, onDestroy);
            && Rest(u) && Later(t.(calling := false), u) && (status != 0 || s.readEnded ==> !Open(u))
  {
    hide Finished, Metered, Totals, Times;
    var t := s.(shutting := false, calling := true, writable := false, writeEnded := true);
    FinishedKeeps(t, status != 0 || s.readEnded, onDestroy);
  }

  lemma ConnectedKeeps(s: State, status: int, onEvent: Program, onDestroy: Program)
    requires Rest(s) && s.connecting > 0
    ensures var t := s.(connecting := s.connecting - 1, calling := true);
            var name := if status == 0 then ConnectEvent else ErrorEvent;
            var u := Finished(Emitted(t, name, onEvent), status != 0, onDestroy);
            && Rest(u) && Later(t.(calling := false), u) && (status != 0 ==> !Open(u)) && s.log + [name] <= u.log
  {
    hide Finished, Emitted, Metered, Totals, Times;
    var t := s.(connecting := s.connecting - 1, calling := true);
    var name := if status == 0 then ConnectEvent else ErrorEvent;
    NotedCounts(t, name);
    EmittedKeeps(t, name, onEvent);
    FinishedKeeps(Emitted(t, name, onEvent), status != 0, onDestroy);
    var u := Emitted(t, name, onEvent);
    LaterTrans(t.(calling := false), u.(calling := false), Finished(u, status != 0, onDestroy));
  }

  lemma PlainEventKeeps(s: State, name: Name, handlers: Program)
    requires Inv(s) && name !in {DrainEvent, DestroyEvent, EndEvent}
    ensures var t := Emitted(s, name, handlers); Inv(t) && Later(s, t) && s.log + [name] <= t.log
  {
    hide Emitted, Metered, Totals, Times;
    NotedCounts(s, name);
    EmittedKeeps(s, name, handlers);
  }

  lemma AfterEndKeeps(s: State, onEnd: Program)
    requires Inv(s)
    ensures var t := AfterEnd(s, onEnd); Inv(t) && Later(s.(readEnded := true), t) && t.readEnded
    ensures !s.readEnded ==> s.log + [EndEvent] <= AfterEnd(s, onEnd).log
  {
    hide Emitted, Metered, Totals, Times;
    LaterRefl(s.(readEnded := true));
    if !s.readEnded {
      NotedCounts(s.(readEnded := true), EndEvent);
      EmittedKeeps(s.(readEnded := true), EndEvent, onEnd);
    }
  }

  // The end of the peer's stream destroys a stream that has ended, and ends it otherwise.
  lemma EofKeeps(s: State, onEnd: Program, shut: bool, onDestroy: Program)
    requires Rest(s)
    ensures var t := AfterEnd(s, onEnd);
            var u := if t.writeEnded then Destroyed(t, onDestroy) else Ended(t, [], 0, false, shut);
            && Rest(u) && Later(s.(readEnded := true), u) && u.readEnded
            && (shut && Open(u) ==> u.shutting)
            && (!s.readEnded ==> s.log + [EndEvent] <= u.log)
  {
    hide AfterEnd, Destroyed, Ended, Metered, Totals, Times;
    var t := AfterEnd(s, onEnd);
    AfterEndKeeps(s, onEnd);
    if t.writeEnded {
      DestroyedKeeps(t, onDestroy);
      LaterTrans(s.(readEnded := true), t, Destroyed(t, onDestroy));
    } else {
      EndedKeeps(t, [], 0, false, shut);
      LaterTrans(s.(readEnded := true), t, Ended(t, [], 0, false, shut));
    }
  }

  lemma ReadFailedKeeps(s: State, onError: Program, onDestroy: Program)
    requires Rest(s)
    ensures var t := Destroyed(Emitted(s, ErrorEvent, onError), onDestroy);
            Rest(t) && Later(s, t) && !Open(t) && s.log + [ErrorEvent] <= t.log
  {
    hide Emitted, Destroyed, Core;
    var t := Emitted(s, ErrorEvent, onError);
    PlainEventKeeps(s, ErrorEvent, onError);
    DestroyedKeeps(t, onDestroy);
    LaterTrans(s, t, Destroyed(t, onDestroy));
  }

  lemma ProgressKeeps(s: State, n: nat)
    requires Rest(s) && n <= |Queued(s.queue)|
    ensures Rest(Next(s, Progress(n))) && Later(s, Next(s, Progress(n)).(queue := s.queue))
    ensures |Next(s, Progress(n)).queue| == |s.queue|
  {
    hide Queued, Advance, Metered, Times;
    AdvanceTotals(s.queue, n);
    assert |Totals(Advance(s.queue, n))| == |Advance(s.queue, n)|;
  }

  lemma NextUsed(s: State, program: Program)
    requires Rest(s) && Enabled(s, Use(program))
    ensures Rest(Next(s, Use(program))) && Forward(s, Next(s, Use(program)))
  {
    hide Inv, Later, Ran;
    RanKeeps(s, program);
    UsedIs(s, Ran(s, program));
  }

  lemma NextProgress(s: State, n: nat)
    requires Rest(s) && Enabled(s, Progress(n))
    ensures Rest(Next(s, Progress(n))) && Forward(s, Next(s, Progress(n)))
  {
    hide Rest;
    ProgressKeeps(s, n);
    ProgressIs(s, n);
  }

  lemma NextWritten(s: State, status: int, onDrain: Program, onDestroy: Program)
    requires Rest(s) && Enabled(s, Written(status, onDrain, onDestroy))
    ensures var t := Next(s, Written(status, onDrain, onDestroy)); Rest(t) && Forward(s, t)
  {
    hide Rest, Drained, Finished, Core;
    WrittenKeeps(s, status, onDrain, onDestroy);
    ForwardIs(Completed(s).(calling := false), Next(s, Written(status, onDrain, onDestroy)));
  }

  lemma NextShut(s: State, status: int, onDestroy: Program)
    requires Rest(s) && Enabled(s, Shut(status, onDestroy))
    ensures var t := Next(s, Shut(status, onDestroy)); Rest(t) && Forward(s, t)
  {
    hide Rest, Finished, Core;
    ShutKeeps(s, status, onDestroy);
    var t := s.(shutting := false, calling := false, writable := false, writeEnded := true);
    ForwardIs(t, Next(s, Shut(status, onDestroy)));
  }

  lemma NextConnected(s: State, status: int, onEvent: Program, onDestroy: Program)
    requires Rest(s) && Enabled(s, Connected(status, onEvent, onDestroy))
    ensures var t := Next(s, Connected(status, onEvent, onDestroy)); Rest(t) && Forward(s, t)
  {
    hide Rest, Emitted, Finished, Core;
    ConnectedKeeps(s, status, onEvent, onDestroy);
    var t := s.(connecting := s.connecting - 1, calling := false);
    ForwardIs(t, Next(s, Connected(status, onEvent, onDestroy)));
  }

  lemma NextData(s: State, onData: Program)
    requires Rest(s) && Enabled(s, Data(onData))
    ensures Rest(Next(s, Data(onData))) && Forward(s, Next(s, Data(onData)))
  {
    hide Inv, Later, Emitted;
    PlainEventKeeps(s, DataEvent, onData);
    UsedIs(s, Next(s, Data(onData)));
  }

  lemma NextEof(s: State, onEnd: Program, shut: bool, onDestroy: Program)
    requires Rest(s) && Enabled(s, Eof(onEnd, shut, onDestroy))
    ensures var t := Next(s, Eof(onEnd, shut, onDestroy)); Rest(t) && Forward(s, t)
  {
    hide Rest, AfterEnd, Destroyed, Ended, Core;
    EofKeeps(s, onEnd, shut, onDestroy);
    ForwardIs(s.(readEnded := true), Next(s, Eof(onEnd, shut, onDestroy)));
  }

  lemma NextReadFailed(s: State, onError: Program, onDestroy: Program)
    requires Rest(s) && Enabled(s, ReadFailed(onError, onDestroy))
    ensures var t := Next(s, ReadFailed(onError, onDestroy)); Rest(t) && Forward(s, t)
  {
    hide Rest, Emitted, Destroyed, Core;
    ReadFailedKeeps(s, onError, onDestroy);
    ForwardIs(s, Next(s, ReadFailed(onError, onDestroy)));
  }

  // Every event keeps what holds between two events, whatever programs and handlers do.
  lemma NextKeeps(s: State, e: Event)
    requires Rest(s) && Enabled(s, e)
    ensures Rest(Next(s, e)) && Forward(s, Next(s, e))
  {
    hide *;
    match e
    case Use(program) => NextUsed(s, program);
    case Progress(n) => NextProgress(s, n);
    case Written(status, onDrain, onDestroy) => NextWritten(s, status, onDrain, onDestroy);
    case Shut(status, onDestroy) => NextShut(s, status, onDestroy);
    case Connected(status, onEvent, onDestroy) => NextConnected(s, status, onEvent, onDestroy);
    case Data(onData) => NextData(s, onData);
    case Eof(onEnd, shut, onDestroy) => NextEof(s, onEnd, shut, onDestroy);
    case ReadFailed(onError, onDestroy) => NextReadFailed(s, onError, onDestroy);
    case Closed => ClosedKeeps(s);
  }

  lemma UsedIs(s: State, t: State)
    requires Rest(s) && Inv(t) && Later(s, t)
    ensures Rest(t) && Forward(s, t)
  {}

  lemma ProgressIs(s: State, n: nat)
    requires n <= |Queued(s.queue)|
    ensures Forward(s, Next(s, Progress(n)))
  {}

  lemma ClosedKeeps(s: State)
    requires Rest(s) && Enabled(s, Closed)
    ensures Rest(Next(s, Closed)) && Forward(s, Next(s, Closed))
  {}

  lemma {:induction false} RunKeeps(s: State, events: seq<Event>)
    requires Rest(s)
    ensures Rest(Run(s, events)) && Forward(s, Run(s, events))
    decreases |events|
  {
    hide Rest, Next, Enabled;
    if |events| > 0 {
      if Enabled(s, events[0]) {
        NextKeeps(s, events[0]);
      }
      RunKeeps(if Enabled(s, events[0]) then Next(s, events[0]) else s, events[1..]);
    }
  }

  // What holds over whole runs.
  lemma RunsFromStart(hwm: nat, lwm: nat, events: seq<Event>)
    requires lwm < hwm
    ensures var t := Run(Start(hwm, lwm), events);
            && (t.readEnded && t.writeEnded ==> !Open(t))
            && t.shutdowns <= 1 && Times(t.log, DestroyEvent) <= 1 && Times(t.log, EndEvent) <= 1
            && (Holders(t) == 0 <==> t.closed && t.pointers == 0)
            && t.meter.floods == Times(t.log, DrainEvent) + t.meter.silent + One(!t.meter.level.regular)
            && (!t.meter.level.regular ==> |t.queue| > 0)
            && (|t.queue| == 0 ==> t.meter.level.wm == 0)
            && t.meter == AllMoved(NewMeter(hwm, lwm), RunTrace(Start(hwm, lwm), events).moves)
            && (t.meter.silent == 0 <==> !EverHushes(NewMeter(hwm, lwm), RunTrace(Start(hwm, lwm), events).moves))
            && t.log == RunTrace(Start(hwm, lwm), events).events
            && t.wire == RunTrace(Start(hwm, lwm), events).sent
            && t.written == RunTrace(Start(hwm, lwm), events).written
            && t.shutdowns == RunTrace(Start(hwm, lwm), events).shutdowns
  {
    hide Run, RunTrace, AllMoved, EverHushes;
    StartRests(hwm, lwm);
    RunKeeps(Start(hwm, lwm), events);
    var t := Run(Start(hwm, lwm), events);
    assert |t.queue| == 0 ==> Totals(t.queue) == [];
    RunLeaves(Start(hwm, lwm), events);
    NoLostDrain(NewMeter(hwm, lwm), RunTrace(Start(hwm, lwm), events).moves);
  }

  // ---------- Who keeps a stream alive ----------

  // Dropping a pointer destroys an open stream if and only if it is the last one and nothing is
  // pending: no write, no shutdown, no connect and no callback.
  lemma DropDestroys(s: State, onDestroy: Program)
    requires Inv(s) && Open(s) && s.pointers > 0
    ensures var t := Performed(s, Drop(onDestroy));
            if s.pointers == 1 && |s.queue| == 0 && !s.shutting && s.connecting == 0 && !s.calling
            then !Open(t) && s.log + [DestroyEvent] <= t.log
            else t == s.(pointers := s.pointers - 1)
  {
    hide Destroyed, Core;
    DroppedCore(s);
    DestroyedKeeps(s.(pointers := s.pointers - 1), onDestroy);
  }

  // The end of a callback that has not failed destroys an open stream if and only if nobody
  // holds a pointer and nothing else is pending.
  lemma FinishDestroys(s: State, onDestroy: Program)
    requires Inv(s) && Open(s) && s.calling
    ensures var t := Finished(s, false, onDestroy);
            if s.pointers == 0 && |s.queue| == 0 && !s.shutting && s.connecting == 0
            then !Open(t) && s.log + [DestroyEvent] <= t.log
            else t == s.(calling := false)
  {
    hide Destroyed, Metered, Totals, Times;
    DestroyedKeeps(s.(calling := false), onDestroy);
  }

  // ---------- Half-close ----------

  // Whether a program that starts with n pointers holds one throughout, and never destroys the
  // stream.
  predicate Holds(p: Program, n: nat) {
    match p
    case Stop => n > 0
    case Do(op, rest) =>
      match op
      case Copy => n > 0 && Holds(rest, n + 1)
      case Drop(_) => n > 1 && Holds(rest, n - 1)
      case Destroy(_) => false
      case _ => Holds(rest, n)
  }

  // The program, or the handlers of an event, that run before anything is destroyed.
  function Handlers(s: State, e: Event): Program {
    match e
    case Use(program) => program
    case Written(_, onDrain, _) => if |s.queue| > 0 && DrainDue(s) then onDrain else Stop
    case Connected(_, onEvent, _) => onEvent
    case Data(onData) => onData
    case Eof(onEnd, _, _) => if s.readEnded then Stop else onEnd
    case ReadFailed(onError, _) => onError
    case _ => Stop
  }

  predicate Fails(e: Event) {
    match e
    case Written(status, _, _) => status != 0
    case Shut(status, _) => status != 0
    case Connected(status, _, _) => status != 0
    case ReadFailed(_, _) => true
    case _ => false
  }

  // The event does not fail, nobody destroys the stream and a pointer is held throughout.
  predicate Peaceful(s: State, e: Event) {
    !Fails(e) && Holds(Handlers(s, e), s.pointers)
  }

  // A run whose events are peaceful at their turn, for as long as the stream is open.
  predicate Kept(s: State, events: seq<Event>)
    decreases |events|
  {
    |events| > 0 && Open(s) ==>
      if Enabled(s, events[0]) then Peaceful(s, events[0]) && Kept(Next(s, events[0]), events[1..])
      else Kept(s, events[1..])
  }

  ghost predicate Calm(s: State, t: State) {
    && t.closing == s.closing && t.closed == s.closed && t.calling == s.calling
    && t.readEnded == s.readEnded && t.writeEnded == s.writeEnded
  }

  lemma PushedIsCalm(s: State, bufs: seq<seq<Byte>>, tried: int, accepted: bool)
    ensures var t := Pushed(s, bufs, tried, accepted).0; Calm(s, t) && t.pointers == s.pointers
  {
    hide Queued, Flatten, Moved;
  }

  lemma WritesAreCalm(s: State, bufs: seq<seq<Byte>>, tried: int, accepted: bool, shut: bool)
    ensures var t := Wrote(s, bufs, tried, accepted); Calm(s, t) && t.pointers == s.pointers
    ensures var t := Ended(s, bufs, tried, accepted, shut); Calm(s, t) && t.pointers == s.pointers
  {
    hide Pushed, Moved;
    PushedIsCalm(s, bufs, tried, accepted);
  }

  lemma PerformedHolds(s: State, op: Op, rest: Program)
    requires Open(s) && Holds(Do(op, rest), s.pointers)
    ensures var t := Performed(s, op); Calm(s, t) && Holds(rest, t.pointers)
  {
    hide Wrote, Ended, Destroyed, Released;
    match op
    case Write(bufs, tried, accepted) => WritesAreCalm(s, bufs, tried, accepted, true);
    case End(bufs, tried, accepted, shut) => WritesAreCalm(s, bufs, tried, accepted, shut);
    case Drop(onDestroy) => HeldStays(s.(pointers := s.pointers - 1), onDestroy);
    case _ =>
  }

  lemma {:induction false} RanHolds(s: State, p: Program)
    requires Open(s) && Holds(p, s.pointers)
    ensures var t := Ran(s, p); Calm(s, t) && t.pointers > 0
    decreases p
  {
    hide Performed;
    match p
    case Stop =>
    case Do(op, rest) =>
      PerformedHolds(s, op, rest);
      RanHolds(Performed(s, op), rest);
  }

  lemma FinishedPeaceful(s: State, onDestroy: Program)
    requires s.pointers > 0
    ensures Finished(s, false, onDestroy) == s.(calling := false)
  {}

  ghost predicate BothEnded(s: State) {
    s.readEnded && s.writeEnded
  }

  lemma DrainedPeaceful(s: State, onDrain: Program)
    requires |s.queue| > 0 && Open(s) && Holds(if DrainDue(s) then onDrain else Stop, s.pointers)
    ensures var t := Drained(s, onDrain); Calm(Completed(s), t) && t.pointers > 0
  {
    hide Ran, DrainDue, Moved;
    RanHolds(Noted(Completed(s), DrainEvent), if DrainDue(s) then onDrain else Stop);
  }

  // Unless it fails, somebody destroys the stream or all pointers go, an event destroys an open
  // stream if and only if both halves have ended with it.
  lemma NextPeaceful(s: State, e: Event)
    requires Rest(s) && Enabled(s, e) && Open(s) && Peaceful(s, e)
    ensures var t := Next(s, e); (Open(t) <==> !BothEnded(t)) && (Open(t) ==> t.pointers > 0)
  {
    hide Inv, Later, Ran, Destroyed, Ended, Finished, Drained, DrainDue, Queued, Advance;
    NextKeeps(s, e);
    match e
    case Use(program) => RanHolds(s, program);
    case Written(status, onDrain, onDestroy) =>
      DrainedPeaceful(s, onDrain);
      FinishedPeaceful(Drained(s, onDrain), onDestroy);
    case Shut(status, onDestroy) =>
      FinishedPeaceful(s.(shutting := false, calling := true, writable := false, writeEnded := true), onDestroy);
      ShutKeeps(s, status, onDestroy);
      ShutEnds(s, status, onDestroy);
    case Connected(status, onEvent, onDestroy) =>
      var t := s.(connecting := s.connecting - 1, calling := true);
      RanHolds(Noted(t, ConnectEvent), onEvent);
      FinishedPeaceful(Emitted(t, ConnectEvent, onEvent), onDestroy);
    case Data(onData) => RanHolds(Noted(s, DataEvent), onData);
    case Eof(onEnd, shut, onDestroy) =>
      RanHolds(Noted(s.(readEnded := true), EndEvent), Handlers(s, e));
      WritesAreCalm(AfterEnd(s, onEnd), [], 0, false, shut);
      EofKeeps(s, onEnd, shut, onDestroy);
      EofDestroys(s, onEnd, onDestroy);
    case _ =>
  }

  lemma ShutEnds(s: State, status: int, onDestroy: Program)
    requires Rest(s) && Enabled(s, Shut(status, onDestroy))
    ensures var t := Next(s, Shut(status, onDestroy)); t.writeEnded && t.readEnded == s.readEnded
  {
    hide Finished, Core;
    ShutKeeps(s, status, onDestroy);
  }

  lemma EofDestroys(s: State, onEnd: Program, onDestroy: Program)
    requires Rest(s)
    ensures AfterEnd(s, onEnd).writeEnded ==> !Open(Destroyed(AfterEnd(s, onEnd), onDestroy))
    ensures AfterEnd(s, onEnd).writeEnded == s.writeEnded
  {
    hide AfterEnd, Destroyed, Core;
    AfterEndKeeps(s, onEnd);
    DestroyedKeeps(AfterEnd(s, onEnd), onDestroy);
  }

  // The half-close handshake, over every run and every interleaving: as long as nothing fails,
  // nobody destroys the stream and a pointer is kept, the stream is destroyed if and only if
  // both its halves have ended, in whichever order.
  lemma {:induction false} HalfClose(s: State, events: seq<Event>)
    requires Rest(s) && (Open(s) <==> !BothEnded(s)) && Kept(s, events)
    ensures var t := Run(s, events); Open(t) <==> !BothEnded(t)
    decreases |events|
  {
    hide Rest, Next, Enabled, Peaceful;
    if |events| > 0 {
      var e := events[0];
      if Enabled(s, e) {
        NextKeeps(s, e);
        if Open(s) {
          NextPeaceful(s, e);
        }
        HalfClose(Next(s, e), events[1..]);
      } else {
        HalfClose(s, events[1..]);
      }
    }
  }

  // The handshake never gets stuck: once the peer has ended, an open stream waits for its own
  // shutdown to complete, unless libuv refused it.
  lemma {:induction false} EofIsAnswered(s: State, events: seq<Event>)
    requires Rest(s) && (s.readEnded && Open(s) ==> s.shutting)
    requires forall e :: e in events && e.Eof? ==> e.shut
    ensures var t := Run(s, events); t.readEnded && Open(t) ==> t.shutting
    decreases |events|
  {
    hide Rest, Next, Enabled;
    if |events| > 0 {
      var e := events[0];
      if Enabled(s, e) {
        NextKeeps(s, e);
        NextAnswers(s, e);
        EofIsAnswered(Next(s, e), events[1..]);
      } else {
        EofIsAnswered(s, events[1..]);
      }
    }
  }

  lemma NextAnswers(s: State, e: Event)
    requires Rest(s) && Enabled(s, e) && (s.readEnded && Open(s) ==> s.shutting) && (e.Eof? ==> e.shut)
    ensures var t := Next(s, e); t.readEnded && Open(t) ==> t.shutting
  {
    hide Inv, Ran, Emitted, AfterEnd, Destroyed, Ended, Finished, Drained, DrainDue, Queued, Advance;
    match e
    case Use(program) => RanKeeps(s, program);
    case Written(status, onDrain, onDestroy) => WrittenKeeps(s, status, onDrain, onDestroy);
    case Shut(status, onDestroy) => ShutKeeps(s, status, onDestroy);
    case Connected(status, onEvent, onDestroy) => ConnectedKeeps(s, status, onEvent, onDestroy);
    case Data(onData) => PlainEventKeeps(s, DataEvent, onData);
    case Eof(onEnd, shut, onDestroy) => EofKeeps(s, onEnd, shut, onDestroy);
    case ReadFailed(onError, onDestroy) => ReadFailedKeeps(s, onError, onDestroy);
    case _ =>
  }

  // ---------- Bytes ----------

  // What was written is what has been sent, followed by what is queued.
  ghost predicate Balanced(s: State) {
    s.wire + Queued(s.queue) == s.written
  }

  // A write of which a part is sent at once and the rest refused.
  predicate Tears(op: Op) {
    (op.Write? || op.End?) && 0 < op.tried < |Flatten(op.bufs)| && !op.accepted
  }

  predicate Lossy(p: Program) {
    match p
    case Stop => false
    case Do(op, rest) =>
      || Tears(op)
      || (match op case Destroy(onDestroy) => Lossy(onDestroy) case Drop(onDestroy) => Lossy(onDestroy) case _ => false)
      || Lossy(rest)
  }

  // A write fails, or is torn by a program or a handler.
  predicate Loses(e: Event) {
    match e
    case Use(program) => Lossy(program)
    case Progress(_) => false
    case Written(status, onDrain, onDestroy) => status != 0 || Lossy(onDrain) || Lossy(onDestroy)
    case Shut(_, onDestroy) => Lossy(onDestroy)
    case Connected(_, onEvent, onDestroy) => Lossy(onEvent) || Lossy(onDestroy)
    case Data(onData) => Lossy(onData)
    case Eof(onEnd, _, onDestroy) => Lossy(onEnd) || Lossy(onDestroy)
    case ReadFailed(onError, onDestroy) => Lossy(onError) || Lossy(onDestroy)
    case Closed => false
  }

  lemma Reassociate(wire: seq<Byte>, queue: seq<Byte>, all: seq<Byte>, sent: nat)
    requires sent <= |all| && (sent > 0 ==> queue == [])
    ensures (wire + all[..sent]) + (queue + all[sent..]) == (wire + queue) + all
    ensures sent == |all| ==> (wire + all[..sent]) + queue == (wire + queue) + all
    ensures (wire + all[..sent]) + queue == wire + queue <==> sent == 0
  {
    assert all == all[..sent] + all[sent..];
    assert |(wire + all[..sent]) + queue| == |wire + queue| + sent;
  }

  // A write keeps the balance, except if and only if it is torn.
  lemma PushedBalanced(s: State, bufs: seq<seq<Byte>>, tried: int, accepted: bool)
    requires Balanced(s)
    ensures var (t, ok) := Pushed(s, bufs, tried, accepted);
            && (Balanced(t) <==> t.wire == s.wire || ok)
            && (!Balanced(t) ==> 0 < tried < |Flatten(bufs)| && !accepted)
  {
    hide Queued, Moved;
    var all := Flatten(bufs);
    FlattenNothing(bufs);
    var sent := SentNow(s, |all|, tried);
    QueuedSnoc(s.queue, Request(all[sent..], |all|));
    Reassociate(s.wire, Queued(s.queue), all, sent);
  }

  lemma WritesBalanced(s: State, bufs: seq<seq<Byte>>, tried: int, accepted: bool, shut: bool)
    requires Balanced(s) && !(0 < tried < |Flatten(bufs)| && !accepted)
    ensures Balanced(Wrote(s, bufs, tried, accepted)) && Balanced(Ended(s, bufs, tried, accepted, shut))
  {
    hide Pushed, Queued, Moved, Flatten;
    PushedBalanced(s, bufs, tried, accepted);
  }

  lemma {:induction false} PerformedBalanced(s: State, op: Op)
    requires Balanced(s) && !Lossy(Do(op, Stop))
    ensures Balanced(Performed(s, op))
    decreases op, 0
  {
    hide Wrote, Ended, Destroyed, Released, Queued;
    match op
    case Write(bufs, tried, accepted) => WritesBalanced(s, bufs, tried, accepted, true);
    case End(bufs, tried, accepted, shut) => WritesBalanced(s, bufs, tried, accepted, shut);
    case Destroy(onDestroy) => DestroyedBalanced(s, onDestroy);
    case Drop(onDestroy) =>
      if s.pointers > 0 {
        ReleasedBalanced(s.(pointers := s.pointers - 1), onDestroy);
      }
    case _ =>
  }

  lemma {:induction false} RanBalanced(s: State, p: Program)
    requires Balanced(s) && !Lossy(p)
    ensures Balanced(Ran(s, p))
    decreases p, 0
  {
    hide Balanced, Performed;
    match p
    case Stop =>
    case Do(op, rest) =>
      PerformedBalanced(s, op);
      RanBalanced(if Alive(s) then Performed(s, op) else s, rest);
  }

  lemma {:induction false} EmittedBalanced(s: State, name: Name, handlers: Program)
    requires Balanced(s) && !Lossy(handlers)
    ensures Balanced(Emitted(s, name, handlers))
    decreases handlers, 1
  {
    hide Queued, Ran;
    RanBalanced(Noted(s, name), handlers);
  }

  lemma {:induction false} DestroyedBalanced(s: State, onDestroy: Program)
    requires Balanced(s) && !Lossy(onDestroy)
    ensures Balanced(Destroyed(s, onDestroy))
    decreases onDestroy, 2
  {
    hide Queued, Emitted;
    EmittedBalanced(s.(closing := true), DestroyEvent, onDestroy);
  }

  lemma {:induction false} ReleasedBalanced(s: State, onDestroy: Program)
    requires Balanced(s) && !Lossy(onDestroy)
    ensures Balanced(Released(s, onDestroy))
    decreases onDestroy, 3
  {
    hide Balanced, Destroyed;
    DestroyedBalanced(s, onDestroy);
  }

  lemma FinishedBalanced(s: State, failed: bool, onDestroy: Program)
    requires Balanced(s) && !Lossy(onDestroy)
    ensures Balanced(Finished(s, failed, onDestroy))
  {
    hide Queued, Destroyed, Released;
    DestroyedBalanced(s, onDestroy);
    ReleasedBalanced((if failed then Destroyed(s, onDestroy) else s).(calling := false), onDestroy);
  }

  lemma DrainedBalanced(s: State, onDrain: Program)
    requires Balanced(s) && |s.queue| > 0 && s.queue[0].rest == [] && !Lossy(onDrain)
    ensures Balanced(Drained(s, onDrain))
  {
    hide Emitted, DrainDue, Moved;
    assert Queued(Completed(s).queue) == Queued(s.queue);
    EmittedBalanced(Completed(s), DrainEvent, onDrain);
  }

  lemma ProgressBalanced(s: State, n: nat)
    requires Balanced(s) && n <= |Queued(s.queue)|
    ensures Balanced(Next(s, Progress(n)))
  {
    hide Queued, Advance;
    AdvanceSends(s.queue, n);
    var rest := Queued(Advance(s.queue, n));
    assert s.wire + (Queued(s.queue)[..n] + rest) == (s.wire + Queued(s.queue)[..n]) + rest;
  }

  lemma NextBalanced(s: State, e: Event)
    requires Balanced(s) && Enabled(s, e) && !Loses(e)
    ensures Balanced(Next(s, e))
  {
    hide Ran, Emitted, Destroyed, Ended, Finished, Drained, Queued, Advance, Lossy;
    match e
    case Use(program) => RanBalanced(s, program);
    case Progress(n) => ProgressBalanced(s, n);
    case Written(status, onDrain, onDestroy) =>
      DrainedBalanced(s, onDrain);
      FinishedBalanced(Drained(s, onDrain), false, onDestroy);
    case Shut(status, onDestroy) =>
      var t := s.(shutting := false, calling := true, writable := false, writeEnded := true);
      FinishedBalanced(t, status != 0 || s.readEnded, onDestroy);
    case Connected(status, onEvent, onDestroy) =>
      var t := s.(connecting := s.connecting - 1, calling := true);
      var name := if status == 0 then ConnectEvent else ErrorEvent;
      EmittedBalanced(t, name, onEvent);
      FinishedBalanced(Emitted(t, name, onEvent), status != 0, onDestroy);
    case Data(onData) => EmittedBalanced(s, DataEvent, onData);
    case Eof(onEnd, shut, onDestroy) =>
      EmittedBalanced(s.(readEnded := true), EndEvent, onEnd);
      DestroyedBalanced(AfterEnd(s, onEnd), onDestroy);
      WritesBalanced(AfterEnd(s, onEnd), [], 0, false, shut);
    case ReadFailed(onError, onDestroy) =>
      EmittedBalanced(s, ErrorEvent, onError);
      DestroyedBalanced(Emitted(s, ErrorEvent, onError), onDestroy);
    case Closed =>
  }

  // No byte is lost, duplicated or reordered, over every run in which no write fails.
  lemma {:induction false} NothingLost(s: State, events: seq<Event>)
    requires Balanced(s) && forall e :: e in events ==> !Loses(e)
    ensures Balanced(Run(s, events))
    decreases |events|
  {
    hide Balanced, Next, Enabled, Loses;
    if |events| > 0 {
      var e := events[0];
      if Enabled(s, e) {
        NextBalanced(s, e);
      }
      NothingLost(if Enabled(s, e) then Next(s, e) else s, events[1..]);
    }
  }

  // A program that only uses the stream, with every request accepted.
  predicate Obedient(p: Program) {
    match p
    case Stop => true
    case Do(op, rest) =>
      && (match op case Write(_, _, accepted) => accepted case End(_, _, accepted, shut) => accepted && shut
                   case Destroy(_) => false case Drop(_) => false case _ => true)
      && Obedient(rest)
  }

  // The bytes it writes, up to and including those of its first `end`.
  function Given(p: Program): seq<Byte> {
    match p
    case Stop => []
    case Do(op, rest) =>
      match op
      case Write(bufs, _, _) => Flatten(bufs) + Given(rest)
      case End(bufs, _, _, _) => Flatten(bufs)
      case _ => Given(rest)
  }

  lemma PushedJoins(s: State, bufs: seq<seq<Byte>>, tried: int)
    requires Open(s)
    ensures var (t, ok) := Pushed(s, bufs, tried, true); ok && t.written == s.written + Flatten(bufs) && Open(t)
  {
    hide Queued, Moved;
    FlattenNothing(bufs);
  }

  lemma WritesJoin(s: State, bufs: seq<seq<Byte>>, tried: int)
    requires Open(s) && s.writable
    ensures var t := Wrote(s, bufs, tried, true);
            t.written == s.written + Flatten(bufs) && t.writable && Open(t)
    ensures var t := Ended(s, bufs, tried, true, true);
            t.written == s.written + Flatten(bufs) && !t.writable && t.shutting && Open(t)
  {
    hide Pushed, Flatten, Moved;
    PushedJoins(s, bufs, tried);
    PushedKeepsWritable(s, bufs, tried);
  }

  lemma PushedKeepsWritable(s: State, bufs: seq<seq<Byte>>, tried: int)
    ensures Pushed(s, bufs, tried, true).0.writable == s.writable
  {}

  // After `end`, nothing more is written.
  lemma {:induction false} NothingAfterEnd(s: State, p: Program)
    requires !s.writable
    ensures var t := Ran(s, p); t.written == s.written && !t.writable
    decreases p, 0
  {
    hide Performed;
    match p
    case Stop =>
    case Do(op, rest) =>
      NothingPerformed(s, op);
      NothingAfterEnd(if Alive(s) then Performed(s, op) else s, rest);
  }

  lemma {:induction false} NothingPerformed(s: State, op: Op)
    requires !s.writable
    ensures var t := Performed(s, op); t.written == s.written && !t.writable
    decreases op, 0
  {
    hide Pushed, Ending, Destroyed, Released, Holders;
    match op
    case Destroy(onDestroy) => NothingDestroyed(s, onDestroy);
    case Drop(onDestroy) =>
      if s.pointers > 0 {
        NothingReleased(s.(pointers := s.pointers - 1), onDestroy);
      }
    case _ =>
  }

  lemma {:induction false} NothingDestroyed(s: State, onDestroy: Program)
    requires !s.writable
    ensures var t := Destroyed(s, onDestroy); t.written == s.written && !t.writable
    decreases onDestroy, 2
  {
    hide Ran;
    NothingAfterEnd(Noted(s.(closing := true), DestroyEvent), onDestroy);
  }

  lemma {:induction false} NothingReleased(s: State, onDestroy: Program)
    requires !s.writable
    ensures var t := Released(s, onDestroy); t.written == s.written && !t.writable
    decreases onDestroy, 3
  {
    hide Destroyed, Holders;
    NothingDestroyed(s, onDestroy);
  }

  // Which bytes a program writes.
  lemma {:induction false} WrittenAre(s: State, p: Program)
    requires Open(s) && s.writable && Obedient(p)
    ensures Ran(s, p).written == s.written + Given(p)
    decreases p
  {
    hide Wrote, Ended, Flatten;
    match p
    case Stop =>
    case Do(op, rest) =>
      match op
      case Write(bufs, tried, accepted) =>
        WritesJoin(s, bufs, tried);
        WrittenAre(Wrote(s, bufs, tried, accepted), rest);
      case End(bufs, tried, accepted, shut) =>
        WritesJoin(s, bufs, tried);
        NothingAfterEnd(Ended(s, bufs, tried, accepted, shut), rest);
      case Connect(_) => WrittenAre(Performed(s, op), rest);
      case Copy => WrittenAre(Performed(s, op), rest);
      case _ =>
  }

  // ---------- The end ----------

  // The callbacks a destroyed stream still waits for.
  function Pending(s: State): nat {
    |s.queue| + One(s.shutting) + s.connecting + One(s.closing)
  }

  predicate IsCallback(e: Event) {
    e.Written? || e.Shut? || e.Connected? || e.Closed?
  }

  // Some callback is always due, with the error that libuv gives to what it cancels.
  lemma SomeCallbackIsDue(s: State) returns (e: Event)
    requires Rest(s) && s.closing
    ensures Enabled(s, e) && IsCallback(e)
  {
    if |s.queue| > 0 {
      e := Written(-1, Stop, Stop);
    } else if s.shutting {
      e := Shut(-1, Stop);
    } else if s.connecting > 0 {
      e := Connected(-1, Stop, Stop);
    } else {
      e := Closed;
    }
  }

  ghost predicate Nearer(s: State, e: Event, t: State) {
    !Open(t) && if IsCallback(e) then Pending(t) < Pending(s) else Pending(t) <= Pending(s)
  }

  lemma NearerWritten(s: State, status: int, onDrain: Program, onDestroy: Program)
    requires Rest(s) && !Open(s) && Enabled(s, Written(status, onDrain, onDestroy))
    ensures var e := Written(status, onDrain, onDestroy); Nearer(s, e, Next(s, e))
  {
    hide Core, Drained, Finished, Moved;
    WrittenKeeps(s, status, onDrain, onDestroy);
    ClosingOrClosed(s);
    StillClosing(Completed(s).(calling := false), Finished(Drained(s, onDrain), status != 0, onDestroy));
  }

  lemma NearerShut(s: State, status: int, onDestroy: Program)
    requires Rest(s) && !Open(s) && Enabled(s, Shut(status, onDestroy))
    ensures var e := Shut(status, onDestroy); Nearer(s, e, Next(s, e))
  {
    hide Core, Finished;
    ShutKeeps(s, status, onDestroy);
    ClosingOrClosed(s);
    var t := s.(shutting := false, calling := false, writable := false, writeEnded := true);
    StillClosing(t, Next(s, Shut(status, onDestroy)));
  }

  lemma NearerConnected(s: State, status: int, onEvent: Program, onDestroy: Program)
    requires Rest(s) && !Open(s) && Enabled(s, Connected(status, onEvent, onDestroy))
    ensures var e := Connected(status, onEvent, onDestroy); Nearer(s, e, Next(s, e))
  {
    hide Core, Emitted, Finished;
    ConnectedKeeps(s, status, onEvent, onDestroy);
    ClosingOrClosed(s);
    StillClosing(s.(connecting := s.connecting - 1, calling := false), Next(s, Connected(status, onEvent, onDestroy)));
  }

  lemma NearerOther(s: State, e: Event)
    requires Rest(s) && !Open(s) && Enabled(s, e) && !e.Written? && !e.Shut? && !e.Connected?
    ensures Nearer(s, e, Next(s, e))
  {
    hide Core, Ran, Queued, Advance;
    ClosingOrClosed(s);
    match e
    case Use(program) => RanKeeps(s, program); StillClosing(s, Ran(s, program));
    case Progress(n) => ProgressKeeps(s, n);
    case _ =>
  }

  // Whatever handlers do, every callback brings the end nearer and no program delays it.
  lemma EndComesNearer(s: State, e: Event)
    requires Rest(s) && !Open(s) && Enabled(s, e)
    ensures var t := Next(s, e);
            !Open(t) && (if IsCallback(e) then Pending(t) < Pending(s) else Pending(t) <= Pending(s))
  {
    hide Rest, Open, Enabled, Next, Pending, IsCallback;
    match e
    case Written(status, onDrain, onDestroy) => NearerWritten(s, status, onDrain, onDestroy);
    case Shut(status, onDestroy) => NearerShut(s, status, onDestroy);
    case Connected(status, onEvent, onDestroy) => NearerConnected(s, status, onEvent, onDestroy);
    case _ => NearerOther(s, e);
  }

  lemma ClosingOrClosed(s: State)
    requires Core(s) && !Open(s)
    ensures s.closing <==> !s.closed
  {}

  lemma StillClosing(s: State, t: State)
    requires (s.closing <==> !s.closed) && Later(s, t) && Core(t)
    ensures Pending(t) == Pending(s)
  {}

  // ---------- Steps of the implementation ----------

  lemma CompletedIs(s: State)
    requires Rest(s) && |s.queue| > 0
    ensures Completed(s).meter.level == Decrease(s.meter.level, s.queue[0].total).0
    ensures DrainDue(s) == Decrease(s.meter.level, s.queue[0].total).1
    ensures Holders(Completed(s)) == Holders(s) && Holders(s) > 0
  {
    hide Metered, Times;
    CompletedMeter(s.meter, s.queue);
  }

  lemma StartIs(hwm: nat, lwm: nat)
    ensures var s := Start(hwm, lwm); s.pointers == 1 && Open(s) && !s.readEnded && Balanced(s)
  {}

  lemma CompletedCalls(s: State)
    requires |s.queue| > 0
    ensures Completed(s).calling
  {}

  lemma NextUse(s: State, program: Program)
    requires s.pointers > 0
    ensures Next(s, Use(program)) == Ran(s, program)
  {}

  lemma PlainNoted(s: State, name: Name)
    requires Inv(s) && name !in {DrainEvent, DestroyEvent, EndEvent}
    ensures Inv(Noted(s, name))
  {
    hide Metered, Totals, Times;
    NotedCounts(s, name);
  }

  lemma EndNoted(s: State)
    requires Inv(s) && !s.readEnded
    ensures Inv(Noted(s.(readEnded := true), EndEvent))
  {
    hide Metered, Totals, Times;
    NotedCounts(s.(readEnded := true), EndEvent);
  }

  lemma PushedIs(s: State, bufs: seq<seq<Byte>>, tried: int, accepted: bool)
    ensures var all := Flatten(bufs);
            var t := s.(wire := s.wire + all[..SentNow(s, |all|, tried)]);
            Pushed(s, bufs, tried, accepted)
              == if |bufs| == 0 then (s, true)
                 else if CanSend(s, tried) && tried >= |all| then (t.(written := s.written + all), true)
                 else if accepted && Open(s) then
                   (Enqueued(t, all[SentNow(s, |all|, tried)..], |all|).(written := s.written + all), true)
                 else (t, false)
    ensures Inv(s) ==> Metered(s.meter)
  {
    hide SentNow, CanSend, Enqueued, Metered, Flatten;
    if |bufs| == 0 {
      NothingPushed(s, bufs, tried, accepted);
    }
  }

  lemma RunStep(s: State, events: seq<Event>)
    requires |events| > 0
    ensures Run(s, events) == Run(if Enabled(s, events[0]) then Next(s, events[0]) else s, events[1..])
  {}

  lemma RunEnds(s: State)
    ensures Run(s, []) == s
  {}
}
