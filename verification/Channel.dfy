/**
 `node::channel` and `util::async_channel`: any number of producers, one receiving event
 loop, and a wakeup signal that coalesces. The threads interleave at the level of single
 accesses: to the locked queue, to `_async`, and to the pending flag of the signal.
 */
module Channel {
  import opened Common

  // The queue under its mutex.
  class LockedQueue<T> {
    var q: seq<T>

    constructor ()
      ensures q == []
    {
      q := [];
    }

    method Send(value: T)
      modifies this
      ensures q == old(q) + [value]
    {
      q := q + [value];
    }

    // Swaps the queue with an empty one.
    method Recv() returns (batch: seq<T>)
      modifies this
      ensures batch == old(q) && q == []
    {
      batch := [];
      batch, q := q, batch;
    }
  }

  type Value = nat

  // A producer is between two sends, has pushed its value, or has also seen `_async` set.
  datatype Producer = Ready | Pushed | Seen

  // `init` runs on the loop's thread: it sets `_async`, and signals at its end.
  datatype Init = NotStarted | AsyncSet | Finished

  datatype State = State(
    producers: seq<Producer>,
    init: Init,
    pending: bool,             // the signal, once sent and until the loop wakes up
    receiving: bool,           // the loop has woken up and is about to take the queue
    queue: seq<Value>,
    sent: seq<Value>,          // all values, in the order in which the lock was taken
    batches: seq<seq<Value>>)  // what the receive event has been emitted with

  // The loop takes no wakeup while its own thread is inside `init` or already handling one.
  datatype Action =
    | Push(p: nat, v: Value)
    | Look(p: nat)
    | Signal(p: nat)
    | SetAsync
    | FinishInit
    | Wake
    | Receive

  predicate Enabled(s: State, a: Action) {
    match a
    case Push(p, _) => p < |s.producers| && s.producers[p] == Ready
    case Look(p) => p < |s.producers| && s.producers[p] == Pushed
    case Signal(p) => p < |s.producers| && s.producers[p] == Seen
    case SetAsync => s.init == NotStarted
    case FinishInit => s.init == AsyncSet
    case Wake => s.init == Finished && s.pending && !s.receiving
    case Receive => s.receiving
  }

  function Next(s: State, a: Action): State
    requires Enabled(s, a)
  {
    match a
    case Push(p, v) => s.(producers := s.producers[p := Pushed], queue := s.queue + [v], sent := s.sent + [v])
    case Look(p) => s.(producers := s.producers[p := if s.init == NotStarted then Ready else Seen])
    case Signal(p) => s.(producers := s.producers[p := Ready], pending := true)
    case SetAsync => s.(init := AsyncSet)
    case FinishInit => s.(init := Finished, pending := true)
    case Wake => s.(pending := false, receiving := true)
    case Receive =>
      s.(receiving := false, queue := [], batches := if |s.queue| > 0 then s.batches + [s.queue] else s.batches)
  }

  // Any interleaving; what is not possible at its turn is skipped.
  function Run(s: State, actions: seq<Action>): State
    decreases |actions|
  {
    if |actions| == 0 then s
    else Run(if Enabled(s, actions[0]) then Next(s, actions[0]) else s, actions[1..])
  }

  function Start(producers: nat): State {
    State(seq(producers, _ => Ready), NotStarted, false, false, [], [], [])
  }

  // ---------- Safety ----------

  // Everything sent has been delivered exactly once and in order, or is still queued; and a
  // queue with values is on its way to being received.
  ghost predicate Inv(s: State) {
    && Flatten(s.batches) + s.queue == s.sent
    && (forall b :: b in s.batches ==> |b| > 0)
    && (forall p :: 0 <= p < |s.producers| && s.producers[p] == Seen ==> s.init != NotStarted)
    && (s.queue != [] ==> s.pending || s.receiving || s.init != Finished || exists p :: Sending(s, p))
    && (s.receiving ==> s.init == Finished)
  }

  ghost predicate Sending(s: State, p: nat) {
    p < |s.producers| && s.producers[p] != Ready
  }

  lemma StartInv(producers: nat)
    ensures Inv(Start(producers))
  {}

  lemma NextKeeps(s: State, a: Action)
    requires Inv(s) && Enabled(s, a)
    ensures Inv(Next(s, a))
  {
    var t := Next(s, a);
    if a.Receive? {
      FlattenSnoc(s.batches, s.queue);
    }
    if t.queue != [] && !t.pending && !t.receiving && t.init == Finished {
      assert a.Push? || a.Look? ==> Sending(t, a.p);
    }
  }

  lemma {:induction false} RunKeeps(s: State, actions: seq<Action>)
    requires Inv(s)
    ensures Inv(Run(s, actions))
    decreases |actions|
  {
    hide Inv;
    if |actions| > 0 {
      if Enabled(s, actions[0]) {
        NextKeeps(s, actions[0]);
      }
      RunKeeps(if Enabled(s, actions[0]) then Next(s, actions[0]) else s, actions[1..]);
    }
  }

  // The values given to `send`, in the order in which the sends take the lock.
  function Values(s: State, actions: seq<Action>): seq<Value>
    decreases |actions|
  {
    if |actions| == 0 then []
    else if !Enabled(s, actions[0]) then Values(s, actions[1..])
    else (if actions[0].Push? then [actions[0].v] else []) + Values(Next(s, actions[0]), actions[1..])
  }

  // Every interleaving sends exactly these.
  lemma {:induction false} RunSends(s: State, actions: seq<Action>)
    ensures Run(s, actions).sent == s.sent + Values(s, actions)
    decreases |actions|
  {
    if |actions| > 0 {
      var t := if Enabled(s, actions[0]) then Next(s, actions[0]) else s;
      RunSends(t, actions[1..]);
      if Enabled(s, actions[0]) {
        NextSends(s, actions[0]);
      }
    } else {
      assert s.sent + [] == s.sent;
    }
  }

  lemma NextSends(s: State, a: Action)
    requires Enabled(s, a)
    ensures Next(s, a).sent == s.sent + if a.Push? then [a.v] else []
  {
    assert s.sent + [] == s.sent;
  }

  // ---------- No lost wakeups ----------

  // Nothing is going on any more.
  ghost predicate Quiet(s: State) {
    s.init == Finished && !s.pending && !s.receiving && forall p :: 0 <= p < |s.producers| ==> s.producers[p] == Ready
  }

  // What is still to be done if nobody sends anything more.
  function Work(producers: seq<Producer>): nat {
    if |producers| == 0 then 0
    else (match producers[0] case Ready => 0 case Pushed => 4 case Seen => 3) + Work(producers[1..])
  }

  function Remaining(s: State): nat {
    Work(s.producers) + (match s.init case NotStarted => 4 case AsyncSet => 3 case Finished => 0)
    + (if s.pending then 2 else 0) + if s.receiving then 1 else 0
  }

  lemma {:induction false} WorkUpdated(producers: seq<Producer>, p: nat, q: Producer)
    requires p < |producers|
    ensures Work(producers[p := q]) - Work([q]) == Work(producers) - Work([producers[p]])
    decreases p
  {
    if p > 0 {
      assert producers[p := q][1..] == producers[1..][p - 1 := q];
      WorkUpdated(producers[1..], p - 1, q);
    } else {
      assert producers[p := q][1..] == producers[1..];
    }
  }

  // Every step that is not a new send brings the end nearer.
  lemma StepsShrink(s: State, a: Action)
    requires Enabled(s, a) && !a.Push?
    ensures Remaining(Next(s, a)) < Remaining(s)
  {
    if a.Look? || a.Signal? {
      WorkUpdated(s.producers, a.p, Next(s, a).producers[a.p]);
    }
  }

  // And until the end some such step is possible.
  lemma NotStuck(s: State) returns (a: Action)
    requires Inv(s) && !Quiet(s)
    ensures Enabled(s, a) && !a.Push?
  {
    if s.init == NotStarted {
      a := SetAsync;
    } else if s.init == AsyncSet {
      a := FinishInit;
    } else if s.receiving {
      a := Receive;
    } else if s.pending {
      a := Wake;
    } else {
      var p :| 0 <= p < |s.producers| && s.producers[p] != Ready;
      a := if s.producers[p] == Pushed then Look(p) else Signal(p);
    }
  }

  // A run in which each action is possible at its turn and nobody sends.
  ghost predicate Settles(s: State, actions: seq<Action>)
    decreases |actions|
  {
    |actions| > 0 ==> Enabled(s, actions[0]) && !actions[0].Push? && Settles(Next(s, actions[0]), actions[1..])
  }

  // So once the producers stop, every run comes to an end after a bounded number of steps,
  // and wherever it cannot go on, all that was ever sent has been delivered.
  lemma {:induction false} Delivered(s: State, actions: seq<Action>)
    requires Inv(s) && Settles(s, actions)
    ensures |actions| <= Remaining(s)
    ensures var t := Run(s, actions);
            && t.sent == s.sent
            && (Quiet(t) ==> t.queue == [] && Flatten(t.batches) == s.sent)
            && (Quiet(t) <==> forall a: Action :: Enabled(t, a) ==> a.Push?)
    decreases |actions|
  {
    hide Work;
    if |actions| > 0 {
      NextKeeps(s, actions[0]);
      StepsShrink(s, actions[0]);
      Delivered(Next(s, actions[0]), actions[1..]);
    } else {
      AtTheEnd(s);
    }
  }

  // Whatever the interleaving of the sends with everything else, the receive events of a run
  // that cannot go on hold exactly the values sent, in order.
  lemma AllDelivered(producers: nat, actions: seq<Action>, rest: seq<Action>)
    requires Settles(Run(Start(producers), actions), rest)
    ensures var s := Run(Start(producers), actions);
            var t := Run(s, rest);
            && |rest| <= Remaining(s)
            && (Quiet(t) ==> Flatten(t.batches) == Values(Start(producers), actions))
            && (Quiet(t) <==> forall a: Action :: Enabled(t, a) ==> a.Push?)
  {
    hide Inv, Run, Enabled, Settles, Remaining, Quiet;
    StartInv(producers);
    RunKeeps(Start(producers), actions);
    RunSends(Start(producers), actions);
    assert [] + Values(Start(producers), actions) == Values(Start(producers), actions);
    Delivered(Run(Start(producers), actions), rest);
  }

  lemma AtTheEnd(s: State)
    requires Inv(s)
    ensures Quiet(s) ==> s.queue == [] && Flatten(s.batches) == s.sent
    ensures Quiet(s) <==> forall a: Action :: Enabled(s, a) ==> a.Push?
  {
    if Quiet(s) {
      assert forall p :: !Sending(s, p);
      assert Flatten(s.batches) + [] == Flatten(s.batches);
    } else {
      var a := NotStuck(s);
    }
  }

  // ---------- The classes ----------

  // `async_channel`, whose threads call these methods in any order.
  class AsyncChannel {
    const channel: LockedQueue<Value>
    var hasAsync: bool               // whether `_async` is set
    var signalled: bool              // the pending flag of the signal
    var emitted: seq<seq<Value>>     // what the receive event has been emitted with
    ghost var now: State

    ghost predicate Valid()
      reads this, channel
    {
      && channel.q == now.queue && hasAsync == (now.init != NotStarted) && signalled == now.pending
      && emitted == now.batches && Inv(now)
    }

    constructor (ghost producers: nat)
      ensures Valid() && now == Start(producers) && fresh(channel)
    {
      channel := new LockedQueue<Value>();
      hasAsync, signalled, emitted, now := false, false, [], Start(producers);
      new;
      StartInv(producers);
    }

    // The first half of `send`.
    method Push(ghost p: nat, v: Value)
      requires Valid() && Enabled(now, Action.Push(p, v))
      modifies this, channel
      ensures Valid() && now == Next(old(now), Action.Push(p, v))
    {
      hide Inv;
      NextKeeps(now, Action.Push(p, v));
      channel.Send(v);
      now := Next(now, Action.Push(p, v));
    }

    // `if (this->_async)`
    method Look(ghost p: nat) returns (seen: bool)
      requires Valid() && Enabled(now, Action.Look(p))
      modifies `now
      ensures Valid() && now == Next(old(now), Action.Look(p)) && (seen <==> now.producers[p] == Seen)
    {
      hide Inv;
      NextKeeps(now, Action.Look(p));
      seen := hasAsync;
      now := Next(now, Action.Look(p));
    }

    // `this->_async->send()`, in `send` and at the end of `init`.
    method Signal(ghost a: Action)
      requires Valid() && (a.Signal? || a.FinishInit?) && Enabled(now, a)
      modifies `signalled, `now
      ensures Valid() && now == Next(old(now), a)
    {
      hide Inv;
      NextKeeps(now, a);
      signalled := true;
      now := Next(now, a);
    }

    // `init` up to its last statement. It throws if called a second time.
    method Init() returns (threw: bool)
      requires Valid()
      modifies `hasAsync, `now
      ensures threw <==> old(now).init != NotStarted
      ensures Valid() && now == if threw then old(now) else Next(old(now), SetAsync)
    {
      hide Inv;
      threw := hasAsync;
      if !threw {
        NextKeeps(now, SetAsync);
        hasAsync := true;
        now := Next(now, SetAsync);
      }
    }

    // The loop takes the signal.
    method Wake()
      requires Valid() && Enabled(now, Action.Wake)
      modifies `signalled, `now
      ensures Valid() && now == Next(old(now), Action.Wake)
    {
      hide Inv;
      NextKeeps(now, Action.Wake);
      signalled := false;
      now := Next(now, Action.Wake);
    }

    // The handler of the async event.
    method Receive()
      requires Valid() && Enabled(now, Action.Receive)
      modifies this, channel
      ensures Valid() && now == Next(old(now), Action.Receive)
    {
      hide Inv;
      NextKeeps(now, Action.Receive);
      var queue := channel.Recv();
      if |queue| > 0 {
        emitted := emitted + [queue];
      }
      now := Next(now, Action.Receive);
    }

    // One step of one thread.
    method Perform(a: Action)
      requires Valid() && Enabled(now, a)
      modifies this, channel
      ensures Valid() && now == Next(old(now), a)
    {
      hide Inv, Next;
      match a
      case Push(p, v) => Push(p, v);
      case Look(p) => var seen := Look(p);
      case Signal(p) => Signal(a);
      case SetAsync => var threw := Init();
      case FinishInit => Signal(a);
      case Wake => Wake();
      case Receive => Receive();
    }

    // Any interleaving of steps, each possible at its turn. Whatever the order, everything
    // sent has been emitted once and in order, or is still queued; and if nothing is going on
    // any more, the queue is empty.
    method Interleave(actions: seq<Action>)
      requires Valid() && Possible(now, actions)
      modifies this, channel
      ensures Valid() && now == Run(old(now), actions)
      ensures Flatten(emitted) + channel.q == old(now.sent) + Values(old(now), actions)
      ensures Quiet(now) ==> channel.q == [] && Flatten(emitted) == old(now.sent) + Values(old(now), actions)
    {
      hide Inv, Enabled, Next;
      ghost var s := now;
      assert actions[0..] == actions;
      for i := 0 to |actions|
        invariant Valid() && Possible(now, actions[i..])
        invariant Run(s, actions) == Run(now, actions[i..])
      {
        assert actions[i..][1..] == actions[i + 1..];
        Perform(actions[i]);
      }
      assert actions[|actions|..] == [];
      AtTheEnd(now);
      SentIs(now);
      RunSends(s, actions);
    }
  }

  ghost predicate Possible(s: State, actions: seq<Action>)
    decreases |actions|
  {
    |actions| > 0 ==> Enabled(s, actions[0]) && Possible(Next(s, actions[0]), actions[1..])
  }

  lemma SentIs(s: State)
    requires Inv(s)
    ensures Flatten(s.batches) + s.queue == s.sent
  {}
}
