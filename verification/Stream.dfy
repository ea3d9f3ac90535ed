/**
 `node::uv::stream` with the reference counting of `node::object` and `uv::handle`, its
 writable and readable halves, and libuv as an environment that answers calls and runs
 callbacks. Handlers may use the stream again while an event is being emitted.
 */
module Stream {
  import opened Common
  import opened StreamSpec
  import opened StreamRuns

  const UV_EAGAIN: int := -11

  class UvStream {
    // object
    var useCount: nat
    var isDestroyed: bool
    // writable_base
    const hwm: nat
    const lwm: nat
    var wm: nat
    var isRegular: bool
    var isWritable: bool
    var writingEnded: bool
    // readable_base
    var readingEnded: bool

    // What the program and libuv hold.
    var pointers: nat // live shared_ptrs
    var requests: seq<Request>
    var shutdownPending: bool
    var connects: nat
    var closePending: bool
    var closed: bool

    ghost var deleted: bool
    ghost var now: State

    ghost function CurrentLevel(): Level
      reads `wm, `isRegular
    {
      Level(hwm, lwm, wm, isRegular)
    }

    // The fields other than those of the object, and the state they stand for.
    ghost predicate Tied()
      reads this
    {
      && CurrentLevel() == now.meter.level && requests == now.queue
      && isWritable == now.writable && writingEnded == now.writeEnded && readingEnded == now.readEnded
      && pointers == now.pointers && shutdownPending == now.shutting && connects == now.connecting
      && closePending == now.closing && closed == now.closed
    }

    // The use count is the number of holders, and the object is deleted with the last one.
    ghost predicate Linked()
      reads this
    {
      Tied() && useCount == Holders(now) && (isDestroyed <==> !Open(now)) && (deleted <==> useCount == 0)
    }

    ghost predicate Valid()
      reads this
    {
      Linked() && Inv(now)
    }

    constructor (hwm: nat, lwm: nat)
      requires lwm < hwm
      ensures Valid() && now == Start(hwm, lwm)
    {
      useCount, isDestroyed, pointers := 1, false, 1;
      this.hwm, this.lwm, wm, isRegular, isWritable := hwm, lwm, 0, true, true;
      writingEnded, readingEnded := false, false;
      requests, shutdownPending, connects, closePending, closed := [], false, 0, false, false;
      deleted, now := false, Start(hwm, lwm);
      new;
      StartRests(hwm, lwm);
    }

    // ---------- Reference counting ----------

    method Retain()
      requires !deleted
      modifies `useCount
      ensures useCount == old(useCount) + 1
    {
      useCount := useCount + 1;
    }

    // `delete this`
    method Delete()
      requires !deleted && useCount == 0 && closed
      modifies `deleted
      ensures deleted
    {
      deleted := true;
    }

    // `handle::_destroy`, called once `_is_destroyed` has been set.
    method CloseHandle(onDestroy: Program)
      requires Tied() && Core(now) && Open(now)
      requires isDestroyed && !deleted && useCount == Holders(now)
      modifies this
      ensures Valid() && now == Destroyed(old(now), onDestroy)
      decreases onDestroy, 2
    {
      hide Core, Ran, Noted;
      DestroyNoted(now);
      if !(closePending || closed) {
        Retain();
        closePending := true;
        now := now.(closing := true);
      }
      Emit(DestroyEvent, onDestroy);
      // Afterwards all listeners are removed.
    }

    method Destroy(onDestroy: Program)
      requires Valid() && !deleted
      modifies this
      ensures Valid() && now == Destroyed(old(now), onDestroy)
      decreases onDestroy, 3
    {
      hide Core, Emitted;
      if !isDestroyed {
        isDestroyed := true;
        CloseHandle(onDestroy);
      }
    }

    // Somebody has let go.
    method Release(onDestroy: Program)
      requires Tied() && Core(now)
      requires (isDestroyed <==> !Open(now)) && !deleted && useCount == Holders(now) + 1
      modifies this
      ensures Valid() && now == Released(old(now), onDestroy)
      decreases onDestroy, 3
    {
      hide Core, Emitted;
      ghost var s := now;
      ReleasedIs(s, onDestroy);
      ReleasedKeeps(s, onDestroy);
      useCount := useCount - 1;
      if useCount == 0 {
        if !isDestroyed {
          isDestroyed := true;
          CloseHandle(onDestroy);
          if useCount > 0 {
            return;
          }
        }
        Delete();
      }
    }

    // ---------- Writing ----------

    // `_decrease_watermark`; the caller emits drain.
    method DecreaseWatermark(n: nat) returns (drain: bool)
      requires !deleted
      modifies `wm, `isRegular
      ensures (CurrentLevel(), drain) == Decrease(old(CurrentLevel()), n)
    {
      wm := if wm > n then wm - n else 0;
      drain := false;
      if !isRegular && wm <= lwm {
        isRegular := true;
        drain := true;
      }
    }

    // `uv_try_write`: nothing is sent while writes are queued, otherwise a prefix. An answer
    // above the size of the write means that all was sent.
    method TryWrite(ghost all: seq<Byte>, tried: int) returns (wi: int, ghost sent: nat)
      requires Linked() && !deleted
      modifies `now
      ensures Linked()
      ensures sent == SentNow(old(now), |all|, tried) && now == old(now).(wire := old(now).wire + all[..sent])
      ensures wi > 0 <==> CanSend(old(now), tried)
      ensures wi > 0 ==> wi == tried
    {
      wi := if closePending || closed || |Queued(requests)| > 0 then UV_EAGAIN else tried;
      sent := SentNow(now, |all|, tried);
      now := now.(wire := now.wire + all[..sent]);
    }

    // The first half of `stream::_write`: what uv_try_write leaves to be queued.
    method TrySend(bufs: seq<seq<Byte>>, tried: int) returns (done: bool, rest: seq<Byte>, total: nat)
      requires Linked() && !deleted
      modifies `now
      ensures Linked() && total == |Flatten(bufs)|
      ensures var sent := SentNow(old(now), total, tried);
              && now == old(now).(wire := old(now).wire + Flatten(bufs)[..sent])
              && (!done ==> rest == Flatten(bufs)[sent..])
      ensures done <==> CanSend(old(now), tried) && tried >= total
    {
      hide Queued, Flatten, Contents;
      var views;
      views, total := Fill(bufs);
      ghost var sent;
      var wi;
      wi, sent := TryWrite(Flatten(bufs), tried);
      if wi > 0 && wi >= total {
        // everything was sent, or the answer is erroneous
        return true, [], total;
      }
      var first := 0;
      if wi > 0 {
        first := Skip(views, wi);
      }
      assert views[0..] == views[..];
      done, rest := false, Contents(views[first..]);
    }

    // The packed request: it raises the watermark by the size of the whole write. If uv_write
    // fails, the request is destroyed, which lowers it again, and the error is thrown.
    method QueueWrite(rest: seq<Byte>, total: nat, accepted: bool) returns (threw: bool)
      requires Linked() && Metered(now.meter) && !deleted
      modifies `useCount, `wm, `isRegular, `requests, `now
      ensures Linked() && !deleted && (threw <==> !accepted || !Open(old(now)))
      ensures now == if threw then old(now) else Enqueued(old(now), rest, total)
    {
      hide Metered, Moved;
      wm := wm + total;
      if !accepted || closePending || closed {
        RefusedLevel(now.meter, total);
        var drain := DecreaseWatermark(total);
        assert !drain;
        return true;
      }
      EnqueuedLevel(now.meter, total);
      requests := requests + [Request(rest, total)];
      now := Enqueued(now, rest, total);
      Retain();
      return false;
    }

    // `stream::_write`
    method WriteBuffers(bufs: seq<seq<Byte>>, tried: int, accepted: bool) returns (threw: bool)
      requires Valid() && !deleted
      modifies `useCount, `wm, `isRegular, `requests, `now
      ensures Valid() && !deleted && (now, !threw) == Pushed(old(now), bufs, tried, accepted)
    {
      hide Pushed, Core, SentNow, CanSend, Flatten, Moved, Holders;
      PushedKeeps(now, bufs, tried, accepted);
      PushedIs(now, bufs, tried, accepted);
      if |bufs| == 0 {
        return false;
      }
      var done, rest, total := TrySend(bufs, tried);
      threw := false;
      if !done {
        threw := QueueWrite(rest, total, accepted);
      }
      if !threw {
        NoteWritten(Flatten(bufs));
      }
    }

    ghost method NoteWritten(all: seq<Byte>)
      requires Linked()
      modifies `now
      ensures Linked() && now == old(now).(written := old(now).written + all)
    {
      now := now.(written := now.written + all);
    }

    // What `write` and `end` do once the writing proper has succeeded.
    method Settle()
      requires Tied() && !deleted
      modifies `isRegular, `now
      ensures Tied() && now == Leveled(old(now))
    {
      isRegular := wm < hwm;
      now := Leveled(now);
    }

    // `writable::write`
    method Write(bufs: seq<seq<Byte>>, tried: int, accepted: bool) returns (threw: bool)
      requires Valid() && !deleted
      modifies this
      ensures Valid() && !deleted && now == Wrote(old(now), bufs, tried, accepted)
      ensures threw <==> !old(isWritable) || !Pushed(old(now), bufs, tried, accepted).1
      ensures !threw ==> isRegular == (wm < hwm)
    {
      hide Pushed, Core;
      WroteKeeps(now, bufs, tried, accepted);
      if !isWritable {
        return true;
      }
      threw := WriteBuffers(bufs, tried, accepted);
      if !threw {
        Settle();
      }
    }

    // `stream::_end`
    method EndBuffers(bufs: seq<seq<Byte>>, tried: int, accepted: bool, shut: bool) returns (threw: bool)
      requires Valid() && !deleted && isWritable
      modifies this
      ensures Linked() && !deleted && (now, !threw) == Ending(old(now), bufs, tried, accepted, shut)
    {
      hide Pushed, Metered, Totals, Times;
      PushedKeeps(now, bufs, tried, accepted);
      threw := false;
      if !(closePending || closed) {
        if |bufs| > 0 {
          threw := WriteBuffers(bufs, tried, accepted);
        } else {
          NothingPushed(now, bufs, tried, accepted);
        }
        // uv_shutdown
        threw := threw || !shut;
        if !threw {
          shutdownPending := true;
          now := now.(shutting := true, shutdowns := now.shutdowns + 1);
          Retain();
        }
      }
    }

    // `writable::end`
    method End(bufs: seq<seq<Byte>>, tried: int, accepted: bool, shut: bool) returns (threw: bool)
      requires Valid() && !deleted
      modifies this
      ensures Valid() && !deleted && now == Ended(old(now), bufs, tried, accepted, shut)
      ensures threw <==> isWritable
      ensures old(isWritable) && !threw ==> isRegular == (wm < hwm)
    {
      hide Ending, Core;
      EndedKeeps(now, bufs, tried, accepted, shut);
      threw := false;
      if isWritable {
        EndingKeeps(now, bufs, tried, accepted, shut);
        threw := EndBuffers(bufs, tried, accepted, shut);
        if !threw {
          Settle();
          isWritable := false;
          now := now.(writable := false);
        }
      }
    }

    // ---------- Programs and handlers ----------

    // `emit`: the event is recorded, and its handlers do whatever they do.
    method Emit(ghost name: Name, handlers: Program)
      requires Linked() && Inv(Noted(now, name))
      modifies this
      ensures Valid() && now == Emitted(old(now), name, handlers)
      decreases handlers, 1
    {
      hide Inv, Ran;
      now := Noted(now, name);
      Run(handlers);
    }

    method Run(program: Program)
      requires Valid()
      modifies this
      ensures Valid() && now == Ran(old(now), program)
      decreases program, 0
    {
      hide Core, Performed;
      match program
      case Stop =>
      case Do(op, rest) =>
        if pointers > 0 || !closed {
          Perform(op);
        }
        Run(rest);
    }

    method Perform(op: Op)
      requires Valid() && !deleted
      modifies this
      ensures Valid() && now == Performed(old(now), op)
      decreases op, 0
    {
      hide Core, Wrote, Ended, Destroyed, Released;
      match op
      case Write(bufs, tried, accepted) => var threw := Write(bufs, tried, accepted);
      case End(bufs, tried, accepted, shut) => var threw := End(bufs, tried, accepted, shut);
      case Connect(accepted) => Connect(accepted);
      case Destroy(onDestroy) => Destroy(onDestroy);
      case Copy => CopyPointer();
      case Drop(onDestroy) => DropPointer(onDestroy);
    }

    // `tcp::socket::connect`
    method Connect(accepted: bool)
      requires Valid() && !deleted
      modifies this
      ensures Valid() && now == Performed(old(now), Op.Connect(accepted))
    {
      hide Core;
      PerformedKeeps(now, Op.Connect(accepted));
      if accepted && !(closePending || closed) {
        connects := connects + 1;
        now := now.(connecting := now.connecting + 1);
        Retain();
      }
    }

    // `shared_ptr(const shared_ptr&)`
    method CopyPointer()
      requires Valid() && !deleted
      modifies this
      ensures Valid() && now == Performed(old(now), Copy)
    {
      hide Core;
      PerformedKeeps(now, Copy);
      if pointers > 0 {
        pointers := pointers + 1;
        now := now.(pointers := now.pointers + 1);
        Retain();
      }
    }

    // `~shared_ptr` and `reset`
    method DropPointer(onDestroy: Program)
      requires Valid() && !deleted
      modifies this
      ensures Valid() && now == Performed(old(now), Drop(onDestroy))
      decreases onDestroy, 4
    {
      hide Core, Released;
      if pointers > 0 {
        pointers := pointers - 1;
        DroppedCore(now);
        now := now.(pointers := now.pointers - 1);
        Release(onDestroy);
      }
    }

    // ---------- Events ----------

    // libuv sends more of the queue.
    method OnProgress(n: nat)
      requires Valid() && Rest(now) && Enabled(now, Progress(n))
      modifies `requests, `now
      ensures Valid() && now == Next(old(now), Progress(n))
    {
      hide Queued, Advance, Core;
      ProgressKeeps(now, n);
      requests := Advance(requests, n);
      now := Next(now, Progress(n));
    }

    // libuv takes the oldest request off its queue; its reference is still held while
    // `delete packed_req` lowers the watermark.
    method Complete() returns (drain: bool)
      requires Valid() && Rest(now) && |requests| > 0
      modifies `requests, `wm, `isRegular, `now
      ensures Linked() && !deleted && now == Completed(old(now)) && drain == DrainDue(old(now))
    {
      hide Core, Metered, Moved;
      CompletedIs(now);
      var r := requests[0];
      requests := requests[1..];
      drain := DecreaseWatermark(r.total);
      now := Completed(now);
    }

    // The tail of a callback: destroy after an error, then release the reference.
    method Finish(failed: bool, onDestroy: Program)
      requires Valid() && now.calling && !deleted
      modifies this
      ensures Valid() && now == Finished(old(now), failed, onDestroy)
    {
      hide Destroyed, Released, Metered, Totals, Times;
      ghost var s := now;
      if failed {
        DestroyedKeeps(now, onDestroy);
        Destroy(onDestroy);
      }
      now := now.(calling := false);
      Release(onDestroy);
    }

    // The write callback.
    method OnWritten(status: int, onDrain: Program, onDestroy: Program)
      requires Valid() && Rest(now) && Enabled(now, Written(status, onDrain, onDestroy))
      modifies this
      ensures Valid() && now == Next(old(now), Written(status, onDrain, onDestroy))
    {
      hide Core, Emitted, Finished, DrainDue, Noted, Completed;
      CompletedKeeps(now);
      DrainedKeeps(now, onDrain);
      CompletedCalls(now);
      var drain := Complete();
      if drain {
        Emit(DrainEvent, onDrain);
      }
      Finish(status != 0, onDestroy);
    }

    // The shutdown callback.
    method OnShut(status: int, onDestroy: Program)
      requires Valid() && Rest(now) && Enabled(now, Shut(status, onDestroy))
      modifies this
      ensures Valid() && now == Next(old(now), Shut(status, onDestroy))
    {
      hide Finished, Metered, Totals, Times;
      shutdownPending := false;
      isWritable := false;
      writingEnded := true;
      now := now.(shutting := false, calling := true, writable := false, writeEnded := true);
      Finish(status != 0 || readingEnded, onDestroy);
    }

    // The connect callback.
    method OnConnected(status: int, onEvent: Program, onDestroy: Program)
      requires Valid() && Rest(now) && Enabled(now, Connected(status, onEvent, onDestroy))
      modifies this
      ensures Valid() && now == Next(old(now), Connected(status, onEvent, onDestroy))
    {
      hide Emitted, Finished, Metered, Totals, Times, Noted;
      ghost var name := if status == 0 then ConnectEvent else ErrorEvent;
      connects := connects - 1;
      now := now.(connecting := now.connecting - 1, calling := true);
      PlainNoted(now, name);
      PlainEventKeeps(now, name, onEvent);
      Emit(name, onEvent);
      Finish(status != 0, onDestroy);
    }

    // The read callback with data. It holds no reference, yet the object outlives it.
    method OnData(onData: Program)
      requires Valid() && Rest(now) && Enabled(now, Data(onData))
      modifies this
      ensures Valid() && !deleted && now == Next(old(now), Data(onData))
    {
      hide Core, Emitted, Noted;
      PlainNoted(now, DataEvent);
      PlainEventKeeps(now, DataEvent, onData);
      Emit(DataEvent, onData);
    }

    // The read callback at the end of the peer's stream.
    method OnEof(onEnd: Program, shut: bool, onDestroy: Program)
      requires Valid() && Rest(now) && Enabled(now, Eof(onEnd, shut, onDestroy))
      modifies this
      ensures Valid() && !deleted && now == Next(old(now), Eof(onEnd, shut, onDestroy))
    {
      hide Core, Emitted, Noted, Destroyed, Ended;
      AfterEndKeeps(now, onEnd);
      EofKeeps(now, onEnd, shut, onDestroy);
      if !readingEnded {
        EndNoted(now);
        readingEnded := true;
        now := now.(readEnded := true);
        Emit(EndEvent, onEnd);
      }
      if writingEnded {
        Destroy(onDestroy);
      } else {
        var threw := End([], 0, false, shut);
      }
    }

    // The read callback with an error.
    method OnReadFailed(onError: Program, onDestroy: Program)
      requires Valid() && Rest(now) && Enabled(now, ReadFailed(onError, onDestroy))
      modifies this
      ensures Valid() && !deleted && now == Next(old(now), ReadFailed(onError, onDestroy))
    {
      hide Core, Emitted, Noted, Destroyed;
      PlainNoted(now, ErrorEvent);
      PlainEventKeeps(now, ErrorEvent, onError);
      ReadFailedKeeps(now, onError, onDestroy);
      Emit(ErrorEvent, onError);
      Destroy(onDestroy);
    }

    // The close callback.
    method OnClosed()
      requires Valid() && Rest(now) && Enabled(now, Closed)
      modifies this
      ensures Valid() && now == Next(old(now), Closed) && (deleted <==> pointers == 0)
    {
      hide Metered, Totals, Times;
      closePending := false;
      closed := true;
      now := now.(closing := false, closed := true);
      ReleasedIs(now, Stop);
      Release(Stop);
    }

    // What the environment may do next, as far as it concerns this stream.
    predicate CanHappen(e: Event)
      reads `pointers, `requests, `shutdownPending, `connects, `closePending, `closed
    {
      match e
      case Use(_) => pointers > 0
      case Progress(n) => n <= |Queued(requests)|
      case Written(status, _, _) => |requests| > 0 && (status == 0 ==> requests[0].rest == [])
      case Shut(status, _) => shutdownPending && (status == 0 ==> |requests| == 0)
      case Connected(_, _, _) => connects > 0
      case Data(_) => !closePending && !closed
      case Eof(_, _, _) => !closePending && !closed
      case ReadFailed(_, _) => !closePending && !closed
      case Closed => closePending && |requests| == 0 && !shutdownPending && connects == 0
    }

    lemma TiedIs()
      requires Valid()
      ensures Tied()
    {}

    lemma CanHappenIs(e: Event)
      requires Tied()
      ensures CanHappen(e) == Enabled(now, e)
    {}

    method Step(e: Event)
      requires Valid() && Rest(now) && Enabled(now, e)
      modifies this
      ensures Valid() && Rest(now) && now == Next(old(now), e)
    {
      hide Core, Next;
      NextKeeps(now, e);
      match e
      case Use(program) => NextUse(now, program); Run(program);
      case Progress(n) => OnProgress(n);
      case Written(status, onDrain, onDestroy) => OnWritten(status, onDrain, onDestroy);
      case Shut(status, onDestroy) => OnShut(status, onDestroy);
      case Connected(status, onEvent, onDestroy) => OnConnected(status, onEvent, onDestroy);
      case Data(onData) => OnData(onData);
      case Eof(onEnd, shut, onDestroy) => OnEof(onEnd, shut, onDestroy);
      case ReadFailed(onError, onDestroy) => OnReadFailed(onError, onDestroy);
      case Closed => OnClosed();
    }

    // Every finite run of the event loop; what cannot happen next is skipped.
    method RunAll(events: seq<Event>)
      requires Valid() && Rest(now)
      modifies this
      ensures Valid() && Rest(now) && now == StreamRuns.Run(old(now), events)
    {
      hide *;
      ghost var s := now;
      assert events[0..] == events;
      for i := 0 to |events|
        invariant Valid() && Rest(now)
        invariant StreamRuns.Run(s, events) == StreamRuns.Run(now, events[i..])
      {
        RunStep(now, events[i..]);
        assert events[i..][1..] == events[i + 1..];
        TiedIs();
        CanHappenIs(events[i]);
        if CanHappen(events[i]) {
          Step(events[i]);
        }
      }
      assert events[|events|..] == [];
      RunEnds(now);
    }
  }

  // The life of a stream, in the terms of its fields.
  method Lifecycle(hwm: nat, lwm: nat, events: seq<Event>) returns (s: UvStream)
    requires lwm < hwm
    ensures fresh(s) && s.Valid() && s.now == Run(Start(hwm, lwm), events)
    // Both halves of a stream that has not been destroyed have not ended; and as long as
    // nothing fails, nobody destroys it and a pointer is kept, one that has been destroyed has.
    ensures s.readingEnded && s.writingEnded ==> s.isDestroyed
    ensures Kept(Start(hwm, lwm), events) && s.isDestroyed ==> s.readingEnded && s.writingEnded
    // Unless libuv refuses the shutdown, the handshake goes on.
    ensures (forall e :: e in events && e.Eof? ==> e.shut) && s.readingEnded && !s.isDestroyed ==> s.shutdownPending
    // Unless a write fails, every byte is where it should be.
    ensures (forall e :: e in events ==> !Loses(e)) ==> s.now.wire + Queued(s.requests) == s.now.written
    // A flooded stream waits for a write, and every flood that is over was ended by a drain
    // event unless a write hushed one.
    ensures !s.isRegular ==> |s.requests| > 0
    ensures s.isRegular && !EverHushes(NewMeter(hwm, lwm), RunTrace(Start(hwm, lwm), events).moves) ==>
      s.now.meter.floods == Times(s.now.log, DrainEvent)
    // The object is deleted with the handle closed and the last pointer gone.
    ensures s.deleted <==> s.closed && s.pointers == 0
  {
    hide Run, RunTrace, Start, Queued, Loses, Kept, Core;
    s := new UvStream(hwm, lwm);
    StartRests(hwm, lwm);
    StartIs(hwm, lwm);
    s.RunAll(events);
    RunsFromStart(hwm, lwm, events);
    if Kept(Start(hwm, lwm), events) {
      HalfClose(Start(hwm, lwm), events);
    }
    if forall e :: e in events && e.Eof? ==> e.shut {
      EofIsAnswered(Start(hwm, lwm), events);
    }
    if forall e :: e in events ==> !Loses(e) {
      NothingLost(Start(hwm, lwm), events);
    }
  }

  method Fill(bufs: seq<seq<Byte>>) returns (views: array<View>, total: nat)
    ensures fresh(views) && views.Length == |bufs|
    ensures total == |Flatten(bufs)| && Contents(views[..]) == Flatten(bufs)
  {
    views := new View[|bufs|](_ => Range([], 0, 0));
    total := 0;
    var i := 0;
    assert bufs[..0] == [];
    while i < |bufs|
      invariant 0 <= i <= |bufs| && total == |Flatten(bufs[..i])|
      invariant forall j :: 0 <= j < i ==> views[j] == Range(bufs[j], 0, |bufs[j]|)
    {
      views[i] := Range(bufs[i], 0, |bufs[i]|);
      FlattenSnoc(bufs[..i], bufs[i]);
      assert bufs[..i + 1] == bufs[..i] + [bufs[i]];
      total := total + |bufs[i]|;
      i := i + 1;
    }
    assert bufs[..|bufs|] == bufs;
    WholeContents(bufs, views[..]);
  }

  // A write that libuv refuses leaves the level as it was, and never drains it.
  lemma RefusedLevel(m: Meter, n: nat)
    requires Metered(m)
    ensures Decrease(Increase(m.level, n), n) == (m.level, false)
  {}

  lemma EnqueuedLevel(m: Meter, n: nat)
    ensures Moved(m, Enqueue(n)).level == Increase(m.level, n)
  {}
}
