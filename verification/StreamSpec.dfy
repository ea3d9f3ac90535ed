/**
 What the write path of a stream is measured by: lists of buffers and the bytes they hold,
 the queue of write requests, and the watermarks with their drain events.
 */
module StreamSpec {
  import opened Common

  type Byte = bv8

  // ---------- Buffers ----------

  // `uv_buf_t`: an address range inside a block of memory.
  datatype Range = Range(block: seq<Byte>, base: nat, len: nat)

  type View = r: Range | r.base + r.len <= |r.block| witness Range([], 0, 0)

  function Bytes(v: View): seq<Byte> {
    v.block[v.base..v.base + v.len]
  }

  function Contents(views: seq<View>): seq<Byte> {
    if |views| == 0 then [] else Bytes(views[0]) + Contents(views[1..])
  }

  // Views of whole buffers.
  lemma {:induction false} WholeContents(bufs: seq<seq<Byte>>, views: seq<View>)
    requires |views| == |bufs|
    requires forall i :: 0 <= i < |bufs| ==> views[i] == Range(bufs[i], 0, |bufs[i]|)
    ensures Contents(views) == Flatten(bufs)
  {
    if |bufs| > 0 {
      WholeContents(bufs[1..], views[1..]);
    }
  }

  lemma NothingLeft(views: seq<View>)
    ensures |Contents(views)| > 0 ==> |views| > 0
  {}

  // Dropping bytes from the front of a list of buffers.
  lemma DropFrom(v: View, later: seq<View>, n: nat)
    ensures var all := Contents([v] + later);
            && all == Bytes(v) + Contents(later)
            && (v.len <= n <= |all| ==> all[n..] == Contents(later)[n - v.len..])
            && (n <= v.len ==> all[n..] == Bytes(Range(v.block, v.base + n, v.len - n)) + Contents(later))
  {
    assert ([v] + later)[1..] == later;
    assert |Bytes(v)| == v.len;
  }

  // The loop that skips what has been sent: it stops within the list, at a buffer with bytes
  // left, and trims that buffer in place.
  method Skip(views: array<View>, sent: nat) returns (first: nat)
    requires 0 < sent < |Contents(views[..])|
    modifies views
    ensures first < views.Length && views[first].len > 0
    ensures Contents(views[first..]) == old(Contents(views[..]))[sent..]
    ensures forall i :: 0 <= i < views.Length && i != first ==> views[i] == old(views[i])
    ensures views[first].block == old(views[first].block)
    ensures views[first].base + views[first].len == old(views[first].base + views[first].len)
  {
    hide Contents;
    var wu: nat, i := sent, 0;
    ghost var all := Contents(views[..]);
    assert views[0..] == views[..];
    while i < views.Length
      invariant 0 <= i <= views.Length && forall j :: 0 <= j < views.Length ==> views[j] == old(views[j])
      invariant wu < |Contents(views[i..])| && Contents(views[i..])[wu..] == all[sent..]
    {
      assert views[i..] == [views[i]] + views[i + 1..];
      DropFrom(views[i], views[i + 1..], wu);
      var len := views[i].len;
      if len > wu {
        break;
      }
      wu := wu - len;
      i := i + 1;
    }
    NothingLeft(views[i..]);
    ghost var later := views[i + 1..];
    views[i] := Range(views[i].block, views[i].base + wu, views[i].len - wu);
    assert views[i..] == [views[i]] + later;
    DropFrom(views[i], later, 0);
    first := i;
  }

  // ---------- Requests ----------

  // A write that libuv has accepted: the bytes not yet sent, and the size of the whole write.
  datatype Request = Request(rest: seq<Byte>, total: nat)

  function Queued(requests: seq<Request>): seq<Byte> {
    if |requests| == 0 then [] else requests[0].rest + Queued(requests[1..])
  }

  function Totals(requests: seq<Request>): seq<nat> {
    seq(|requests|, i requires 0 <= i < |requests| => requests[i].total)
  }

  lemma {:induction false} QueuedSnoc(requests: seq<Request>, r: Request)
    ensures Queued(requests + [r]) == Queued(requests) + r.rest
  {
    if |requests| > 0 {
      assert (requests + [r])[1..] == requests[1..] + [r];
      QueuedSnoc(requests[1..], r);
    }
  }

  // The kernel takes n more bytes, in the order of the queue.
  function Advance(requests: seq<Request>, n: nat): seq<Request> {
    if |requests| == 0 then []
    else if n < |requests[0].rest| then [requests[0].(rest := requests[0].rest[n..])] + requests[1..]
    else [requests[0].(rest := [])] + Advance(requests[1..], n - |requests[0].rest|)
  }

  lemma {:induction false} AdvanceSends(requests: seq<Request>, n: nat)
    requires n <= |Queued(requests)|
    ensures Queued(requests) == Queued(requests)[..n] + Queued(Advance(requests, n))
  {
    if |requests| > 0 {
      var head, tail := requests[0].rest, Queued(requests[1..]);
      var a := Advance(requests, n);
      if n < |head| {
        assert a[1..] == requests[1..];
        assert (head + tail)[..n] + (head[n..] + tail) == head + tail;
      } else {
        AdvanceSends(requests[1..], n - |head|);
        assert a[1..] == Advance(requests[1..], n - |head|);
        assert (head + tail)[..n] == head + tail[..n - |head|];
        assert [] + Queued(a[1..]) == Queued(a[1..]);
      }
    }
  }

  lemma {:induction false} AdvanceTotals(requests: seq<Request>, n: nat)
    ensures Totals(Advance(requests, n)) == Totals(requests)
  {
    if |requests| > 0 && n >= |requests[0].rest| {
      AdvanceTotals(requests[1..], n - |requests[0].rest|);
      assert Totals(requests) == [requests[0].total] + Totals(requests[1..]);
      assert Advance(requests, n)[1..] == Advance(requests[1..], n - |requests[0].rest|);
      assert Totals(Advance(requests, n)) == [requests[0].total] + Totals(Advance(requests, n)[1..]);
    }
  }

  // ---------- Watermarks ----------

  datatype Level = Level(hwm: nat, lwm: nat, wm: nat, regular: bool)

  function Increase(l: Level, n: nat): Level { l.(wm := l.wm + n) }

  // The second component says whether `drain` is emitted.
  function Decrease(l: Level, n: nat): (Level, bool) {
    var wm := if l.wm > n then l.wm - n else 0;
    var drain := !l.regular && wm <= l.lwm;
    (l.(wm := wm, regular := l.regular || drain), drain)
  }

  // What `write` and `end` do after the writing proper.
  function Settled(l: Level): Level { l.(regular := l.wm < l.hwm) }

  // Everything that moves the watermark. A write is at most one Enqueue and then, unless it
  // throws, one Settle.
  datatype Move = Enqueue(n: nat) | Settle | Refuse(n: nat) | Complete

  // The level, with the history of a stream's floods: those begun, those ended by a drain
  // event, and those ended by a later write without any event.
  datatype Meter = Meter(level: Level, outstanding: seq<nat>, floods: nat, drains: nat, silent: nat)

  function NewMeter(hwm: nat, lwm: nat): Meter {
    Meter(Level(hwm, lwm, 0, true), [], 0, 0, 0)
  }

  function Moved(m: Meter, move: Move): Meter {
    match move
    case Enqueue(n) => m.(level := Increase(m.level, n), outstanding := m.outstanding + [n])
    case Settle =>
      var l := Settled(m.level);
      m.(level := l,
         floods := m.floods + if m.level.regular && !l.regular then 1 else 0,
         silent := m.silent + if !m.level.regular && l.regular then 1 else 0)
    case Refuse(n) =>
      var (l, drain) := Decrease(Increase(m.level, n), n);
      m.(level := l, drains := m.drains + if drain then 1 else 0)
    case Complete =>
      if |m.outstanding| == 0 then m
      else
        var (l, drain) := Decrease(m.level, m.outstanding[0]);
        m.(level := l, outstanding := m.outstanding[1..], drains := m.drains + if drain then 1 else 0)
  }

  function AllMoved(m: Meter, moves: seq<Move>): Meter
    decreases |moves|
  {
    if |moves| == 0 then m else AllMoved(Moved(m, moves[0]), moves[1..])
  }

  function Sum(s: seq<nat>): nat {
    if |s| == 0 then 0 else s[0] + Sum(s[1..])
  }

  lemma {:induction false} SumSnoc(s: seq<nat>, n: nat)
    ensures Sum(s + [n]) == Sum(s) + n
  {
    if |s| > 0 {
      assert (s + [n])[1..] == s[1..] + [n];
      SumSnoc(s[1..], n);
    }
  }

  // The watermark is the sum of the outstanding writes, a flooded stream is above its low
  // mark, and every flood was ended by a drain event, ended silently, or still lasts.
  ghost predicate Metered(m: Meter) {
    && m.level.lwm < m.level.hwm
    && m.level.wm == Sum(m.outstanding)
    && (!m.level.regular ==> m.level.wm > m.level.lwm)
    && m.floods == m.drains + m.silent + if m.level.regular then 0 else 1
  }

  lemma MovedKeeps(m: Meter, move: Move)
    requires Metered(m)
    ensures Metered(Moved(m, move))
    ensures move.Refuse? ==> Moved(m, move) == m
  {
    if move.Enqueue? {
      SumSnoc(m.outstanding, move.n);
    }
  }

  lemma {:induction false} AllMovedSnoc(m: Meter, moves: seq<Move>, move: Move)
    ensures AllMoved(m, moves + [move]) == Moved(AllMoved(m, moves), move)
    decreases |moves|
  {
    hide Moved;
    if |moves| == 0 {
      assert moves + [move] == [move] && [move][1..] == [];
    } else {
      assert (moves + [move])[1..] == moves[1..] + [move];
      AllMovedSnoc(Moved(m, moves[0]), moves[1..], move);
    }
  }

  lemma {:induction false} AllMovedAppend(m: Meter, a: seq<Move>, b: seq<Move>)
    ensures AllMoved(m, a + b) == AllMoved(AllMoved(m, a), b)
    decreases |a|
  {
    hide Moved;
    if |a| == 0 {
      assert a + b == b;
    } else {
      assert (a + b)[1..] == a[1..] + b;
      AllMovedAppend(Moved(m, a[0]), a[1..], b);
    }
  }

  // A write on a flooded stream is the only way to end a flood without a drain event, and it
  // does so exactly if the level is below the high mark again.
  predicate Hushes(m: Meter, move: Move) {
    move.Settle? && !m.level.regular && m.level.wm < m.level.hwm
  }

  predicate EverHushes(m: Meter, moves: seq<Move>)
    decreases |moves|
  {
    |moves| > 0 && (Hushes(m, moves[0]) || EverHushes(Moved(m, moves[0]), moves[1..]))
  }

  // Over every run, drain handlers that write again included (their moves follow the
  // completion they answer): a stream without outstanding writes is not flooded, and each
  // flood was ended by exactly one drain event if and only if no write came in between that
  // left the level below the high mark.
  lemma {:induction false} NoLostDrain(m: Meter, moves: seq<Move>)
    requires Metered(m)
    ensures var t := AllMoved(m, moves);
            && Metered(t) && t.silent >= m.silent
            && (t.outstanding == [] ==> t.level.regular && t.level.wm == 0)
            && (!EverHushes(m, moves) <==> t.silent == m.silent)
    ensures var t := AllMoved(m, moves);
            m.silent == 0 && t.level.regular ==> (t.floods == t.drains <==> !EverHushes(m, moves))
    decreases |moves|
  {
    if |moves| > 0 {
      MovedKeeps(m, moves[0]);
      NoLostDrain(Moved(m, moves[0]), moves[1..]);
    }
  }

  lemma NextMoves(m: Meter, first: Move, second: Move, rest: seq<Move>)
    ensures AllMoved(m, [first, second] + rest) == AllMoved(Moved(Moved(m, first), second), rest)
  {
    assert ([first, second] + rest)[1..] == [second] + rest;
    assert ([second] + rest)[1..] == rest;
  }

  // A flood whose drain event is never emitted: the write in the middle takes the level from
  // 10 to 11, below the high mark of 16.
  lemma LostDrain()
    ensures var moves := [Enqueue(10), Settle, Enqueue(10), Settle, Complete, Enqueue(1), Settle, Complete, Complete];
            AllMoved(NewMeter(16, 4), moves) == Meter(Level(16, 4, 0, true), [], 1, 0, 1)
  {
    var m := NewMeter(16, 4);
    var m1 := Moved(Moved(m, Enqueue(10)), Settle);
    var m2 := Moved(Moved(m1, Enqueue(10)), Settle);
    var m3 := Moved(Moved(m2, Complete), Enqueue(1));
    var m4 := Moved(Moved(m3, Settle), Complete);
    assert m2 == Meter(Level(16, 4, 20, false), [10, 10], 1, 0, 0);
    assert m3 == Meter(Level(16, 4, 11, false), [10, 1], 1, 0, 0);
    assert m4 == Meter(Level(16, 4, 1, true), [1], 1, 0, 1);
    assert Moved(m4, Complete) == Meter(Level(16, 4, 0, true), [], 1, 0, 1);
    hide AllMoved, Moved;
    NextMoves(m, Enqueue(10), Settle, [Enqueue(10), Settle, Complete, Enqueue(1), Settle, Complete, Complete]);
    NextMoves(m1, Enqueue(10), Settle, [Complete, Enqueue(1), Settle, Complete, Complete]);
    NextMoves(m2, Complete, Enqueue(1), [Settle, Complete, Complete]);
    NextMoves(m3, Settle, Complete, [Complete]);
    LastMove(m4, Complete);
  }

  lemma LastMove(m: Meter, move: Move)
    ensures AllMoved(m, [move]) == Moved(m, move)
  {
    assert [move][1..] == [];
  }
}
