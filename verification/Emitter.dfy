/**
 `node::events::emitter` on the heap: singly linked handler lists, emit cursors that count
 references, and handlers that register, remove and emit while they are being invoked.
 */
module Emitter {
  import opened Common
  import opened EmitterSpec

  const DELETE_FLAG: nat := 0x8000_0000_0000_0000

  // `event_handler_base`. Every access requires that the handler has not been deleted.
  class Handler {
    ghost const symbol: Symbol
    ghost var freed: bool
    var next: Handler?
    var refCount: nat

    constructor (ghost symbol: Symbol)
      ensures this.symbol == symbol && !freed && next == null && refCount == 0
    {
      this.symbol, freed, next, refCount := symbol, false, null, 0;
    }

    method Next() returns (r: Handler?)
      requires !freed
      ensures r == next
    {
      r := next;
    }

    method SetNext(h: Handler?)
      requires !freed
      modifies `next
      ensures next == h
    {
      next := h;
    }

    method RefCount() returns (r: nat)
      requires !freed
      ensures r == refCount
    {
      r := refCount;
    }

    method SetRefCount(n: nat)
      requires !freed
      modifies `refCount
      ensures refCount == n
    {
      refCount := n;
    }

    // `delete`: at most once, and never under a cursor.
    method Delete()
      requires !freed && refCount == 0
      modifies `freed
      ensures freed
    {
      freed := true;
    }
  }

  // `event_handler_root`
  datatype Root = Root(head: Handler?, tail: Handler?)

  // ---------- Successors in a list of registration numbers ----------

  function Succ(l: seq<Id>, id: Id): Option<Id> {
    var i := IndexOf(l, id);
    if i + 1 < |l| then Some(l[i + 1]) else None
  }

  lemma {:induction false} IndexOfPrefix(l: seq<Id>, m: seq<Id>, id: Id)
    requires id in l
    ensures IndexOf(l + m, id) == IndexOf(l, id)
  {
    if l[0] != id {
      assert (l + m)[1..] == l[1..] + m;
      IndexOfPrefix(l[1..], m, id);
    }
  }

  lemma SuccSnoc(l: seq<Id>, x: Id, id: Id)
    requires Increasing(l) && id in l
    ensures Succ(l + [x], id) == if id == l[|l| - 1] then Some(x) else Succ(l, id)
  {
    IndexOfPrefix(l, [x], id);
    IndexOfAt(l, |l| - 1);
  }

  lemma SuccAt(l: seq<Id>, i: nat)
    requires Increasing(l) && i < |l|
    ensures Succ(l, l[i]) == if i + 1 < |l| then Some(l[i + 1]) else None
  {
    IndexOfAt(l, i);
  }

  lemma SuccWithout(l: seq<Id>, k: Id, id: Id)
    requires Increasing(l) && k in l && id in l && id != k
    ensures Succ(Without(l, k), id) == if Succ(l, id) == Some(k) then Succ(l, k) else Succ(l, id)
  {
    hide Succ, IndexOf, Without, Increasing;
    var m := Without(l, k);
    var p, i := IndexOf(l, k), IndexOf(l, id);
    WithoutIs(l, k);
    WithoutSlices(l, k);
    SuccAt(l, p);
    SuccAt(l, i);
    assert |m| == |l| - 1;
    assert forall j :: 0 <= j < |m| ==> m[j] == l[if j < p then j else j + 1];
    SuccAt(m, if i < p then i else i - 1);
    if i + 1 < |l| {
      DistinctAt(l, i + 1, p);
    }
  }

  lemma DistinctAt(l: seq<Id>, i: nat, j: nat)
    requires Increasing(l) && i < |l| && j < |l|
    ensures l[i] == l[j] <==> i == j
  {}

  lemma SuccIn(l: seq<Id>, id: Id)
    ensures Succ(l, id).Some? ==> id in l && Succ(l, id).value in l
    ensures id !in l ==> Succ(l, id) == None
  {}

  lemma RegisteredIs(s: State, symbol: Symbol)
    ensures var t := Registered(s, symbol);
            && t.created == s.created + 1 && t.freed == s.freed && t.running == s.running
            && t.lists.Keys == s.lists.Keys + {symbol}
  {}

  lemma HasIs(s: State)
    ensures forall symbol: Symbol, id: Id :: Has(s, symbol, id) <==> id in ListOf(s, symbol)
  {}

  lemma RegisteredLists(s: State, symbol: Symbol, other: Symbol)
    ensures var t := Registered(s, symbol);
            ListOf(t, other) == if other == symbol then ListOf(s, symbol) + [s.created] else ListOf(s, other)
  {}

  lemma PredecessorIs(l: seq<Id>, i: nat, x: Id)
    requires Increasing(l) && i < |l|
    ensures x in l && Succ(l, x) == Some(l[i]) <==> i > 0 && x == l[i - 1]
  {
    hide Succ, IndexOf;
    if x in l {
      var j :| 0 <= j < |l| && l[j] == x;
      SuccAt(l, j);
      if j + 1 < |l| {
        DistinctAt(l, j + 1, i);
      }
      if i > 0 {
        DistinctAt(l, j, i - 1);
      }
    }
  }

  // ---------- The parts of the structure that do not depend on the heap ----------

  function Ptr(handles: seq<Handler>, o: Option<Id>): Handler? {
    if o.Some? && o.value < |handles| then handles[o.value] else null
  }

  ghost predicate AllBelow(l: seq<Id>, n: nat) {
    forall i :: 0 <= i < |l| ==> l[i] < n
  }

  ghost function Nodes(handles: seq<Handler>, l: seq<Id>): (r: seq<Handler>)
    requires AllBelow(l, |handles|)
    ensures |r| == |l| && forall i :: 0 <= i < |l| ==> r[i] == handles[l[i]]
  {
    seq(|l|, i requires 0 <= i < |l| => handles[l[i]])
  }

  function After(nodes: seq<Handler>, i: nat): Handler? {
    if i + 1 < |nodes| then nodes[i + 1] else null
  }

  // Live handlers linked one to the next.
  ghost predicate Chained(nodes: seq<Handler>)
    reads nodes
  {
    forall i :: 0 <= i < |nodes| ==> !nodes[i].freed && nodes[i].next == After(nodes, i)
  }

  ghost predicate Rooted(events: map<Symbol, Root>, handles: seq<Handler>, s: State, symbol: Symbol) {
    var l := ListOf(s, symbol);
    if |l| > 0 then symbol in events && events[symbol] == Root(Ptr(handles, Some(l[0])), Ptr(handles, Some(l[|l| - 1])))
    else symbol !in events
  }

  // The pointers are distinct, every listed handler is listed under its own symbol, and
  // there is a root for exactly the symbols with handlers.
  ghost predicate Matches(events: map<Symbol, Root>, handles: seq<Handler>, s: State) {
    && |handles| == s.created
    && (forall i, j :: 0 <= i < j < |handles| ==> handles[i] != handles[j])
    && (forall symbol: Symbol, id: Id :: Has(s, symbol, id) ==> id < |handles| && handles[id].symbol == symbol)
    && (forall symbol: Symbol :: Rooted(events, handles, s, symbol))
  }

  // The link a handler must have.
  ghost function LinkOf(handles: seq<Handler>, s: State, id: Id): Handler?
    requires id < |handles|
  {
    Ptr(handles, Succ(ListOf(s, handles[id].symbol), id))
  }

  lemma MatchesList(events: map<Symbol, Root>, handles: seq<Handler>, s: State, symbol: Symbol)
    requires Inv(s) && Matches(events, handles, s)
    ensures Rooted(events, handles, s, symbol)
    ensures Increasing(ListOf(s, symbol)) && AllBelow(ListOf(s, symbol), |handles|)
    ensures forall id :: id in ListOf(s, symbol) ==>
      id < |handles| && id < s.created && handles[id].symbol == symbol && id !in s.freed && id !in s.dropped
  {
    forall id | id in ListOf(s, symbol)
      ensures id < |handles| && id < s.created && handles[id].symbol == symbol && id !in s.freed && id !in s.dropped
    {
      assert Has(s, symbol, id);
    }
    assert forall i :: 0 <= i < |ListOf(s, symbol)| ==> ListOf(s, symbol)[i] in ListOf(s, symbol);
  }

  lemma MatchesOn(events: map<Symbol, Root>, handles: seq<Handler>, s: State, symbol: Symbol, h: Handler, root: Root)
    requires Inv(s) && Matches(events, handles, s) && h !in handles && h.symbol == symbol
    requires root == Root(if symbol in events then events[symbol].head else h, h)
    ensures Matches(events[symbol := root], handles + [h], Registered(s, symbol))
  {
    hide Inv, Increasing, Has, Registered;
    var t := Registered(s, symbol);
    RegisteredIs(s, symbol);
    forall other: Symbol
      ensures Rooted(events[symbol := root], handles + [h], t, other)
      ensures forall id :: id in ListOf(t, other) ==> id < |handles + [h]| && (handles + [h])[id].symbol == other
    {
      MatchesList(events, handles, s, other);
      RegisteredLists(s, symbol, other);
      var l := ListOf(s, other);
      assert |l| > 0 ==> l[0] in l && l[|l| - 1] in l;
    }
    HasIs(t);
  }

  // The links after a registration: only the old tail's changes.
  lemma LinksOn(events: map<Symbol, Root>, handles: seq<Handler>, s: State, symbol: Symbol, h: Handler, id: Id)
    requires Inv(s) && Matches(events, handles, s) && h.symbol == symbol && id <= |handles|
    ensures var l, t := ListOf(s, symbol), Registered(s, symbol);
            LinkOf(handles + [h], t, id)
              == if id == |handles| then null
                 else if |l| > 0 && id == l[|l| - 1] then h
                 else LinkOf(handles, s, id)
  {
    hide Inv, Increasing, Has, Registered, Succ, IndexOf;
    var l, t, hs := ListOf(s, symbol), Registered(s, symbol), handles + [h];
    var other := hs[id].symbol;
    RegisteredLists(s, symbol, other);
    MatchesList(events, handles, s, symbol);
    MatchesList(events, handles, s, other);
    SuccIn(ListOf(s, other), id);
    SuccIn(ListOf(t, other), id);
    if id == |handles| {
      IncreasingSnoc(l, s.created);
      SuccAt(l + [s.created], |l|);
    } else if id in l {
      SuccSnoc(l, s.created, id);
    }
  }

  lemma RemovedIs(s: State, symbol: Symbol, id: Id, other: Symbol)
    requires id in ListOf(s, symbol)
    ensures var t := Removed(s, symbol, id);
            && ListOf(t, other) == (if other == symbol then Without(ListOf(s, symbol), id) else ListOf(s, other))
            && t.created == s.created && t.running == s.running
            && t.freed == (if id in s.running then s.freed else s.freed + {id})
  {}

  lemma WithoutEnds(l: seq<Id>, id: Id)
    requires Increasing(l) && id in l
    ensures var m, i := Without(l, id), IndexOf(l, id);
            && |m| == |l| - 1
            && (|m| > 0 ==> m[0] == (if i == 0 then l[1] else l[0]))
            && (|m| > 0 ==> m[|m| - 1] == (if i == |l| - 1 then l[i - 1] else l[|l| - 1]))
  {
    hide Without, IndexOf, Increasing;
    WithoutSlices(l, id);
  }

  lemma OtherRoots(events: map<Symbol, Root>, events': map<Symbol, Root>, symbol: Symbol, other: Symbol)
    requires events' - {symbol} == events - {symbol} && other != symbol
    ensures other in events' <==> other in events
    ensures other in events ==> events'[other] == events[other]
  {
    assert other in events' <==> other in events' - {symbol};
    assert other in events <==> other in events - {symbol};
    assert other in events ==> events'[other] == (events' - {symbol})[other] == events[other];
  }

  lemma MatchesOff(events: map<Symbol, Root>, handles: seq<Handler>, s: State, symbol: Symbol, id: Id,
                   events': map<Symbol, Root>)
    requires Inv(s) && Matches(events, handles, s) && id in ListOf(s, symbol)
    requires events' - {symbol} == events - {symbol}
    requires var m := Without(ListOf(s, symbol), id);
             if |m| == 0 then symbol !in events'
             else symbol in events' && events'[symbol] == Root(Ptr(handles, Some(m[0])), Ptr(handles, Some(m[|m| - 1])))
    ensures Matches(events', handles, Removed(s, symbol, id))
  {
    hide Inv, Increasing, Has, Removed, Without;
    var t := Removed(s, symbol, id);
    MatchesList(events, handles, s, symbol);
    WithoutIs(ListOf(s, symbol), id);
    forall other: Symbol
      ensures Rooted(events', handles, t, other)
      ensures forall x :: x in ListOf(t, other) ==> x < |handles| && handles[x].symbol == other
    {
      MatchesList(events, handles, s, other);
      RemovedIs(s, symbol, id, other);
      if other != symbol {
        OtherRoots(events, events', symbol, other);
      }
    }
    RemovedIs(s, symbol, id, symbol);
    HasIs(t);
  }

  // The links after a removal: the removed handler's is cleared, its predecessor's skips it.
  lemma LinksOff(events: map<Symbol, Root>, handles: seq<Handler>, s: State, symbol: Symbol, id: Id, x: Id)
    requires Inv(s) && Matches(events, handles, s) && id in ListOf(s, symbol) && x < |handles| && id < |handles|
    ensures var l, t := ListOf(s, symbol), Removed(s, symbol, id);
            LinkOf(handles, t, x)
              == if x == id then null
                 else if x in l && Succ(l, x) == Some(id) then LinkOf(handles, s, id)
                 else LinkOf(handles, s, x)
  {
    hide Inv, Increasing, Has, Removed, Succ, IndexOf, Without;
    var l, t := ListOf(s, symbol), Removed(s, symbol, id);
    var other := handles[x].symbol;
    RemovedIs(s, symbol, id, other);
    MatchesList(events, handles, s, symbol);
    MatchesList(events, handles, s, other);
    WithoutIs(l, id);
    SuccIn(l, x);
    SuccIn(ListOf(t, other), x);
    if x in l && x != id {
      SuccWithout(l, id, x);
    }
  }

  // The same for all links, with the predecessor by its position.
  lemma LinksErased(events: map<Symbol, Root>, handles: seq<Handler>, s: State, symbol: Symbol, i: nat)
    requires Inv(s) && Matches(events, handles, s) && i < |ListOf(s, symbol)| && ListOf(s, symbol)[i] < |handles|
    ensures var l := ListOf(s, symbol);
            forall x: Id :: x < |handles| ==>
              LinkOf(handles, Removed(s, symbol, l[i]), x)
                == if x == l[i] then null
                   else if i > 0 && x == l[i - 1] then LinkOf(handles, s, l[i])
                   else LinkOf(handles, s, x)
  {
    hide Inv, Increasing, Has, Matches, LinkOf, Removed, Succ;
    var l := ListOf(s, symbol);
    MatchesList(events, handles, s, symbol);
    forall x: Id | x < |handles|
      ensures LinkOf(handles, Removed(s, symbol, l[i]), x)
           == if x == l[i] then null
              else if i > 0 && x == l[i - 1] then LinkOf(handles, s, l[i])
              else LinkOf(handles, s, x)
    {
      LinksOff(events, handles, s, symbol, l[i], x);
      PredecessorIs(l, i, x);
    }
  }

  lemma ClearedIs(s: State, symbol: Symbol, other: Symbol)
    ensures var t := Cleared(s, symbol);
            && ListOf(t, other) == (if other == symbol then [] else ListOf(s, other))
            && t.created == s.created && t.running == s.running
            && t.freed == s.freed + (Ids(ListOf(s, symbol)) - Ids(s.running))
  {}

  lemma MatchesCleared(events: map<Symbol, Root>, handles: seq<Handler>, s: State, symbol: Symbol)
    requires Inv(s) && Matches(events, handles, s)
    ensures Matches(events - {symbol}, handles, Cleared(s, symbol))
  {
    hide Inv, Increasing, Has, Cleared;
    var t := Cleared(s, symbol);
    forall other: Symbol
      ensures Rooted(events - {symbol}, handles, t, other)
      ensures forall x :: x in ListOf(t, other) ==> x < |handles| && handles[x].symbol == other
    {
      MatchesList(events, handles, s, other);
      ClearedIs(s, symbol, other);
    }
    ClearedIs(s, symbol, symbol);
    HasIs(t);
  }

  lemma LinksCleared(handles: seq<Handler>, s: State, symbol: Symbol, x: Id)
    requires x < |handles|
    ensures LinkOf(handles, Cleared(s, symbol), x)
         == if handles[x].symbol == symbol then null else LinkOf(handles, s, x)
  {
    hide Cleared;
    ClearedIs(s, symbol, handles[x].symbol);
  }

  // Clearing symbol after symbol.
  ghost function SomeListed(s: State, symbols: set<Symbol>): set<Id> {
    set symbol, id | symbol in symbols && symbol in s.lists && id in s.lists[symbol] :: id
  }

  ghost function ClearedSome(s: State, symbols: set<Symbol>): State {
    Discard(s.(lists := s.lists - symbols), SomeListed(s, symbols))
  }

  lemma ClearedNone(s: State)
    ensures ClearedSome(s, {}) == s
  {
    assert s.lists - {} == s.lists;
    assert SomeListed(s, {}) == {};
  }

  lemma ClearedMore(s: State, symbols: set<Symbol>, symbol: Symbol)
    requires symbol in s.lists && symbol !in symbols
    ensures Cleared(ClearedSome(s, symbols), symbol) == ClearedSome(s, symbols + {symbol})
  {
    var t := ClearedSome(s, symbols);
    assert t.lists - {symbol} == s.lists - (symbols + {symbol});
    assert ListOf(t, symbol) == s.lists[symbol];
    assert SomeListed(s, symbols + {symbol}) == SomeListed(s, symbols) + Ids(s.lists[symbol]) by {
      forall id: Id
        ensures id in SomeListed(s, symbols + {symbol}) <==> id in SomeListed(s, symbols) + Ids(s.lists[symbol])
      {
        if id in SomeListed(s, symbols + {symbol}) {
          var other: Symbol :| other in symbols + {symbol} && other in s.lists && id in s.lists[other];
        }
      }
    }
  }

  lemma ClearedEvery(s: State)
    ensures ClearedSome(s, s.lists.Keys) == ClearedAll(s)
  {
    assert s.lists - s.lists.Keys == map[];
    assert SomeListed(s, s.lists.Keys) == Listed(s);
  }

  lemma UnlistedLink(handles: seq<Handler>, s: State, symbol: Symbol, x: Id)
    requires x < |handles|
    ensures handles[x].symbol == symbol && x !in ListOf(s, symbol) ==> LinkOf(handles, s, x) == null
  {
    SuccIn(ListOf(s, symbol), x);
  }

  lemma RemovedNothing(s: State, symbol: Symbol, id: Id)
    ensures id !in ListOf(s, symbol) ==> Removed(s, symbol, id) == s
  {}

  lemma DistinctNodes(handles: seq<Handler>, l: seq<Id>, nodes: seq<Handler>)
    requires Increasing(l) && |nodes| == |l|
    requires forall i, j :: 0 <= i < j < |handles| ==> handles[i] != handles[j]
    requires forall i :: 0 <= i < |l| ==> l[i] < |handles| && nodes[i] == handles[l[i]]
    ensures forall i, j :: 0 <= i < j < |nodes| ==> nodes[i] != nodes[j]
  {}

  lemma NotANode(handles: seq<Handler>, l: seq<Id>, nodes: seq<Handler>, x: Id)
    requires |nodes| == |l| && x < |handles| && x !in l
    requires forall i, j :: 0 <= i < j < |handles| ==> handles[i] != handles[j]
    requires forall i :: 0 <= i < |l| ==> l[i] < |handles| && nodes[i] == handles[l[i]]
    ensures handles[x] !in nodes
  {
    assert forall i :: 0 <= i < |l| ==> l[i] != x;
  }

  lemma SameMatches(events: map<Symbol, Root>, handles: seq<Handler>, s: State, t: State)
    requires Matches(events, handles, s) && t.lists == s.lists && t.created == s.created
    ensures Matches(events, handles, t)
    ensures forall id: Id :: id < |handles| ==> LinkOf(handles, t, id) == LinkOf(handles, s, id)
  {
    hide Succ;
    assert forall symbol: Symbol :: ListOf(t, symbol) == ListOf(s, symbol);
    assert forall symbol: Symbol, id: Id :: Has(t, symbol, id) == Has(s, symbol, id);
    assert forall symbol: Symbol :: Rooted(events, handles, t, symbol) == Rooted(events, handles, s, symbol);
  }

  // One turn of the emit loop: the handler is called, and the cursor moves on.
  function Called(s: State, id: Id, replies: Replies): State {
    if replies.Reply? then Exec(Begin(s, id), replies.now) else Begin(s, id)
  }

  function Rest(replies: Replies): Replies {
    if replies.Reply? then replies.later else Silent
  }

  function Then(u: State, symbol: Symbol, id: Id, next: Option<Id>, replies: Replies): (State, seq<Id>) {
    match next
    case None => (End(u), [id])
    case Some(x) =>
      var (t, ids) := Walk(End(u), symbol, x, replies);
      (t, [id] + ids)
  }

  lemma WalkTurn(s: State, symbol: Symbol, id: Id, replies: Replies)
    requires Increasing(ListOf(s, symbol)) && id in ListOf(s, symbol)
    ensures var u := Called(s, id, replies);
            Walk(s, symbol, id, replies) == Then(u, symbol, id, Succ(ListOf(u, symbol), id), Rest(replies))
  {
    hide Exec, Begin, End;
    match replies
    case Silent => SilentTurn(s, symbol, id);
    case Reply(now, later) =>
  }

  lemma SilentWalk(s: State, symbol: Symbol, id: Id, ids: seq<Id>)
    requires ids == ListOf(s, symbol)[IndexOf(ListOf(s, symbol), id)..]
    ensures Walk(s, symbol, id, Silent) == (s.(calls := s.calls + ids), ids)
  {}

  lemma BeginEnd(s: State, id: Id)
    ensures End(Begin(s, id)) == s.(calls := s.calls + [id])
    ensures Begin(s, id).lists == s.lists
  {
    assert (s.running + [id])[..|s.running|] == s.running;
  }

  lemma SilentTurn(s: State, symbol: Symbol, id: Id)
    requires Increasing(ListOf(s, symbol)) && id in ListOf(s, symbol)
    ensures var u := Begin(s, id);
            Walk(s, symbol, id, Silent) == Then(u, symbol, id, Succ(ListOf(u, symbol), id), Silent)
  {
    hide IndexOf, Increasing, Walk, Begin, End;
    var l := ListOf(s, symbol);
    var i := IndexOf(l, id);
    BeginEnd(s, id);
    SilentWalk(s, symbol, id, l[i..]);
    assert l[i] == id;
    OneMore(s.calls, l, i);
    if i + 1 < |l| {
      IndexOfAt(l, i + 1);
      SilentWalk(End(Begin(s, id)), symbol, l[i + 1], l[i + 1..]);
    }
  }

  lemma OneMore(calls: seq<Id>, l: seq<Id>, i: nat)
    requires i < |l|
    ensures l[i..] == [l[i]] + l[i + 1..] && calls + l[i..] == (calls + [l[i]]) + l[i + 1..]
    ensures i + 1 == |l| ==> l[i..] == [l[i]]
  {
    assert l[i..] == [l[i]] + l[i + 1..];
  }

  // `event_handler_root::erase`, on the pointers.
  method Unlink(root0: Root, it: Handler, prev: Handler?) returns (root: Root)
    requires !it.freed && it != prev && (prev != null ==> !prev.freed)
    modifies it, prev
    ensures it.refCount == old(it.refCount) && (it.freed <==> it.refCount == 0)
    ensures !it.freed ==> it.next == null
    ensures prev != null ==> prev.next == old(it.next) && prev.refCount == old(prev.refCount) && !prev.freed
    ensures root.head == if prev == null then old(it.next) else root0.head
    ensures root.tail == if old(it.next) == null then prev else root0.tail
  {
    root := root0;
    var next := it.Next();
    if prev != null {
      prev.SetNext(next);
      if next == null {
        root := root.(tail := prev);
      }
    } else {
      root := root.(head := next);
      if next == null {
        root := root.(tail := null);
      }
    }
    var refs := it.RefCount();
    if refs == 0 {
      it.Delete();
    } else {
      it.SetNext(null);
    }
  }

  // `~event_handler_root`, on the pointers.
  method DestroyRoot(root: Root, ghost nodes: seq<Handler>)
    requires |nodes| > 0 && root.head == nodes[0]
    requires forall i, j :: 0 <= i < j < |nodes| ==> nodes[i] != nodes[j]
    requires Chained(nodes)
    modifies nodes
    ensures forall i :: 0 <= i < |nodes| ==>
      && nodes[i].refCount == old(nodes[i].refCount)
      && (nodes[i].freed <==> nodes[i].refCount == 0)
      && (!nodes[i].freed ==> nodes[i].next == null)
  {
    var ptr := root.head;
    ghost var k := 0;
    while ptr != null
      invariant 0 <= k <= |nodes| && ptr == if k < |nodes| then nodes[k] else null
      invariant forall i :: 0 <= i < |nodes| ==> nodes[i].refCount == old(nodes[i].refCount)
      invariant forall i :: k <= i < |nodes| ==> !nodes[i].freed && nodes[i].next == old(nodes[i].next)
      invariant forall i :: 0 <= i < k ==>
        (nodes[i].freed <==> nodes[i].refCount == 0) && (!nodes[i].freed ==> nodes[i].next == null)
      decreases |nodes| - k
    {
      var tmp := ptr;
      assert forall i :: 0 <= i < |nodes| && nodes[i] == tmp ==> i == k;
      ptr := ptr.Next();
      assert ptr == After(nodes, k);
      var refs := tmp.RefCount();
      if refs == 0 {
        tmp.Delete();
      } else {
        // prevents emit from advancing
        tmp.SetNext(null);
      }
      k := k + 1;
    }
  }

  class Emitter {
    var events: map<Symbol, Root>
    var handles: seq<Handler> // the pointers `on` has returned, which the program keeps
    ghost var state: State

    // A handler that has not been deleted is linked to its successor, and its reference
    // count is the number of cursors standing on it.
    ghost predicate Intact(id: Id)
      requires id < |handles|
      reads this, handles[id]
    {
      && (handles[id].freed <==> id in state.freed)
      && (!handles[id].freed ==>
            handles[id].next == LinkOf(handles, state, id) && handles[id].refCount == multiset(state.running)[id])
    }

    ghost predicate Valid()
      reads this, handles
    {
      && Inv(state) && Matches(events, handles, state)
      && (forall id: Id :: id < |handles| ==> Intact(id))
    }

    constructor ()
      ensures Valid() && state == EMPTY && handles == []
    {
      events, handles, state := map[], [], EMPTY;
      new;
      EmptyInv();
    }

    // `on`: find or create the root, then `push_back`.
    method On(symbol: Symbol) returns (h: Handler)
      requires Valid()
      modifies this, handles
      ensures Valid() && state == Registered(old(state), symbol)
      ensures fresh(h) && handles == old(handles) + [h]
    {
      hide Inv, Has, Registered, Matches, LinkOf, Increasing;
      ghost var s, hs, ev, l := state, handles, events, ListOf(state, symbol);
      MatchesList(ev, hs, s, symbol);
      MatchesSize(ev, hs, s);
      assert |l| > 0 ==> l[0] in l && l[|l| - 1] in l;
      var root := if symbol in events then events[symbol] else Root(null, null);
      h := new Handler(symbol);
      forall id: Id | id <= |hs|
        ensures LinkOf(hs + [h], Registered(s, symbol), id)
             == if id == |hs| then null else if |l| > 0 && id == l[|l| - 1] then h else LinkOf(hs, s, id)
      {
        LinksOn(ev, hs, s, symbol, h, id);
      }
      if root.tail != null {
        assert l[|l| - 1] in l;
        assert Intact(l[|l| - 1]);
        root.tail.SetNext(h);
        root := root.(tail := h);
      } else {
        root := Root(h, h);
      }
      events := events[symbol := root];
      handles := handles + [h];
      RegisteredKeeps(s, symbol);
      RegisteredIs(s, symbol);
      NotRunning(s);
      MatchesOn(ev, hs, s, symbol, h, root);
      state := Registered(s, symbol);
      forall id: Id | id < |handles|
        ensures Intact(id)
      {
        assert id < |hs| ==> old(Intact(id));
        assert multiset(state.running) == multiset(s.running);
      }
    }

    // `erase` on the handler at position i of its list.
    method Erase(symbol: Symbol, it: Handler, prev: Handler?, ghost i: nat)
      requires Valid() && symbol in events
      requires i < |ListOf(state, symbol)| && it == Ptr(handles, Some(ListOf(state, symbol)[i]))
      requires prev == if i == 0 then null else Ptr(handles, Some(ListOf(state, symbol)[i - 1]))
      modifies this, handles
      ensures Valid() && handles == old(handles)
      ensures state == Removed(old(state), symbol, old(ListOf(state, symbol)[i]))
    {
      hide Inv, Has, Removed, Matches, LinkOf, Increasing, Succ, IndexOf, Without;
      ghost var s, hs, ev, l := state, handles, events, ListOf(state, symbol);
      ghost var id := l[i];
      MatchesList(ev, hs, s, symbol);
      MatchesSize(ev, hs, s);
      WithoutEnds(l, id);
      SuccAt(l, i);
      IndexOfAt(l, i);
      assert id in l && Intact(id);
      LinkIs(hs, s, symbol, id);
      LinksErased(ev, hs, s, symbol, i);

      assert i > 0 ==> l[i - 1] in l && Intact(l[i - 1]);
      var root := Unlink(events[symbol], it, prev);
      // In `off`: a root without handlers is erased.
      if root.head == null {
        events := events - {symbol};
      } else {
        events := events[symbol := root];
      }

      RemovedKeeps(s, symbol, id);
      RemovedIs(s, symbol, id, symbol);
      MatchesOff(ev, hs, s, symbol, id, events);
      state := Removed(s, symbol, id);
      forall x: Id | x < |handles|
        ensures Intact(x)
      {
        assert old(Intact(x));
        assert x != id ==> hs[x] != it;
        assert i > 0 && x != l[i - 1] ==> hs[x] != prev;
        assert x in s.running <==> multiset(s.running)[x] > 0;
      }
    }

    // `off` with a pointer that `on` returned, possibly long ago.
    method Off(symbol: Symbol, h: Handler, ghost id: Id)
      requires Valid() && id < |handles| && handles[id] == h
      modifies this, handles
      ensures Valid() && handles == old(handles)
      ensures state == Removed(old(state), symbol, id)
    {
      hide Inv, Has, Removed, Matches, LinkOf, Increasing, Succ, IndexOf, Without;
      ghost var l := ListOf(state, symbol);
      MatchesList(events, handles, state, symbol);
      MatchesSize(events, handles, state);
      if symbol in events {
        var curr, prev: Handler? := events[symbol].head, null;
        ghost var i := 0;
        while curr != null
          invariant Valid() && state == old(state) && handles == old(handles) && symbol in events
          invariant 0 <= i <= |l| && curr == if i < |l| then Ptr(handles, Some(l[i])) else null
          invariant prev == if i == 0 then null else Ptr(handles, Some(l[i - 1]))
          invariant forall j :: 0 <= j < i ==> l[j] != id
          decreases |l| - i
        {
          assert l[i] in l && Intact(l[i]);
          if curr == h {
            Erase(symbol, curr, prev, i);
            return;
          }
          SuccAt(l, i);
          LinkIs(handles, state, symbol, l[i]);
          assert i + 1 < |l| ==> l[i + 1] in l;
          prev := curr;
          curr := curr.Next();
          i := i + 1;
        }
      }
      RemovedNothing(state, symbol, id);
    }

    // The handlers of a list, as the links chain them.
    lemma Chain(symbol: Symbol)
      requires Valid() && symbol in events
      ensures var l := ListOf(state, symbol);
              && |l| > 0 && AllBelow(l, |handles|)
              && events[symbol].head == Nodes(handles, l)[0] && Chained(Nodes(handles, l))
    {
      hide Inv, Has, Matches, LinkOf, Increasing, Succ, IndexOf;
      var l := ListOf(state, symbol);
      MatchesList(events, handles, state, symbol);
      var n := Nodes(handles, l);
      forall i | 0 <= i < |l|
        ensures !n[i].freed && n[i].next == After(n, i)
      {
        assert l[i] in l && Intact(l[i]);
        SuccAt(l, i);
        LinkIs(handles, state, symbol, l[i]);
        assert i + 1 < |l| ==> l[i + 1] in l;
      }
      assert l[0] in l;
    }

    // Destroying the root of a symbol, per handler.
    method DestroyList(symbol: Symbol)
      requires Valid() && symbol in events
      modifies handles
      ensures forall x: Id :: x < |handles| ==>
        handles[x].refCount == old(handles[x].refCount)
      ensures forall x: Id :: x < |handles| && x !in ListOf(state, symbol) ==>
        handles[x].next == old(handles[x].next) && handles[x].freed == old(handles[x].freed)
      ensures forall x: Id :: x < |handles| && x in ListOf(state, symbol) ==>
        (handles[x].freed <==> handles[x].refCount == 0) && (!handles[x].freed ==> handles[x].next == null)
    {
      hide Inv, Has, Matches, LinkOf, Increasing, Succ, IndexOf;
      ghost var l := ListOf(state, symbol);
      MatchesList(events, handles, state, symbol);
      MatchesSize(events, handles, state);
      Chain(symbol);
      ghost var nodes := Nodes(handles, l);
      DistinctNodes(handles, l, nodes);
      assert forall n :: n in nodes ==> n in handles;
      forall x: Id | x < |handles| && x !in l
        ensures handles[x] !in nodes
      {
        NotANode(handles, l, nodes, x);
      }
      DestroyRoot(events[symbol], nodes);
      forall x: Id | x < |handles| && x in l
        ensures handles[x].refCount == old(handles[x].refCount)
        ensures (handles[x].freed <==> handles[x].refCount == 0) && (!handles[x].freed ==> handles[x].next == null)
      {
        assert nodes[IndexOf(l, x)] == handles[x];
      }
    }

    // `removeAllListeners(symbol)`
    method RemoveAllListeners(symbol: Symbol)
      requires Valid()
      modifies this, handles
      ensures Valid() && handles == old(handles)
      ensures state == Cleared(old(state), symbol)
      ensures events == old(events) - {symbol}
    {
      hide Inv, Has, Cleared, Matches, LinkOf, Increasing, Succ, IndexOf;
      ghost var s, hs, ev, l := state, handles, events, ListOf(state, symbol);
      MatchesList(ev, hs, s, symbol);
      if symbol in events {
        DestroyList(symbol);
      }
      events := events - {symbol};
      ClearedKeeps(s, symbol);
      ClearedIs(s, symbol, symbol);
      MatchesCleared(ev, hs, s, symbol);
      MatchesSize(ev, hs, s);
      state := Cleared(s, symbol);
      forall x: Id | x < |handles|
        ensures Intact(x)
      {
        assert old(Intact(x));
        LinksCleared(hs, s, symbol, x);
        UnlistedLink(hs, s, symbol, x);
        assert x in s.running <==> multiset(s.running)[x] > 0;
      }
    }

    // `removeAllListeners()`, symbol after symbol.
    method RemoveAllListenersOfAll()
      requires Valid()
      modifies this, handles
      ensures Valid() && handles == old(handles)
      ensures state == ClearedAll(old(state))
    {
      hide *;
      ghost var s := state;
      ghost var cleared: set<Symbol> := {};
      ClearedNone(s);
      EventsAre();
      while events != map[]
        invariant Valid() && handles == old(handles)
        invariant state == ClearedSome(s, cleared) && cleared <= s.lists.Keys
        invariant events.Keys == s.lists.Keys - cleared
        decreases s.lists.Keys - cleared
      {
        assert events.Keys != {};
        var symbol :| symbol in events;
        ClearedMore(s, cleared, symbol);
        RemoveAllListeners(symbol);
        cleared := cleared + {symbol};
      }
      assert events.Keys == {};
      assert cleared == s.lists.Keys;
      ClearedEvery(s);
    }

    lemma EventsAre()
      requires Valid()
      ensures events.Keys == state.lists.Keys
    {
      forall symbol: Symbol
        ensures symbol in events <==> symbol in state.lists
      {
        assert Rooted(events, handles, state, symbol);
      }
    }

    // A cursor comes to stand on a listed handler.
    method Enter(cur: Handler, ghost symbol: Symbol, ghost id: Id)
      requires Valid() && id < |handles| && handles[id] == cur && Has(state, symbol, id)
      modifies this, cur
      ensures Valid() && state == Begin(old(state), id)
      ensures handles == old(handles) && events == old(events)
    {
      hide Inv, Has, Matches, LinkOf;
      ghost var s := state;
      MatchesSize(events, handles, s);
      BeginKeeps(s, symbol, id);
      SameMatches(events, handles, s, Begin(s, id));
      assert Intact(id);
      HasNotFreed(s, symbol, id);
      var refs := cur.RefCount();
      cur.SetRefCount(refs + 1);
      state := Begin(s, id);
      assert multiset(state.running) == multiset(s.running) + multiset{id};
      forall x: Id | x < |handles|
        ensures Intact(x)
      {
        assert old(Intact(x));
      }
    }

    // The cursor moves on to the link the handler has by then.
    method Leave(cur: Handler, ghost id: Id) returns (next: Handler?)
      requires Valid() && id < |handles| && handles[id] == cur
      requires |state.running| > 0 && state.running[|state.running| - 1] == id && |state.running| <= DELETE_FLAG
      requires Inv(End(state))
      modifies this, cur
      ensures Valid() && state == End(old(state))
      ensures handles == old(handles) && events == old(events)
      ensures next == LinkOf(handles, old(state), id)
    {
      hide Inv, Has, Matches, LinkOf;
      ghost var s := state;
      MatchesSize(events, handles, s);
      SameMatches(events, handles, s, End(s));
      assert Intact(id);
      RunningNotFreed(s, id);
      ghost var r := s.running[..|s.running| - 1];
      assert s.running == r + [id];
      assert multiset(s.running) == multiset(r) + multiset{id};
      CountAtMost(r, id);
      next := cur.Next();
      var refs := cur.RefCount();
      cur.SetRefCount(refs - 1);
      if refs - 1 == DELETE_FLAG {
        // `delete &handler`: nothing ever sets the flag, so this is never reached.
        assert false;
      }
      state := End(s);
      forall x: Id | x < |handles|
        ensures Intact(x)
      {
        assert old(Intact(x));
      }
    }

    // Only new handlers have been added.
    twostate predicate Grown()
      reads this
    {
      old(handles) <= handles && forall i :: |old(handles)| <= i < |handles| ==> fresh(handles[i])
    }

    // One turn of the emit loop: guard the handler, call it, advance, release it.
    method Turn(cur: Handler, ghost symbol: Symbol, ghost id: Id, replies: Replies)
      returns (next: Handler?, ghost nextId: Option<Id>)
      requires Valid() && id < |handles| && handles[id] == cur && Has(state, symbol, id)
      requires |state.running| + 1 + RepliesDepth(replies) <= DELETE_FLAG
      modifies this, handles
      ensures Valid() && Grown()
      ensures state == End(Called(old(state), id, replies)) && state.running == old(state.running)
      ensures nextId == Succ(ListOf(state, symbol), id)
      ensures nextId.Some? ==> nextId.value < |handles| && Has(state, symbol, nextId.value)
      ensures next == Ptr(handles, nextId)
      decreases replies, 0
    {
      hide Inv, Has, Matches, LinkOf, Increasing, Succ, IndexOf, Exec, End, Later;
      ghost var s := state;
      ListedSymbol(events, handles, s, symbol, id);
      Enter(cur, symbol, id);
      if replies.Reply? {
        Run(replies.now);
      }
      ghost var u := state;
      CalledKeeps(s, symbol, id, replies);
      next := Leave(cur, id);
      EndLists(u, symbol);
      MatchesList(events, handles, state, symbol);
      LinkIs(handles, u, symbol, id);
      nextId := Succ(ListOf(state, symbol), id);
      SuccIn(ListOf(state, symbol), id);
      HasIs(state);
    }

    // `emit`
    method Emit(symbol: Symbol, replies: Replies) returns (ghost ids: seq<Id>)
      requires Valid() && |state.running| + 1 + RepliesDepth(replies) <= DELETE_FLAG
      modifies this, handles
      ensures Valid() && Grown()
      ensures var l := old(ListOf(state, symbol));
              if |l| == 0 then state == old(state) && ids == []
              else (state, ids) == Walk(old(state), symbol, l[0], replies)
      decreases replies, 1
    {
      hide Inv, Has, Matches, Rooted, LinkOf, Increasing, Succ, IndexOf, Ptr;
      hide Exec, Begin, End, Walk, Remaining, Left, Called, Rest;
      ids := [];
      ghost var s, l := state, ListOf(state, symbol);
      MatchesList(events, handles, s, symbol);
      RootedIs(events, handles, s, symbol);
      HasIs(s);
      if symbol in events {
        var cur, rest := events[symbol].head, replies;
        ghost var first: Id := l[0];
        ghost var id: Option<Id> := Some(first);
        AllRemains(s, symbol, first, replies);
        while cur != null
          invariant Valid() && Grown() && state.running == s.running
          invariant (rest == replies || rest < replies) && RepliesDepth(rest) <= RepliesDepth(replies)
          invariant cur == Ptr(handles, id)
          invariant id.Some? ==> id.value < |handles| && Has(state, symbol, id.value)
          invariant Walk(s, symbol, first, replies) == Remaining(state, symbol, id, rest, ids)
          decreases rest, Left(ListOf(state, symbol), id)
        {
          PtrIs(handles, id);
          ghost var v, x := state, id.value;
          MatchesList(events, handles, v, symbol);
          HasIs(v);
          WalkTurn(v, symbol, x, rest);
          cur, id := Turn(cur, symbol, x, rest);
          RemainingTurn(v, symbol, x, rest, ids);
          SilentLeft(v, symbol, x, rest);
          RestIs(rest);
          ids := ids + [x];
          rest := Rest(rest);
        }
        PtrIs(handles, id);
        NothingRemains(state, symbol, rest, ids);
      }
    }

    // A program: what happens between two returns to the event loop, or within a callback.
    method Run(script: Script)
      requires Valid() && |state.running| + ScriptDepth(script) <= DELETE_FLAG
      modifies this, handles
      ensures Valid() && Grown()
      ensures state == Exec(old(state), script)
      decreases script, 0
    {
      hide Inv, Has, Matches, LinkOf, Step, Walk;
      match script
      case Idle =>
      case Do(first, rest) =>
        Act(first);
        Run(rest);
    }

    // One action of a program.
    method Act(a: Action)
      requires Valid() && |state.running| + ActionDepth(a) <= DELETE_FLAG
      modifies this, handles
      ensures Valid() && Grown()
      ensures state == Step(old(state), a) && state.running == old(state.running)
      decreases a, 0
    {
      StepKeeps(state, a);
      hide Inv, Has, Matches, LinkOf, Registered, Removed, Cleared, ClearedAll, Walk;
      match a
      case On(symbol) =>
        var h := On(symbol);
      case Off(symbol, id) =>
        MatchesSize(events, handles, state);
        if id < |handles| {
          Off(symbol, handles[id], id);
        } else {
          NotYetCreated(state, symbol, id);
        }
      case RemoveAll(symbol) => RemoveAllListeners(symbol);
      case RemoveEverything => RemoveAllListenersOfAll();
      case Emit(symbol, replies) =>
        ghost var ids := Emit(symbol, replies);
    }
  }

  // What is left of an emit whose cursor stands on the handler id, having invoked ids.
  function Remaining(s: State, symbol: Symbol, id: Option<Id>, replies: Replies, ids: seq<Id>): (State, seq<Id>) {
    match id
    case None => (s, ids)
    case Some(x) => (Walk(s, symbol, x, replies).0, ids + Walk(s, symbol, x, replies).1)
  }

  lemma AllRemains(s: State, symbol: Symbol, id: Id, replies: Replies)
    ensures Remaining(s, symbol, Some(id), replies, []) == Walk(s, symbol, id, replies)
  {
    assert [] + Walk(s, symbol, id, replies).1 == Walk(s, symbol, id, replies).1;
  }

  lemma NothingRemains(s: State, symbol: Symbol, replies: Replies, ids: seq<Id>)
    ensures Remaining(s, symbol, None, replies, ids) == (s, ids)
  {}

  lemma RemainingTurn(s: State, symbol: Symbol, id: Id, replies: Replies, ids: seq<Id>)
    requires Increasing(ListOf(s, symbol)) && id in ListOf(s, symbol)
    ensures var t := End(Called(s, id, replies));
            Remaining(s, symbol, Some(id), replies, ids)
              == Remaining(t, symbol, Succ(ListOf(t, symbol), id), Rest(replies), ids + [id])
  {
    hide Walk, Called, End, Increasing, IndexOf, Succ, Rest;
    var u := Called(s, id, replies);
    WalkTurn(s, symbol, id, replies);
    EndLists(u, symbol);
    var next := Succ(ListOf(u, symbol), id);
    if next.Some? {
      var later := Walk(End(u), symbol, next.value, Rest(replies)).1;
      assert ids + ([id] + later) == (ids + [id]) + later;
    }
  }

  function Left(l: seq<Id>, id: Option<Id>): nat {
    if id.Some? then |l| - IndexOf(l, id.value) else 0
  }

  lemma SilentLeft(s: State, symbol: Symbol, id: Id, replies: Replies)
    requires Increasing(ListOf(s, symbol)) && id in ListOf(s, symbol)
    ensures var t := End(Called(s, id, replies));
            replies.Silent? ==> Left(ListOf(t, symbol), Succ(ListOf(t, symbol), id)) < Left(ListOf(s, symbol), Some(id))
  {
    if replies.Silent? {
      hide IndexOf, Increasing;
      BeginEnd(s, id);
      var l := ListOf(s, symbol);
      var i := IndexOf(l, id);
      if i + 1 < |l| {
        IndexOfAt(l, i + 1);
      }
    }
  }

  lemma RestIs(replies: Replies)
    ensures RepliesDepth(Rest(replies)) <= RepliesDepth(replies)
    ensures replies.Silent? ==> Rest(replies) == replies
    ensures replies.Reply? ==> Rest(replies) < replies
  {}

  lemma PtrIs(handles: seq<Handler>, id: Option<Id>)
    requires id.Some? ==> id.value < |handles|
    ensures Ptr(handles, id) == if id.Some? then handles[id.value] else null
  {}

  lemma RootedIs(events: map<Symbol, Root>, handles: seq<Handler>, s: State, symbol: Symbol)
    requires Inv(s) && Matches(events, handles, s)
    ensures var l := ListOf(s, symbol);
            && (symbol in events <==> |l| > 0)
            && (|l| > 0 ==> l[0] in l && l[0] < |handles| && events[symbol].head == Ptr(handles, Some(l[0])))
  {
    MatchesList(events, handles, s, symbol);
  }

  lemma ListedSymbol(events: map<Symbol, Root>, handles: seq<Handler>, s: State, symbol: Symbol, id: Id)
    requires Inv(s) && Matches(events, handles, s) && Has(s, symbol, id)
    ensures id < |handles| && handles[id].symbol == symbol
  {}

  // A turn leaves the invariant and the depth as they were.
  lemma CalledKeeps(s: State, symbol: Symbol, id: Id, replies: Replies)
    requires Inv(s) && Has(s, symbol, id)
    ensures var u := Called(s, id, replies);
            Inv(u) && Inv(End(u)) && u.running == s.running + [id] && End(u).running == s.running
  {
    hide Inv, Has, Exec;
    BeginKeeps(s, symbol, id);
    LaterRefl(Begin(s, id));
    if replies.Reply? {
      ExecKeeps(Begin(s, id), replies.now);
    }
    EndKeeps(s, id, Called(s, id, replies));
  }

  lemma NotYetCreated(s: State, symbol: Symbol, id: Id)
    requires Inv(s) && id >= s.created
    ensures Removed(s, symbol, id) == s
  {
    assert !Has(s, symbol, id);
  }

  lemma HasNotFreed(s: State, symbol: Symbol, id: Id)
    requires Inv(s) && Has(s, symbol, id)
    ensures id !in s.freed
  {}

  lemma RunningNotFreed(s: State, id: Id)
    requires Inv(s) && id in s.running
    ensures id !in s.freed
  {}

  lemma {:induction false} CountAtMost(r: seq<Id>, id: Id)
    ensures multiset(r)[id] <= |r|
  {
    if |r| > 0 {
      var q := r[..|r| - 1];
      assert r == q + [r[|r| - 1]];
      CountAtMost(q, id);
    }
  }

  lemma LinkIs(handles: seq<Handler>, s: State, symbol: Symbol, id: Id)
    requires id < |handles| && handles[id].symbol == symbol
    ensures LinkOf(handles, s, id) == Ptr(handles, Succ(ListOf(s, symbol), id))
  {}

  lemma MatchesSize(events: map<Symbol, Root>, handles: seq<Handler>, s: State)
    requires Inv(s) && Matches(events, handles, s)
    ensures |handles| == s.created && s.created !in s.freed
    ensures forall i, j :: 0 <= i < j < |handles| ==> handles[i] != handles[j]
  {}

  lemma NotRunning(s: State)
    requires Inv(s)
    ensures s.created !in multiset(s.running)
  {
    assert s.created !in s.running;
  }
}
