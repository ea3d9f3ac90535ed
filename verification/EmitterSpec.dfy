/**
 The event emitter as lists of registration numbers: what `on`, `off`,
 `removeAllListeners` and re-entrant `emit` do, for every terminating run of callbacks.
 */
module EmitterSpec {
  import opened Common

  type Symbol = nat
  type Id = nat // handlers are numbered in the order of their registration

  // What a program does with an emitter: any finite list of actions. The replies of an emit
  // are what its first, second, ... invoked handler does in turn; later ones do nothing.
  datatype Script = Idle | Do(first: Action, rest: Script)

  datatype Replies = Silent | Reply(now: Script, later: Replies)

  datatype Action =
    | On(symbol: Symbol)
    | Off(symbol: Symbol, id: Id)
    | RemoveAll(symbol: Symbol)
    | RemoveEverything
    | Emit(symbol: Symbol, replies: Replies)

  datatype State = State(
    lists: map<Symbol, seq<Id>>, // the registered handlers; no list is empty
    created: nat,                // the number of handlers ever registered
    freed: set<Id>,
    dropped: set<Id>,            // removed while being invoked
    running: seq<Id>,            // the handlers being invoked, innermost last
    calls: seq<Id>)              // all invocations so far

  const EMPTY := State(map[], 0, {}, {}, [], [])

  // ---------- Registering and removing ----------

  function ListOf(s: State, symbol: Symbol): seq<Id> {
    if symbol in s.lists then s.lists[symbol] else []
  }

  function Ids(l: seq<Id>): set<Id> { set i | i in l }

  function Registered(s: State, symbol: Symbol): State {
    s.(lists := s.lists[symbol := ListOf(s, symbol) + [s.created]], created := s.created + 1)
  }

  function Without(l: seq<Id>, id: Id): seq<Id> {
    if |l| == 0 then [] else if l[0] == id then l[1..] else [l[0]] + Without(l[1..], id)
  }

  // A removed handler is freed, unless it is being invoked.
  function Discard(s: State, ids: set<Id>): State {
    s.(freed := s.freed + (ids - Ids(s.running)), dropped := s.dropped + (ids * Ids(s.running)))
  }

  function Removed(s: State, symbol: Symbol, id: Id): State {
    if id !in ListOf(s, symbol) then s
    else
      var l := Without(s.lists[symbol], id);
      Discard(s.(lists := if |l| == 0 then s.lists - {symbol} else s.lists[symbol := l]), {id})
  }

  function Cleared(s: State, symbol: Symbol): State {
    Discard(s.(lists := s.lists - {symbol}), Ids(ListOf(s, symbol)))
  }

  function Listed(s: State): set<Id> {
    set symbol, id | symbol in s.lists && id in s.lists[symbol] :: id
  }

  function ClearedAll(s: State): State {
    Discard(s.(lists := map[]), Listed(s))
  }

  // ---------- Emitting ----------

  function IndexOf(l: seq<Id>, id: Id): (i: nat)
    ensures i <= |l| && (i < |l| ==> l[i] == id) && (i == |l| <==> id !in l)
  {
    if |l| == 0 then 0 else if l[0] == id then 0 else 1 + IndexOf(l[1..], id)
  }

  function Begin(s: State, id: Id): State {
    s.(running := s.running + [id], calls := s.calls + [id])
  }

  function End(s: State): State {
    if |s.running| == 0 then s else s.(running := s.running[..|s.running| - 1])
  }

  function Step(s: State, a: Action): State
    decreases a, 0
  {
    match a
    case On(symbol) => Registered(s, symbol)
    case Off(symbol, id) => Removed(s, symbol, id)
    case RemoveAll(symbol) => Cleared(s, symbol)
    case RemoveEverything => ClearedAll(s)
    case Emit(symbol, replies) => if |ListOf(s, symbol)| > 0 then Walk(s, symbol, s.lists[symbol][0], replies).0 else s
  }

  function Exec(s: State, script: Script): State
    decreases script, 0
  {
    match script
    case Idle => s
    case Do(first, rest) => Exec(Step(s, first), rest)
  }

  // Invoke id, then whatever follows it in the list it stands in by then: nothing if it has
  // been removed meanwhile. The second component is what this emit invoked itself.
  function Walk(s: State, symbol: Symbol, id: Id, replies: Replies): (State, seq<Id>)
    decreases replies, 1
  {
    match replies
    case Silent =>
      var l := ListOf(s, symbol);
      (s.(calls := s.calls + l[IndexOf(l, id)..]), l[IndexOf(l, id)..])
    case Reply(now, later) =>
      var s' := Exec(Begin(s, id), now);
      var l := ListOf(s', symbol);
      var i := IndexOf(l, id);
      if i + 1 < |l| then
        var (t, ids) := Walk(End(s'), symbol, l[i + 1], later);
        (t, [id] + ids)
      else (End(s'), [id])
  }

  // How deep the emits of a script nest.
  function ScriptDepth(script: Script): nat {
    match script case Idle => 0 case Do(first, rest) => Max(ActionDepth(first), ScriptDepth(rest))
  }

  function ActionDepth(a: Action): nat {
    if a.Emit? then 1 + RepliesDepth(a.replies) else 0
  }

  function RepliesDepth(replies: Replies): nat {
    match replies case Silent => 0 case Reply(now, later) => Max(ScriptDepth(now), RepliesDepth(later))
  }

  // ---------- What every run keeps ----------

  ghost predicate Increasing(l: seq<Id>) {
    forall i, j :: 0 <= i < j < |l| ==> l[i] < l[j]
  }

  ghost predicate Has(s: State, symbol: Symbol, id: Id) {
    id in ListOf(s, symbol)
  }

  ghost predicate IsListed(s: State, id: Id) {
    exists symbol: Symbol :: Has(s, symbol, id)
  }

  // Lists are in registration order and disjoint, and every handler ever registered is in
  // exactly one of three places: listed, freed, or dropped. No handler being invoked is
  // freed.
  ghost predicate Inv(s: State) {
    && (forall symbol :: symbol in s.lists ==> |s.lists[symbol]| > 0 && Increasing(s.lists[symbol]))
    && (forall symbol: Symbol, id: Id :: Has(s, symbol, id) ==> id < s.created && id !in s.freed && id !in s.dropped)
    && (forall symbol: Symbol, other: Symbol, id: Id :: Has(s, symbol, id) && Has(s, other, id) ==> symbol == other)
    && (forall id: Id :: id in s.freed ==> id < s.created && id !in s.running && id !in s.dropped)
    && (forall id: Id :: id in s.dropped ==> id < s.created)
    && (forall id: Id :: id in s.running ==> id < s.created)
    && (forall id: Id :: id < s.created && id !in s.freed && id !in s.dropped ==> IsListed(s, id))
  }

  // How a state can have developed between two points at the same depth of emits: nothing
  // freed or dropped comes back, no old handler enters a list.
  ghost predicate Later(s: State, t: State) {
    && s.created <= t.created && s.freed <= t.freed && s.dropped <= t.dropped
    && t.running == s.running && s.calls <= t.calls
    && (forall symbol: Symbol, id: Id :: Has(t, symbol, id) && id < s.created ==> Has(s, symbol, id))
  }

  lemma LaterRefl(s: State)
    ensures Later(s, s)
  {}

  lemma LaterTrans(s: State, t: State, u: State)
    requires Later(s, t) && Later(t, u)
    ensures Later(s, u)
  {
    hide Has;
  }

  // A state with the same lists, no new handlers and the same freed and dropped ones.
  lemma SameLists(s: State, t: State)
    requires Inv(s) && t.lists == s.lists && t.created == s.created && t.freed == s.freed && t.dropped == s.dropped
    requires forall id: Id :: id in t.running ==> id < s.created && id !in s.freed
    ensures Inv(t)
    ensures t.running == s.running && s.calls <= t.calls ==> Later(s, t)
  {
    assert forall symbol: Symbol, id: Id :: Has(t, symbol, id) <==> Has(s, symbol, id);
    hide Has;
    forall id: Id | id < t.created && id !in t.freed && id !in t.dropped
      ensures IsListed(t, id)
    {
      assert IsListed(s, id);
      var symbol: Symbol :| Has(s, symbol, id);
      assert Has(t, symbol, id);
    }
  }

  lemma IncreasingSnoc(l: seq<Id>, id: Id)
    requires Increasing(l) && forall x :: x in l ==> x < id
    ensures Increasing(l + [id])
  {
    assert forall i :: 0 <= i < |l| ==> l[i] in l;
  }

  lemma RegisteredKeeps(s: State, symbol: Symbol)
    requires Inv(s)
    ensures Inv(Registered(s, symbol)) && Later(s, Registered(s, symbol))
  {
    var t := Registered(s, symbol);
    forall other: Symbol, id: Id
      ensures Has(t, other, id) <==> Has(s, other, id) || (other == symbol && id == s.created)
    {
    }
    assert forall id: Id :: id in ListOf(s, symbol) ==> Has(s, symbol, id);
    IncreasingSnoc(ListOf(s, symbol), s.created);
    hide Has, Increasing;
    forall id: Id | id < t.created && id !in t.freed && id !in t.dropped
      ensures IsListed(t, id)
    {
      if id < s.created {
        assert IsListed(s, id);
        var other: Symbol :| Has(s, other, id);
        assert Has(t, other, id);
      } else {
        assert Has(t, symbol, id);
      }
    }
  }

  // Removing a set of listed handlers, whatever that leaves of the lists.
  lemma DiscardKeeps(s: State, lists: map<Symbol, seq<Id>>, ids: set<Id>)
    requires Inv(s)
    requires forall symbol :: symbol in lists ==> |lists[symbol]| > 0 && Increasing(lists[symbol])
    requires forall symbol: Symbol, id: Id :: Has(s.(lists := lists), symbol, id) <==> Has(s, symbol, id) && id !in ids
    requires forall id: Id :: id in ids ==> IsListed(s, id)
    ensures var t := Discard(s.(lists := lists), ids); Inv(t) && Later(s, t)
  {
    var t := Discard(s.(lists := lists), ids);
    forall symbol: Symbol, id: Id
      ensures Has(t, symbol, id) <==> Has(s, symbol, id) && id !in ids
    {
      assert Has(t, symbol, id) == Has(s.(lists := lists), symbol, id);
    }
    hide Has, Increasing;
    forall id: Id | id in ids
      ensures id < s.created && id !in s.freed && id !in s.dropped
    {
      assert IsListed(s, id);
      var symbol: Symbol :| Has(s, symbol, id);
    }
    forall id: Id | id < t.created && id !in t.freed && id !in t.dropped
      ensures IsListed(t, id)
    {
      assert IsListed(s, id);
      var symbol: Symbol :| Has(s, symbol, id);
      assert Has(t, symbol, id);
    }
  }

  lemma IncreasingTail(l: seq<Id>)
    requires |l| > 0 && Increasing(l)
    ensures Increasing(l[1..]) && l[0] !in l[1..]
    ensures forall x :: x in l[1..] ==> l[0] < x
    ensures forall x :: x in l <==> x == l[0] || x in l[1..]
  {}

  lemma IncreasingCons(id: Id, l: seq<Id>)
    requires Increasing(l) && forall x :: x in l ==> id < x
    ensures Increasing([id] + l)
  {
    assert forall i :: 0 <= i < |l| ==> l[i] in l;
  }

  lemma {:induction false} WithoutIs(l: seq<Id>, id: Id)
    requires Increasing(l) && id in l
    ensures Increasing(Without(l, id))
    ensures forall x :: x in Without(l, id) <==> x in l && x != id
  {
    IncreasingTail(l);
    hide Increasing;
    if l[0] != id {
      WithoutIs(l[1..], id);
      IncreasingCons(l[0], Without(l[1..], id));
    }
  }

  lemma {:induction false} WithoutSlices(l: seq<Id>, id: Id)
    requires id in l
    ensures Without(l, id) == l[..IndexOf(l, id)] + l[IndexOf(l, id) + 1..]
  {
    if l[0] != id {
      WithoutSlices(l[1..], id);
      var k := IndexOf(l[1..], id);
      assert l[..k + 1] == [l[0]] + l[1..][..k];
      assert l[k + 2..] == l[1..][k + 1..];
    } else {
      assert l[..0] == [];
    }
  }

  lemma RemovedKeeps(s: State, symbol: Symbol, id: Id)
    requires Inv(s)
    ensures Inv(Removed(s, symbol, id)) && Later(s, Removed(s, symbol, id))
  {
    if id in ListOf(s, symbol) {
      var l := Without(s.lists[symbol], id);
      WithoutIs(s.lists[symbol], id);
      var lists := if |l| == 0 then s.lists - {symbol} else s.lists[symbol := l];
      assert Has(s, symbol, id);
      forall other: Symbol, x: Id
        ensures Has(s.(lists := lists), other, x) <==> Has(s, other, x) && x !in {id}
      {
        assert ListOf(s.(lists := lists), other) == if other == symbol then l else ListOf(s, other);
        if other != symbol && x == id {
          assert !Has(s, other, id);
        }
      }
      assert IsListed(s, id);
      DiscardKeeps(s, lists, {id});
    } else {
      LaterRefl(s);
    }
  }

  lemma ClearedKeeps(s: State, symbol: Symbol)
    requires Inv(s)
    ensures Inv(Cleared(s, symbol)) && Later(s, Cleared(s, symbol))
  {
    var lists := s.lists - {symbol};
    var ids := Ids(ListOf(s, symbol));
    assert forall id: Id :: id in ids <==> Has(s, symbol, id);
    forall other: Symbol, x: Id
      ensures Has(s.(lists := lists), other, x) <==> Has(s, other, x) && x !in ids
    {
      assert ListOf(s.(lists := lists), other) == if other == symbol then [] else ListOf(s, other);
    }
    assert forall id: Id :: Has(s, symbol, id) ==> IsListed(s, id);
    DiscardKeeps(s, lists, ids);
  }

  lemma ClearedAllKeeps(s: State)
    requires Inv(s)
    ensures Inv(ClearedAll(s)) && Later(s, ClearedAll(s))
  {
    forall id: Id | id in Listed(s)
      ensures IsListed(s, id)
    {
      var symbol: Symbol :| symbol in s.lists && id in s.lists[symbol];
      assert Has(s, symbol, id);
    }
    forall symbol: Symbol, id: Id
      ensures Has(s.(lists := map[]), symbol, id) <==> Has(s, symbol, id) && id !in Listed(s)
    {
    }
    DiscardKeeps(s, map[], Listed(s));
  }

  lemma BeginKeeps(s: State, symbol: Symbol, id: Id)
    requires Inv(s) && Has(s, symbol, id)
    ensures Inv(Begin(s, id))
  {
    SameLists(s, Begin(s, id));
  }

  lemma EndKeeps(s: State, id: Id, u: State)
    requires Inv(u) && Later(Begin(s, id), u)
    ensures Inv(End(u)) && Later(s, End(u))
  {
    var t := End(u);
    assert u.running[..|u.running| - 1] == s.running;
    assert forall x :: x in t.running ==> x in u.running;
    SameLists(u, t);
    assert s.calls <= Begin(s, id).calls;
    forall symbol: Symbol, x: Id | Has(t, symbol, x) && x < s.created
      ensures Has(s, symbol, x)
    {
      assert Has(u, symbol, x);
      assert Has(Begin(s, id), symbol, x);
    }
  }

  // Every action, every script and every emit keeps the invariant.
  lemma {:induction false} StepKeeps(s: State, a: Action)
    requires Inv(s)
    ensures Inv(Step(s, a)) && Later(s, Step(s, a))
    decreases a, 0
  {
    hide Inv, Later, Registered, Removed, Cleared, ClearedAll, Walk;
    match a
    case On(symbol) => RegisteredKeeps(s, symbol);
    case Off(symbol, id) => RemovedKeeps(s, symbol, id);
    case RemoveAll(symbol) => ClearedKeeps(s, symbol);
    case RemoveEverything => ClearedAllKeeps(s);
    case Emit(symbol, replies) =>
      if |ListOf(s, symbol)| > 0 {
        WalkKeeps(s, symbol, s.lists[symbol][0], replies);
      } else {
        LaterRefl(s);
      }
  }

  lemma {:induction false} ExecKeeps(s: State, script: Script)
    requires Inv(s)
    ensures Inv(Exec(s, script)) && Later(s, Exec(s, script))
    decreases script, 0
  {
    hide Inv, Later, Step;
    match script
    case Idle => LaterRefl(s);
    case Do(first, rest) =>
      StepKeeps(s, first);
      ExecKeeps(Step(s, first), rest);
      LaterTrans(s, Step(s, first), Exec(s, script));
  }

  lemma {:induction false} WalkKeeps(s: State, symbol: Symbol, id: Id, replies: Replies)
    requires Inv(s) && Has(s, symbol, id)
    ensures Inv(Walk(s, symbol, id, replies).0) && Later(s, Walk(s, symbol, id, replies).0)
    decreases replies, 1
  {
    hide Inv, Later, Exec, Begin, End;
    match replies
    case Silent =>
      var t := Walk(s, symbol, id, replies).0;
      RunningKnown(s);
      SameLists(s, t);
    case Reply(now, later) =>
      BeginKeeps(s, symbol, id);
      ExecKeeps(Begin(s, id), now);
      var u := Exec(Begin(s, id), now);
      EndKeeps(s, id, u);
      var l := ListOf(u, symbol);
      var i := IndexOf(l, id);
      if i + 1 < |l| {
        EndLists(u, symbol);
        WalkKeeps(End(u), symbol, l[i + 1], later);
        LaterTrans(s, End(u), Walk(End(u), symbol, l[i + 1], later).0);
      }
  }

  lemma RunningKnown(s: State)
    requires Inv(s)
    ensures forall id: Id :: id in s.running ==> id < s.created && id !in s.freed
  {}

  lemma EndLists(s: State, symbol: Symbol)
    ensures ListOf(End(s), symbol) == ListOf(s, symbol)
  {}

  // ---------- What an emit delivers ----------

  // The last handler an emit invoked itself, in the state the emit ends in.
  ghost predicate Complete(t: State, symbol: Symbol, ids: seq<Id>)
    requires |ids| > 0
  {
    Has(t, symbol, ids[|ids| - 1])
  }

  lemma OrderedList(s: State, symbol: Symbol)
    requires Inv(s)
    ensures Increasing(ListOf(s, symbol))
  {}

  lemma {:induction false} IndexOfAt(l: seq<Id>, i: nat)
    requires Increasing(l) && i < |l|
    ensures IndexOf(l, l[i]) == i
    decreases i
  {
    IncreasingTail(l);
    if i > 0 {
      IndexOfAt(l[1..], i - 1);
    }
  }

  // The next handler, or that the current one was removed, or that it is the last.
  lemma NextHandler(s: State, symbol: Symbol, id: Id, u: State)
    requires Inv(s) && Has(s, symbol, id) && Inv(u) && Later(Begin(s, id), u)
    ensures var l := ListOf(u, symbol);
            var i := IndexOf(l, id);
            && Increasing(l)
            && (i == |l| ==> id in u.dropped && !Has(u, symbol, id))
            && (i < |l| ==> l[i] == id)
  {
    var l := ListOf(u, symbol);
    assert id in u.running by {
      assert Begin(s, id).running[|s.running|] == id;
    }
    if id !in l {
      assert id < u.created && id !in u.freed;
      if id !in u.dropped {
        assert IsListed(u, id);
        var other: Symbol :| Has(u, other, id);
        assert Has(Begin(s, id), other, id);
        assert Has(s, other, id);
        assert false;
      }
    }
  }

  // An emit invokes handlers in the order of their registration, each once. Either the last
  // one it invoked was removed while being invoked, or every handler listed at the end and
  // not before the first one was invoked.
  lemma {:induction false} WalkDelivers(s: State, symbol: Symbol, id: Id, replies: Replies)
    requires Inv(s) && Has(s, symbol, id)
    ensures var (t, ids) := Walk(s, symbol, id, replies);
            && |ids| > 0 && ids[0] == id && Increasing(ids)
            && (Complete(t, symbol, ids) ==> forall x: Id :: Has(t, symbol, x) && x >= id ==> x in ids)
            && (!Complete(t, symbol, ids) ==> ids[|ids| - 1] in t.dropped)
    decreases replies
  {
    hide Inv, Later, Exec, Begin, End, Increasing;
    OrderedList(s, symbol);
    match replies
    case Silent => SilentDelivers(s, symbol, id);
    case Reply(now, later) =>
      BeginKeeps(s, symbol, id);
      ExecKeeps(Begin(s, id), now);
      var u := Exec(Begin(s, id), now);
      EndKeeps(s, id, u);
      NextHandler(s, symbol, id, u);
      EndLists(u, symbol);
      var l := ListOf(u, symbol);
      var i := IndexOf(l, id);
      EndDropped(u);
      if i + 1 < |l| {
        var next := l[i + 1];
        WalkDelivers(End(u), symbol, next, later);
        var (t, ids) := Walk(End(u), symbol, next, later);
        WalkKeeps(End(u), symbol, next, later);
        ConsDelivers(End(u), t, symbol, id, next, i, ids);
      } else {
        LastDelivers(u, symbol, id, i);
      }
  }

  lemma EndDropped(s: State)
    ensures End(s).dropped == s.dropped
  {}

  lemma SilentDelivers(s: State, symbol: Symbol, id: Id)
    requires Increasing(ListOf(s, symbol)) && Has(s, symbol, id)
    ensures var (t, ids) := Walk(s, symbol, id, Silent);
            && |ids| > 0 && ids[0] == id && Increasing(ids) && Complete(t, symbol, ids)
            && (forall x: Id :: Has(t, symbol, x) && x >= id ==> x in ids)
  {
    var l := ListOf(s, symbol);
    var k := IndexOf(l, id);
    var (t, ids) := Walk(s, symbol, id, Silent);
    assert ids == l[k..];
    assert ids[|ids| - 1] == l[|l| - 1];
    forall x: Id | Has(t, symbol, x) && x >= id
      ensures x in ids
    {
      var j :| 0 <= j < |l| && l[j] == x;
      assert j >= k;
      assert ids[j - k] == x;
    }
  }

  lemma LastDelivers(u: State, symbol: Symbol, id: Id, i: nat)
    requires var l := ListOf(u, symbol); Increasing(l) && i + 1 >= |l| && (i < |l| ==> l[i] == id)
    ensures Increasing([id])
    ensures i < |ListOf(u, symbol)| ==> forall x: Id :: Has(u, symbol, x) && x >= id ==> x == id
    ensures forall x: Id :: Has(End(u), symbol, x) <==> Has(u, symbol, x)
  {
    EndLists(u, symbol);
    var l := ListOf(u, symbol);
    if i < |l| {
      forall x: Id | Has(u, symbol, x) && x >= id
        ensures x == id
      {
        var j :| 0 <= j < |l| && l[j] == x;
      }
    }
  }

  lemma ConsDelivers(v: State, t: State, symbol: Symbol, id: Id, next: Id, i: nat, ids: seq<Id>)
    requires Inv(v) && Later(v, t)
    requires var l := ListOf(v, symbol); Increasing(l) && i + 1 < |l| && l[i] == id && l[i + 1] == next
    requires |ids| > 0 && ids[0] == next && Increasing(ids)
    requires Complete(t, symbol, ids) ==> forall x: Id :: Has(t, symbol, x) && x >= next ==> x in ids
    ensures Increasing([id] + ids) && ([id] + ids)[|ids|] == ids[|ids| - 1]
    ensures Complete(t, symbol, ids) ==> forall x: Id :: Has(t, symbol, x) && x >= id ==> x in [id] + ids
  {
    var l := ListOf(v, symbol);
    if Complete(t, symbol, ids) {
      forall x: Id | Has(t, symbol, x) && x >= id
        ensures x in [id] + ids
      {
        if x < next {
          assert Has(v, symbol, next) by { assert l[i + 1] in l; }
          assert Has(v, symbol, x);
          var j :| 0 <= j < |l| && l[j] == x;
        }
      }
    }
  }

  // What can become of a listed handler.
  lemma Fate(s: State, t: State, symbol: Symbol, id: Id)
    requires Inv(s) && Inv(t) && Later(s, t) && Has(s, symbol, id)
    ensures Has(t, symbol, id) || id in t.freed || id in t.dropped
  {
    if id !in t.freed && id !in t.dropped {
      assert IsListed(t, id);
      var other: Symbol :| Has(t, other, id);
      assert Has(s, other, id);
    }
  }

  // Where the handlers come from that an emit invokes, and what becomes of them.
  ghost predicate Known(s: State, t: State, symbol: Symbol, id: Id) {
    && (Has(s, symbol, id) || id >= s.created)
    && (Has(t, symbol, id) || id in t.freed || id in t.dropped)
  }

  ghost predicate AllKnown(s: State, t: State, symbol: Symbol, ids: seq<Id>) {
    forall x: Id :: x in ids ==> Known(s, t, symbol, x)
  }

  lemma NothingKnown(s: State, t: State, symbol: Symbol)
    ensures AllKnown(s, t, symbol, [])
  {}

  lemma KnownFrom(s: State, t: State, symbol: Symbol, id: Id)
    requires Has(s, symbol, id) && (Has(t, symbol, id) || id in t.freed || id in t.dropped)
    ensures Known(s, t, symbol, id)
  {}

  lemma {:induction false} WalkInvokes(s: State, symbol: Symbol, id: Id, replies: Replies)
    requires Inv(s) && Has(s, symbol, id)
    ensures var (t, ids) := Walk(s, symbol, id, replies);
            AllKnown(s, t, symbol, ids)
    decreases replies
  {
    hide Inv, Later, Exec, Begin, End, Has, Known, AllKnown;
    WalkKeeps(s, symbol, id, replies);
    Fate(s, Walk(s, symbol, id, replies).0, symbol, id);
    KnownFrom(s, Walk(s, symbol, id, replies).0, symbol, id);
    match replies
    case Silent => SilentInvokes(s, symbol, id);
    case Reply(now, later) =>
      BeginKeeps(s, symbol, id);
      ExecKeeps(Begin(s, id), now);
      var u := Exec(Begin(s, id), now);
      EndKeeps(s, id, u);
      EndLists(u, symbol);
      var l := ListOf(u, symbol);
      var i := IndexOf(l, id);
      NothingKnown(s, End(u), symbol);
      if i + 1 < |l| {
        HasAt(End(u), symbol, i + 1);
        WalkInvokes(End(u), symbol, l[i + 1], later);
        var (t, ids) := Walk(End(u), symbol, l[i + 1], later);
        KnownBefore(s, End(u), t, symbol, id, ids);
      } else {
        KnownBefore(s, s, End(u), symbol, id, []);
        assert [id] + [] == [id];
      }
  }

  lemma HasAt(s: State, symbol: Symbol, i: nat)
    requires i < |ListOf(s, symbol)|
    ensures Has(s, symbol, ListOf(s, symbol)[i])
  {}

  lemma KnownBefore(s: State, v: State, t: State, symbol: Symbol, id: Id, ids: seq<Id>)
    requires (s == v || Later(s, v)) && AllKnown(v, t, symbol, ids) && Known(s, t, symbol, id)
    ensures AllKnown(s, t, symbol, [id] + ids)
  {
    forall x: Id | x in [id] + ids
      ensures Known(s, t, symbol, x)
    {
      assert x == id || x in ids;
    }
  }

  lemma SilentInvokes(s: State, symbol: Symbol, id: Id)
    requires Has(s, symbol, id)
    ensures var (t, ids) := Walk(s, symbol, id, Silent);
            AllKnown(s, t, symbol, ids)
  {
    var t := Walk(s, symbol, id, Silent).0;
    assert ListOf(t, symbol) == ListOf(s, symbol);
  }

  // What an emit invokes itself is recorded among the invocations.
  lemma {:induction false} WalkRecords(s: State, symbol: Symbol, id: Id, replies: Replies)
    requires Inv(s) && Has(s, symbol, id)
    ensures var (t, ids) := Walk(s, symbol, id, replies);
            s.calls <= t.calls && forall x: Id :: x in ids ==> x in t.calls[|s.calls|..]
    decreases replies
  {
    hide Inv, Later, Exec, Begin, End, Has;
    match replies
    case Silent =>
    case Reply(now, later) =>
      BeginKeeps(s, symbol, id);
      ExecKeeps(Begin(s, id), now);
      var u := Exec(Begin(s, id), now);
      EndKeeps(s, id, u);
      EndLists(u, symbol);
      BeginRecords(s, id, u);
      var l := ListOf(u, symbol);
      var i := IndexOf(l, id);
      if i + 1 < |l| {
        HasAt(End(u), symbol, i + 1);
        WalkRecords(End(u), symbol, l[i + 1], later);
        Recorded(s.calls, End(u).calls, Walk(End(u), symbol, l[i + 1], later).0.calls);
      }
  }

  lemma BeginRecords(s: State, id: Id, u: State)
    requires Later(Begin(s, id), u)
    ensures End(u).calls == u.calls && s.calls <= u.calls && id in u.calls[|s.calls|..]
  {
    assert u.calls[|s.calls|] == Begin(s, id).calls[|s.calls|] == id;
    assert u.calls[|s.calls|..][0] == id;
  }

  lemma Recorded(before: seq<Id>, during: seq<Id>, after: seq<Id>)
    requires before <= during <= after
    ensures forall x: Id :: x in during[|before|..] || x in after[|during|..] ==> x in after[|before|..]
  {
    assert after[|before|..] == during[|before|..] + after[|during|..];
  }

  lemma {:induction false} SameIncreasing(a: seq<Id>, b: seq<Id>)
    requires Increasing(a) && Increasing(b)
    requires forall x :: x in a <==> x in b
    ensures a == b
    decreases |a|
  {
    assert |a| > 0 ==> a[0] in b;
    assert |b| > 0 ==> b[0] in a;
    if |a| > 0 {
      IncreasingTail(a);
      IncreasingTail(b);
      assert forall x :: x in a[1..] <==> x in b[1..];
      SameIncreasing(a[1..], b[1..]);
    }
  }

  // If no handler the emit invoked has been removed by its end, the emit invoked exactly the
  // handlers listed then, once each and in order, those registered meanwhile included. That
  // is the case in particular when nothing at all was removed during the emit.
  lemma EmitDelivers(s: State, symbol: Symbol, replies: Replies)
    requires Inv(s) && |ListOf(s, symbol)| > 0
    ensures var (t, ids) := Walk(s, symbol, s.lists[symbol][0], replies);
            && (ids == ListOf(t, symbol) <==> forall x: Id :: x in ids ==> Has(t, symbol, x))
            && (t.freed == s.freed && t.dropped == s.dropped ==> ids == ListOf(t, symbol))
  {
    hide Walk;
    var first := s.lists[symbol][0];
    var (t, ids) := Walk(s, symbol, first, replies);
    HasAt(s, symbol, 0);
    WalkKeeps(s, symbol, first, replies);
    WalkDelivers(s, symbol, first, replies);
    WalkInvokes(s, symbol, first, replies);
    OrderedList(t, symbol);
    assert forall x: Id :: Has(t, symbol, x) ==> x >= first by {
      OrderedList(s, symbol);
      forall x: Id | Has(t, symbol, x)
        ensures x >= first
      {
        if x < s.created {
          assert Has(s, symbol, x);
          var j :| 0 <= j < |s.lists[symbol]| && s.lists[symbol][j] == x;
        }
      }
    }
    if t.freed == s.freed && t.dropped == s.dropped {
      forall x: Id | x in ids
        ensures Has(t, symbol, x)
      {
        assert Known(s, t, symbol, x);
      }
    }
    if forall x: Id :: x in ids ==> Has(t, symbol, x) {
      assert ids[|ids| - 1] in ids;
      forall x: Id
        ensures x in ids <==> x in ListOf(t, symbol)
      {
        assert Has(t, symbol, x) <==> x in ListOf(t, symbol);
      }
      SameIncreasing(ids, ListOf(t, symbol));
    }
  }

  // ---------- Handlers that leak ----------

  lemma EmptyInv()
    ensures Inv(EMPTY)
  {}

  // Dropped handlers are never freed: not in any continuation of any run.
  lemma DroppedStay(s: State, script: Script, id: Id)
    requires Inv(s) && id in s.dropped
    ensures id in Exec(s, script).dropped && id !in Exec(s, script).freed
  {
    ExecKeeps(s, script);
  }

  // A handler that removes itself is not freed even after the emit has ended.
  lemma SelfRemovalLeaks()
    ensures var t := Exec(EMPTY, Do(On(0), Do(Emit(0, Reply(Do(Off(0, 0), Idle), Silent)), Idle)));
            t.running == [] && t.lists == map[] && t.freed == {} && t.dropped == {0}
  {
    var s1 := Step(EMPTY, On(0));
    assert ListOf(EMPTY, 0) + [0] == [0];
    assert s1 == State(map[0 := [0]], 1, {}, {}, [], []);
    var s2 := Begin(s1, 0);
    var s3 := Step(s2, Off(0, 0));
    assert Without([0], 0) == [];
    assert s3.lists == map[];
    assert Ids([0]) == {0};
    assert s3 == State(map[], 1, {}, {0}, [0], [0]);
    assert Exec(s2, Do(Off(0, 0), Idle)) == s3;
    assert Walk(s1, 0, 0, Reply(Do(Off(0, 0), Idle), Silent)) == (End(s3), [0]);
  }
}
