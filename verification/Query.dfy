/**
 `node::http::url::_parse_params`: the single-pass query-string scanner with its two
 sentinel positions, against splitting at '&' and at the first '='.
 */
module Query {
  import opened Common

  type Pair = (string, string)

  // Unsigned subtraction of positions.
  function Minus(x: int, y: int): nat { (x - y) % TWO_TO_THE_64 }

  // The first position in [from, to) that holds c, or `to`.
  function Find(q: string, c: char, from: nat, to: nat): (i: nat)
    requires from <= to <= |q|
    ensures from <= i <= to
    ensures forall j :: from <= j < i ==> q[j] != c
    ensures i < to ==> q[i] == c
    decreases |q| - from
  {
    if from == to || q[from] == c then from else Find(q, c, from + 1, to)
  }

  // ---------- The intended reading ----------

  // A segment's pair: something before the first '=' and something after it.
  function PairOf(q: string, a: nat, e: nat): seq<Pair>
    requires a <= e <= |q|
  {
    var k := Find(q, '=', a, e);
    if a < k && k + 1 < e then [(q[a..k], q[k + 1..e])] else []
  }

  // All pairs of the segments from position a on.
  function Pairs(q: string, a: nat): seq<Pair>
    requires a <= |q|
    decreases |q| - a
  {
    var e := Find(q, '&', a, |q|);
    PairOf(q, a, e) + if e < |q| then Pairs(q, e + 1) else []
  }

  // A later value never replaces an earlier one (`emplace`).
  function FirstWins(pairs: seq<Pair>): map<string, string> {
    if |pairs| == 0 then map[]
    else Emplace(FirstWins(pairs[..|pairs| - 1]), pairs[|pairs| - 1].0, pairs[|pairs| - 1].1)
  }

  // ---------- What the scanner inserts ----------

  // The '=' the scanner acts on: position zero is taken for "none yet".
  function EqPos(q: string, a: nat, e: nat): (i: nat)
    requires a <= e <= |q|
    ensures a <= i <= e && (i < e ==> q[i] == '=' && i > 0)
  {
    if a == 0 && e > 0 then Find(q, '=', 1, e) else Find(q, '=', a, e)
  }

  function KeyStart(q: string, a: nat): nat
    requires a <= |q|
  {
    if a == 0 && |q| > 0 && q[0] == '=' then 1 else a
  }

  // The field held at the end of a segment that started with field f.
  function FieldAt(q: string, a: nat, e: nat, f: string): string
    requires a <= e <= |q|
  {
    var k := EqPos(q, a, e);
    if k < e && KeyStart(q, a) < k then q[KeyStart(q, a)..k] else f
  }

  // The insertion attempted at the end of a segment.
  function Attempt(q: string, a: nat, e: nat, f: string): seq<Pair>
    requires a <= e <= |q|
  {
    var k := EqPos(q, a, e);
    var pos := if k < e then k else 0;
    var field := FieldAt(q, a, e, f);
    if e > pos + 1 && field != "" then [(field, q[pos + 1..e])] else []
  }

  // The field is kept from segment to segment: the key of an insertion is a copy of it.
  function Attempts(q: string, a: nat, f: string): seq<Pair>
    requires a <= |q|
    decreases |q| - a
  {
    var e := Find(q, '&', a, |q|);
    Attempt(q, a, e, f) + if e < |q| then Attempts(q, e + 1, FieldAt(q, a, e, f)) else []
  }

  lemma {:induction false} FindIs(q: string, c: char, from: nat, to: nat, i: nat)
    requires from <= i <= to <= |q|
    requires forall j :: from <= j < i ==> q[j] != c
    requires i < to ==> q[i] == c
    ensures Find(q, c, from, to) == i
    decreases i - from
  {
    if from < i {
      FindIs(q, c, from + 1, to, i);
    }
  }

  // The scanner's variables in the middle of the segment that starts at a.
  ghost predicate Scanning(q: string, a: nat, i: nat, f: string, ampPos: int, eqPos: int, field: string)
    requires a <= i <= |q|
  {
    var k := EqPos(q, a, i);
    && eqPos == (if k < i then k else 0)
    && field == FieldAt(q, a, i, f)
    && (eqPos == 0 ==> ampPos == if a > 0 then a - 1 else if i > 0 && q[0] == '=' then 0 else TWO_TO_THE_64 - 1)
  }

  lemma SegmentEnds(q: string, a: nat, i: nat, f: string)
    requires a <= i <= |q| && (i < |q| ==> q[i] == '&')
    requires forall j :: a <= j < i ==> q[j] != '&'
    ensures Attempts(q, a, f)
         == Attempt(q, a, i, f) + if i < |q| then Attempts(q, i + 1, FieldAt(q, a, i, f)) else []
  {
    FindIs(q, '&', a, |q|, i);
  }

  // One more character inside a segment.
  lemma EqPosStep(q: string, a: nat, i: nat)
    requires a <= i < |q|
    ensures EqPos(q, a, i) < i ==> EqPos(q, a, i + 1) == EqPos(q, a, i)
    ensures EqPos(q, a, i) == i ==> EqPos(q, a, i + 1) == if q[i] == '=' && i > 0 then i else i + 1
  {
    var start := if a == 0 then 1 else a;
    var k := EqPos(q, a, i);
    if k < i {
      FindIs(q, '=', start, i + 1, k);
    } else if i > 0 {
      FindIs(q, '=', start, i + 1, if q[i] == '=' then i else i + 1);
    }
  }

  lemma ScanStart(q: string, a: nat, f: string)
    requires a <= |q|
    ensures Scanning(q, a, a, f, if a > 0 then a - 1 else TWO_TO_THE_64 - 1, 0, f)
  {}

  // A character that is no '=' to act on changes nothing.
  lemma ScanOther(q: string, a: nat, i: nat, f: string, ampPos: int, eqPos: int, field: string)
    requires a <= i < |q| && Scanning(q, a, i, f, ampPos, eqPos, field)
    requires q[i] != '=' || eqPos != 0
    ensures Scanning(q, a, i + 1, f, ampPos, eqPos, field)
  {
    EqPosStep(q, a, i);
  }

  // The first '=': the key, if not empty, becomes the field.
  lemma ScanEq(q: string, a: nat, i: nat, f: string, ampPos: int, field: string)
    requires a <= i < |q| < TWO_TO_THE_64 - 1 && Scanning(q, a, i, f, ampPos, 0, field)
    requires q[i] == '='
    ensures Minus(i, ampPos) > 1 ==> 0 <= Minus(ampPos, -1) <= i
    ensures Scanning(q, a, i + 1, f, 0, i, if Minus(i, ampPos) > 1 then q[Minus(ampPos, -1)..i] else field)
  {
    EqPosStep(q, a, i);
    if ampPos == TWO_TO_THE_64 - 1 {
      assert Minus(i, ampPos) == i + 1 && Minus(ampPos, -1) == 0;
    } else {
      assert Minus(i, ampPos) == i - ampPos && Minus(ampPos, -1) == ampPos + 1;
    }
  }

  // At the end of the segment the scanner's test is the attempt.
  lemma ScanEnd(q: string, a: nat, i: nat, f: string, ampPos: int, eqPos: int, field: string)
    requires a <= i <= |q| < TWO_TO_THE_64 - 1 && Scanning(q, a, i, f, ampPos, eqPos, field)
    ensures 0 <= eqPos <= i && (Minus(i, eqPos) > 1 ==> eqPos < i)
    ensures FieldAt(q, a, i, f) == field
    ensures Attempt(q, a, i, f) == if Minus(i, eqPos) > 1 && field != "" then [(field, q[eqPos + 1..i])] else []
  {
    assert Minus(i, eqPos) == i - eqPos;
  }

  // The attempts made so far, followed by those from the current segment on, are all attempts.
  ghost predicate Progress(q: string, done: seq<Pair>, a: nat, f: string)
    requires a <= |q|
  {
    Attempts(q, 0, "") == done + Attempts(q, a, f)
  }

  lemma ProgressStart(q: string)
    ensures Progress(q, [], 0, "")
  {
    assert [] + Attempts(q, 0, "") == Attempts(q, 0, "");
  }

  // What the scanner does at a '&', or at the end, is the segment's attempt.
  lemma EndOfSegment(q: string, done: seq<Pair>, a: nat, i: nat, f: string, ampPos: int, eqPos: int, field: string)
    requires a <= i <= |q| < TWO_TO_THE_64 - 1 && (i < |q| ==> q[i] == '&')
    requires forall j :: a <= j < i ==> q[j] != '&'
    requires Scanning(q, a, i, f, ampPos, eqPos, field) && Progress(q, done, a, f)
    ensures 0 <= eqPos <= i
    ensures Minus(i, eqPos) > 1 && field != "" ==>
      eqPos < i && AfterSegment(q, done + [(field, q[eqPos + 1..i])], i, field)
    ensures !(Minus(i, eqPos) > 1 && field != "") ==> AfterSegment(q, done, i, field)
  {
    hide Attempts, Attempt, FieldAt, Scanning, Minus;
    ScanEnd(q, a, i, f, ampPos, eqPos, field);
    SegmentEnds(q, a, i, f);
    AfterAttempt(q, done, a, i, f);
    assert done + [] == done;
  }

  ghost predicate AfterSegment(q: string, done: seq<Pair>, i: nat, field: string)
    requires i <= |q|
  {
    if i < |q| then Progress(q, done, i + 1, field) && Scanning(q, i + 1, i + 1, field, i, 0, field)
    else Attempts(q, 0, "") == done
  }

  lemma NextSegment(q: string, done: seq<Pair>, i: nat, field: string)
    requires i < |q| && AfterSegment(q, done, i, field)
    ensures Progress(q, done, i + 1, field) && Scanning(q, i + 1, i + 1, field, i, 0, field)
  {}

  lemma LastSegment(q: string, done: seq<Pair>, field: string)
    requires AfterSegment(q, done, |q|, field)
    ensures Attempts(q, 0, "") == done
  {}

  lemma AfterAttempt(q: string, done: seq<Pair>, a: nat, i: nat, f: string)
    requires a <= i <= |q| && Progress(q, done, a, f)
    requires Attempts(q, a, f)
          == Attempt(q, a, i, f) + if i < |q| then Attempts(q, i + 1, FieldAt(q, a, i, f)) else []
    ensures AfterSegment(q, done + Attempt(q, a, i, f), i, FieldAt(q, a, i, f))
  {
    hide Attempts, Attempt, FieldAt, Scanning;
    var now, field := Attempt(q, a, i, f), FieldAt(q, a, i, f);
    if i < |q| {
      ScanStart(q, i + 1, field);
      assert done + (now + Attempts(q, i + 1, field)) == (done + now) + Attempts(q, i + 1, field);
    } else {
      assert now + [] == now;
    }
  }

  // ---------- The same on segments ----------

  function Join(segs: seq<string>): string
    requires |segs| > 0
  {
    if |segs| == 1 then segs[0] else segs[0] + "&" + Join(segs[1..])
  }

  predicate AreSegments(segs: seq<string>) {
    |segs| > 0 && forall i :: 0 <= i < |segs| ==> '&' !in segs[i]
  }

  // What is attempted for a list of segments behind some text. A segment with a key takes its
  // own, whatever was held before; with '=', what follows it is the value; without, all of the
  // query up to here is, but for its first character. A '=' in front of the whole query counts
  // for nothing.
  function Reads(before: string, segs: seq<string>, held: string): seq<Pair>
    requires |segs| > 0
    decreases |segs|
  {
    var seg := segs[0];
    var (key, value) := Parts(before, seg);
    var field := if key != "" then key else held;
    (if field != "" && value != "" then [(field, value)] else [])
    + if |segs| > 1 then Reads(before + seg + "&", segs[1..], field) else []
  }

  // Where a segment's own '=' is to be looked for.
  function Lead(before: string, seg: string): (lead: nat)
    ensures lead <= |seg|
  {
    if before == "" && |seg| > 0 && seg[0] == '=' then 1 else 0
  }

  function Parts(before: string, seg: string): Pair {
    var lead := Lead(before, seg);
    var k := Find(seg, '=', lead, |seg|);
    if k < |seg| then (seg[lead..k], seg[k + 1..])
    else ("", if before + seg == "" then "" else (before + seg)[1..])
  }

  lemma EqPosIs(q: string, a: nat, before: string, seg: string)
    requires a + |seg| <= |q| && q[..a] == before && q[a..a + |seg|] == seg
    ensures EqPos(q, a, a + |seg|) == a + Find(seg, '=', Lead(before, seg), |seg|)
    ensures |seg| > 0 ==> KeyStart(q, a) == a + Lead(before, seg)
  {
    var e, k := a + |seg|, Find(seg, '=', Lead(before, seg), |seg|);
    forall j | a <= j < e ensures q[j] == seg[j - a] {
      assert q[j] == q[a..e][j - a];
    }
    assert |before| == a;
    FindIs(q, '=', if a == 0 && e > 0 then 1 else a, e, a + k);
  }

  lemma PartOf(q: string, a: nat, e: nat, i: nat, j: nat)
    requires a <= e <= |q| && i <= j <= e - a
    ensures q[a..e][i..j] == q[a + i..a + j]
    ensures j == e - a ==> q[a..e][i..] == q[a + i..e]
  {
    var part, same := q[a..e][i..j], q[a + i..a + j];
    assert |part| == |same|;
    forall x | 0 <= x < j - i ensures part[x] == same[x] {
      assert part[x] == q[a..e][i + x] == q[a + i + x];
    }
    assert j == e - a ==> q[a..e][i..] == part;
  }

  lemma OneSegmentReads(q: string, a: nat, before: string, seg: string, f: string)
    requires a + |seg| <= |q| && q[..a] == before && q[a..a + |seg|] == seg
    ensures var (key, value) := Parts(before, seg);
            var field := if key != "" then key else f;
            && FieldAt(q, a, a + |seg|, f) == field
            && Attempt(q, a, a + |seg|, f) == if field != "" && value != "" then [(field, value)] else []
  {
    hide Find, EqPos, KeyStart, Lead;
    EqPosIs(q, a, before, seg);
    var e, lead, k := a + |seg|, Lead(before, seg), Find(seg, '=', Lead(before, seg), |seg|);
    if k < |seg| {
      PartOf(q, a, e, k + 1, |seg|);
      PartOf(q, a, e, lead, k);
    } else {
      assert q[..e] == before + seg;
      assert e > 1 ==> q[1..e] == (before + seg)[1..];
    }
  }

  // The scanner, which knows positions only, attempts exactly what the segments say.
  lemma {:induction false} AttemptsBySegments(q: string, a: nat, before: string, segs: seq<string>, f: string)
    requires AreSegments(segs) && a <= |q| && q[..a] == before && q[a..] == Join(segs)
    ensures Attempts(q, a, f) == Reads(before, segs, f)
    decreases |segs|
  {
    hide Parts, Attempt, FieldAt, Find;
    var seg := segs[0];
    var e := a + |seg|;
    assert |q[a..]| >= |seg| && q[a..][..|seg|] == seg;
    assert q[a..e] == seg;
    NoneOf(q, a, e, seg, '&');
    if |segs| > 1 {
      assert q[e] == q[a..][|seg|] == '&';
    }
    FindIs(q, '&', a, |q|, e);
    OneSegmentReads(q, a, before, seg, f);
    if |segs| > 1 {
      assert q[e + 1..] == q[a..][|seg| + 1..] == Join(segs[1..]);
      assert q[..e + 1] == before + seg + "&";
      AttemptsBySegments(q, e + 1, before + seg + "&", segs[1..], FieldAt(q, a, e, f));
    }
  }

  // Every query is a list of segments.
  lemma {:induction false} HasSegments(q: string) returns (segs: seq<string>)
    ensures AreSegments(segs) && Join(segs) == q
    decreases |q|
  {
    var e := Find(q, '&', 0, |q|);
    if e == |q| {
      segs := [q];
    } else {
      var rest := HasSegments(q[e + 1..]);
      segs := [q[..e]] + rest;
      assert segs[1..] == rest;
      assert q == q[..e] + "&" + q[e + 1..];
    }
  }

  // `emplace`
  function Emplace(m: map<string, string>, k: string, v: string): map<string, string> {
    if k in m then m else m[k := v]
  }

  lemma Inserted(done: seq<Pair>, k: string, v: string)
    ensures FirstWins(done + [(k, v)]) == Emplace(FirstWins(done), k, v)
  {
    assert (done + [(k, v)])[..|done|] == done;
  }

  class Url {
    var parsed: bool
    var params: map<string, string>

    constructor ()
      ensures !parsed && params == map[]
    {
      parsed, params := false, map[];
    }

    // The insertion at the end of a segment, if there is something to insert. `emplace` makes
    // its key with the copy constructor of buffers, so that the field stays as it is.
    method Insert(query: string, ghost done: seq<Pair>, ghost a: nat, i: nat, ghost f: string,
                  ghost ampPos: int, eqPos: int, field: string)
      returns (ghost pairs: seq<Pair>)
      requires a <= i <= |query| < TWO_TO_THE_64 - 1 && (i < |query| ==> query[i] == '&')
      requires forall j :: a <= j < i ==> query[j] != '&'
      requires Scanning(query, a, i, f, ampPos, eqPos, field) && Progress(query, done, a, f)
      requires params == FirstWins(done)
      modifies `params
      ensures params == FirstWins(pairs) && AfterSegment(query, pairs, i, field)
    {
      hide *;
      EndOfSegment(query, done, a, i, f, ampPos, eqPos, field);
      pairs := done;
      if Minus(i, eqPos) > 1 && field != "" {
        var value := query[eqPos + 1..i];
        Inserted(done, field, value);
        pairs := done + [(field, value)];
        params := Emplace(params, field, value);
      }
    }

    // The scan of `_parse_params`.
    method Scan(query: string)
      requires |query| < TWO_TO_THE_64 - 1 && params == map[]
      modifies `params
      ensures params == FirstWins(Attempts(query, 0, ""))
    {
      hide *;
      var ampPos, eqPos := TWO_TO_THE_64 - 1, 0;
      var field := "";
      ghost var a: nat, f := 0, "";
      ghost var done: seq<Pair> := [];
      var i := 0;
      ScanStart(query, 0, "");
      ProgressStart(query);
      NothingInserted(query);
      while i < |query|
        invariant 0 <= a <= i <= |query|
        invariant forall j :: a <= j < i ==> query[j] != '&'
        invariant Scanning(query, a, i, f, ampPos, eqPos, field)
        invariant params == FirstWins(done)
        invariant Progress(query, done, a, f)
      {
        var ch := query[i];
        if ch == '&' {
          done := Insert(query, done, a, i, f, ampPos, eqPos, field);
          NextSegment(query, done, i, field);
          ampPos, eqPos := i, 0;
          a, f := i + 1, field;
        } else if ch == '=' && eqPos == 0 {
          ScanEq(query, a, i, f, ampPos, field);
          field := if Minus(i, ampPos) > 1 then query[Minus(ampPos, -1)..i] else field;
          ampPos, eqPos := 0, i;
        } else {
          ScanOther(query, a, i, f, ampPos, eqPos, field);
        }
        i := i + 1;
      }
      // The last segment.
      done := Insert(query, done, a, i, f, ampPos, eqPos, field);
      LastSegment(query, done, field);
    }

    // `_parse_params` on the query part of the url, if there is one.
    method ParseParams(query: string)
      requires !parsed ==> params == map[]
      requires |query| < TWO_TO_THE_64 - 1
      modifies this
      ensures parsed
      ensures params == if old(parsed) then old(params) else FirstWins(Attempts(query, 0, ""))
    {
      hide FirstWins, Attempts;
      if !parsed {
        parsed := true;
        NothingInserted(query);
        if |query| > 0 {
          Scan(query);
        }
      }
    }
  }

  lemma NothingInserted(q: string)
    ensures FirstWins([]) == map[] && (|q| == 0 ==> Attempts(q, 0, "") == [])
  {}

  // ---------- When the scanner reads what is meant ----------

  // The attempts without the retries: here an attempt uses its field up.
  function FirstAttempts(q: string, a: nat, f: string): seq<Pair>
    requires a <= |q|
    decreases |q| - a
  {
    var e := Find(q, '&', a, |q|);
    Attempt(q, a, e, f) + if e < |q| then FirstAttempts(q, e + 1, Untried(q, a, e, f)) else []
  }

  // The field of a segment, unless it has been attempted.
  function Untried(q: string, a: nat, e: nat, f: string): string
    requires a <= e <= |q|
  {
    if Attempt(q, a, e, f) == [] then FieldAt(q, a, e, f) else ""
  }

  // A key with an empty value leaves an untried field behind (`stale`). The scanner agrees with
  // the intended reading as long as the next segment that could use a field overwrites it,
  // and as long as the query does not start with '=', which is not seen at position zero.
  predicate Clean(q: string, a: nat, stale: bool)
    requires a <= |q|
    decreases |q| - a
  {
    var e := Find(q, '&', a, |q|);
    if a == 0 && e > 0 && q[0] == '=' then
      var k := Find(q, '=', 1, e);
      if k <= 1 || k == e then CleanRest(q, e, false) else k + 1 == e && CleanRest(q, e, true)
    else
      var k := Find(q, '=', a, e);
      if k == e then !stale && CleanRest(q, e, false)
      else if a < k then CleanRest(q, e, k + 1 == e)
      else if k + 1 < e then !stale && CleanRest(q, e, false)
      else CleanRest(q, e, stale)
  }

  predicate CleanRest(q: string, e: nat, stale: bool)
    requires e <= |q|
    decreases |q| - e, 0
  {
    e < |q| ==> Clean(q, e + 1, stale)
  }

  // One segment: the intended pair if the segment is clean, one insertion more otherwise.
  lemma OneSegment(q: string, a: nat, e: nat, f: string)
    requires a <= e <= |q| && (a == 0 ==> f == "") && (f != "" ==> a >= 2)
    requires e == Find(q, '&', a, |q|)
    ensures var now, left := Attempt(q, a, e, f), Untried(q, a, e, f);
            if Clean(q, a, f != "") then now == PairOf(q, a, e) && CleanRest(q, e, left != "")
            else |now| > |PairOf(q, a, e)| || (now == PairOf(q, a, e) && !CleanRest(q, e, left != ""))
    ensures Untried(q, a, e, f) != "" ==> e >= 1
  {
    hide CleanRest, Find;
  }

  // Retries apart, the insertions attempted are exactly the pairs of the query if and only if
  // it is clean, and never fewer.
  lemma {:induction false} AttemptsArePairs(q: string, a: nat, f: string)
    requires a <= |q| && (a == 0 ==> f == "") && (f != "" ==> a >= 2)
    ensures FirstAttempts(q, a, f) == Pairs(q, a) <==> Clean(q, a, f != "")
    ensures |FirstAttempts(q, a, f)| >= |Pairs(q, a)|
    ensures |FirstAttempts(q, a, f)| == |Pairs(q, a)| ==> Clean(q, a, f != "")
    decreases |q| - a
  {
    hide Clean, Attempt, Untried, PairOf;
    var e := Find(q, '&', a, |q|);
    OneSegment(q, a, e, f);
    AtLeastPairs(q, a, e, f);
    if e < |q| {
      AttemptsArePairs(q, e + 1, Untried(q, a, e, f));
    }
  }

  lemma AtLeastPairs(q: string, a: nat, e: nat, f: string)
    requires a <= e <= |q|
    ensures |Attempt(q, a, e, f)| >= |PairOf(q, a, e)| && |PairOf(q, a, e)| <= 1
  {
    hide Find;
  }

  // ---------- Printing ----------

  function Print(pairs: seq<Pair>): string {
    if |pairs| == 0 then ""
    else if |pairs| == 1 then pairs[0].0 + "=" + pairs[0].1
    else pairs[0].0 + "=" + pairs[0].1 + "&" + Print(pairs[1..])
  }

  // Keys without '&' and '=', values without '&', neither of them empty.
  predicate Printable(pairs: seq<Pair>) {
    forall i :: 0 <= i < |pairs| ==>
      && pairs[i].0 != "" && '&' !in pairs[i].0 && '=' !in pairs[i].0
      && pairs[i].1 != "" && '&' !in pairs[i].1
  }

  // A printed pair at position a, followed by nothing or by '&'.
  lemma PrintedHead(q: string, a: nat, key: string, value: string, tail: string)
    requires a <= |q| && q[a..] == key + "=" + value + tail
    requires key != "" && '&' !in key && '=' !in key && value != "" && '&' !in value
    requires tail == "" || tail[0] == '&'
    ensures var k, e := a + |key|, a + |key| + 1 + |value|;
            && e <= |q| && Find(q, '&', a, |q|) == e && Find(q, '=', a, e) == k
            && q[a..k] == key && q[k + 1..e] == value && q[e..] == tail && q[a] != '='
  {
    hide Find;
    var k, e := a + |key|, a + |key| + 1 + |value|;
    assert |q[a..]| == |key| + 1 + |value| + |tail|;
    assert q[a..k] == (key + "=" + value + tail)[..|key|] == key;
    assert q[k..k + 1] == (key + "=" + value + tail)[|key|..|key| + 1] == "=";
    assert q[k + 1..e] == (key + "=" + value + tail)[|key| + 1..|key| + 1 + |value|] == value;
    assert q[e..] == (key + "=" + value + tail)[|key| + 1 + |value|..] == tail;
    NoneOf(q, a, k, key, '&');
    NoneOf(q, a, k, key, '=');
    NoneOf(q, k + 1, e, value, '&');
    assert q[k] == q[k..k + 1][0] == '=';
    assert e < |q| ==> q[e] == tail[0];
    assert q[a] == q[a..k][0];
    FindIs(q, '&', a, |q|, e);
    FindIs(q, '=', a, e, k);
  }

  lemma NoneOf(q: string, from: nat, to: nat, part: string, c: char)
    requires from <= to <= |q| && q[from..to] == part && c !in part
    ensures forall j :: from <= j < to ==> q[j] != c
  {
    forall j | from <= j < to ensures q[j] != c {
      assert q[j] == part[j - from];
    }
  }

  // Whatever field is held before, every printed pair has a key of its own.
  lemma {:induction false} PrintedPairs(q: string, a: nat, pairs: seq<Pair>, f: string)
    requires a <= |q| && |pairs| > 0 && Printable(pairs) && q[a..] == Print(pairs)
    ensures Pairs(q, a) == pairs && Clean(q, a, false) && Attempts(q, a, f) == pairs
    decreases |pairs|
  {
    hide Find, Clean, CleanRest, PairOf, Attempt, FieldAt, Print, Printable;
    var (key, value) := pairs[0];
    var tail := PrintedTail(pairs);
    PrintableParts(pairs);
    var e := a + |key| + 1 + |value|;
    PrintedHead(q, a, key, value, tail);
    PrintedSegment(q, a, key, value, e, f);
    assert pairs == [(key, value)] + pairs[1..];
    if |pairs| > 1 {
      assert q[e + 1..] == q[e..][1..];
      PrintedPairs(q, e + 1, pairs[1..], key);
    }
  }

  lemma PrintedTail(pairs: seq<Pair>) returns (tail: string)
    requires |pairs| > 0
    ensures Print(pairs) == pairs[0].0 + "=" + pairs[0].1 + tail
    ensures |pairs| == 1 ==> tail == ""
    ensures |pairs| > 1 ==> tail != "" && tail[0] == '&' && tail[1..] == Print(pairs[1..])
  {
    tail := if |pairs| > 1 then "&" + Print(pairs[1..]) else "";
  }

  lemma PrintableParts(pairs: seq<Pair>)
    requires |pairs| > 0 && Printable(pairs)
    ensures var (key, value) := pairs[0];
            key != "" && '&' !in key && '=' !in key && value != "" && '&' !in value
    ensures Printable(pairs[1..])
  {}

  lemma PrintedSegment(q: string, a: nat, key: string, value: string, e: nat, f: string)
    requires e == a + |key| + 1 + |value| && e <= |q| && |key| > 0 && |value| > 0
    requires Find(q, '&', a, |q|) == e && Find(q, '=', a, e) == a + |key| && q[a] != '='
    requires q[a..a + |key|] == key && q[a + |key| + 1..e] == value
    ensures PairOf(q, a, e) == [(key, value)]
    ensures Attempt(q, a, e, f) == [(key, value)] && FieldAt(q, a, e, f) == key
    ensures Clean(q, a, false) <==> (e < |q| ==> Clean(q, e + 1, false))
  {
    var k := a + |key|;
    FindIs(q, '=', if a == 0 then 1 else a, e, k);
    hide Find;
  }

  // Printing and scanning: the map in which the first value of each key wins.
  lemma RoundTrip(pairs: seq<Pair>)
    requires Printable(pairs)
    ensures Attempts(Print(pairs), 0, "") == pairs
  {
    var q := Print(pairs);
    if |pairs| == 0 {
      NothingInserted(q);
    } else {
      assert q[0..] == q;
      PrintedPairs(q, 0, pairs, "");
    }
  }

  lemma {:induction false} FirstWinsLookup(pairs: seq<Pair>, i: nat)
    requires i < |pairs| && forall j :: 0 <= j < i ==> pairs[j].0 != pairs[i].0
    ensures pairs[i].0 in FirstWins(pairs) && FirstWins(pairs)[pairs[i].0] == pairs[i].1
    decreases |pairs|
  {
    var rest := pairs[..|pairs| - 1];
    if i < |rest| {
      FirstWinsLookup(rest, i);
    } else {
      FirstWinsKeys(rest);
    }
  }

  lemma {:induction false} FirstWinsKeys(pairs: seq<Pair>)
    ensures forall k :: k in FirstWins(pairs) <==> exists i :: 0 <= i < |pairs| && pairs[i].0 == k
    decreases |pairs|
  {
    if |pairs| > 0 {
      var rest := pairs[..|pairs| - 1];
      FirstWinsKeys(rest);
      forall k ensures k in FirstWins(pairs) <==> exists i :: 0 <= i < |pairs| && pairs[i].0 == k {
        if k in FirstWins(rest) {
          var i :| 0 <= i < |rest| && rest[i].0 == k;
          assert pairs[i].0 == k;
        }
        if i :| 0 <= i < |pairs| && pairs[i].0 == k {
          if i < |rest| {
            assert rest[i].0 == k;
          }
        }
      }
    }
  }

  // "a=&b" is not clean: the empty value of a leaves its field behind, and the next segment
  // is taken for its value.
  lemma StaleField()
    ensures Attempts("a=&b", 0, "") == [("a", "=&b")] && Pairs("a=&b", 0) == []
  {
    var q := "a=&b";
    FindIs(q, '&', 0, 4, 2);
    FindIs(q, '&', 3, 4, 4);
    FindIs(q, '=', 1, 2, 1);
    FindIs(q, '=', 0, 2, 1);
    FindIs(q, '=', 3, 4, 4);
    assert q[1..4] == "=&b" && q[0..1] == "a";
    assert Attempts(q, 3, "a") == [("a", "=&b")];
  }

  // "a=1&b" is clean, and yet a is attempted twice.
  lemma Retry()
    ensures Attempts("a=1&b", 0, "") == [("a", "1"), ("a", "=1&b")]
    ensures Pairs("a=1&b", 0) == [("a", "1")] && Clean("a=1&b", 0, false)
  {
    var q := "a=1&b";
    FindIs(q, '&', 0, 5, 3);
    FindIs(q, '&', 4, 5, 5);
    FindIs(q, '=', 1, 3, 1);
    FindIs(q, '=', 0, 3, 1);
    FindIs(q, '=', 4, 5, 5);
    assert q[1..5] == "=1&b" && q[0..1] == "a" && q[2..3] == "1";
    assert Attempts(q, 4, "a") == [("a", "=1&b")] && Pairs(q, 4) == [];
  }

  // ---------- When the map is what is meant ----------

  // An insertion, and whether it is the pair of its segment.
  datatype Insertion = Insertion(pair: Pair, meant: bool)

  function Insertions(q: string, a: nat, f: string): seq<Insertion>
    requires a <= |q|
    decreases |q| - a
  {
    var e := Find(q, '&', a, |q|);
    Tagged(Attempt(q, a, e, f), PairOf(q, a, e)) + if e < |q| then Insertions(q, e + 1, FieldAt(q, a, e, f)) else []
  }

  function Tagged(now: seq<Pair>, meant: seq<Pair>): seq<Insertion> {
    if |now| == 0 then [] else [Insertion(now[0], now == meant)]
  }

  lemma TaggedParts(now: seq<Pair>, meant: seq<Pair>, rest: seq<Insertion>)
    requires |now| <= 1 && (now == meant || (|now| == 1 && meant == []))
    ensures AllOf(Tagged(now, meant) + rest) == now + AllOf(rest)
    ensures MeantOf(Tagged(now, meant) + rest) == meant + MeantOf(rest)
  {
    var l := Tagged(now, meant) + rest;
    if |now| == 1 {
      assert now == [now[0]];
      assert l[1..] == rest;
    } else {
      assert l == rest;
    }
  }

  function AllOf(l: seq<Insertion>): seq<Pair> {
    if |l| == 0 then [] else [l[0].pair] + AllOf(l[1..])
  }

  function MeantOf(l: seq<Insertion>): seq<Pair> {
    if |l| == 0 then [] else (if l[0].meant then [l[0].pair] else []) + MeantOf(l[1..])
  }

  // The first value of a key.
  function Lookup(pairs: seq<Pair>, k: string): Option<string> {
    if |pairs| == 0 then None else if pairs[0].0 == k then Some(pairs[0].1) else Lookup(pairs[1..], k)
  }

  // Every insertion that is not meant either comes too late, its key having been seen before,
  // or anticipates the value that its key would have got anyway.
  predicate Harmless(l: seq<Insertion>, seen: set<string>) {
    |l| == 0
    || (&& (l[0].meant || l[0].pair.0 in seen || Lookup(MeantOf(l[1..]), l[0].pair.0) == Some(l[0].pair.1))
        && Harmless(l[1..], seen + {l[0].pair.0}))
  }

  lemma NoInsertions()
    ensures AllOf([]) == [] && MeantOf([]) == []
  {}

  lemma AttemptOrPair(q: string, a: nat, e: nat, f: string)
    requires a <= e <= |q| && e == Find(q, '&', a, |q|) && (a == 0 ==> f == "") && (f != "" ==> a >= 2)
    ensures var now := Attempt(q, a, e, f);
            |now| <= 1 && (now == PairOf(q, a, e) || (|now| == 1 && PairOf(q, a, e) == []))
  {
    hide Clean, CleanRest, Find;
    OneSegment(q, a, e, f);
    AtLeastPairs(q, a, e, f);
  }

  lemma FieldNeedsRoom(q: string, a: nat, e: nat, f: string)
    requires a <= e <= |q| && (f != "" ==> a >= 2)
    ensures FieldAt(q, a, e, f) != "" ==> e >= 1
  {}

  lemma {:induction false} AllInsertions(q: string, a: nat, f: string)
    requires a <= |q| && (a == 0 ==> f == "") && (f != "" ==> a >= 2)
    ensures AllOf(Insertions(q, a, f)) == Attempts(q, a, f) && MeantOf(Insertions(q, a, f)) == Pairs(q, a)
    decreases |q| - a
  {
    hide Attempt, FieldAt, PairOf, Tagged, Find, AllOf, MeantOf;
    NoInsertions();
    var e := Find(q, '&', a, |q|);
    var now, field := Attempt(q, a, e, f), FieldAt(q, a, e, f);
    AttemptOrPair(q, a, e, f);
    FieldNeedsRoom(q, a, e, f);
    TaggedParts(now, PairOf(q, a, e), if e < |q| then Insertions(q, e + 1, field) else []);
    if e < |q| {
      AllInsertions(q, e + 1, field);
    }
  }

  lemma {:induction false} LookupIs(pairs: seq<Pair>, k: string) returns (i: nat)
    ensures Lookup(pairs, k).Some? ==>
      i < |pairs| && pairs[i] == (k, Lookup(pairs, k).value) && forall j :: 0 <= j < i ==> pairs[j].0 != k
    ensures Lookup(pairs, k).None? ==> forall j :: 0 <= j < |pairs| ==> pairs[j].0 != k
  {
    i := 0;
    if |pairs| > 0 && pairs[0].0 != k {
      i := LookupIs(pairs[1..], k);
      i := i + 1;
    }
  }

  lemma FirstWinsIsLookup(pairs: seq<Pair>, k: string)
    ensures Lookup(pairs, k) == if k in FirstWins(pairs) then Some(FirstWins(pairs)[k]) else None
  {
    hide FirstWins;
    var i := LookupIs(pairs, k);
    FirstWinsKeys(pairs);
    if Lookup(pairs, k).Some? {
      FirstWinsLookup(pairs, i);
    }
  }

  ghost predicate Agree(a: seq<Pair>, b: seq<Pair>, seen: set<string>) {
    forall k :: k !in seen ==> Lookup(a, k) == Lookup(b, k)
  }

  lemma {:induction false} HarmlessAgrees(l: seq<Insertion>, seen: set<string>)
    ensures Agree(AllOf(l), MeantOf(l), seen) <==> Harmless(l, seen)
    decreases |l|
  {
    if |l| > 0 {
      var (key, value) := l[0].pair;
      var rest := l[1..];
      var all, meant := AllOf(rest), MeantOf(rest);
      HarmlessAgrees(rest, seen + {key});
      forall k
        ensures Lookup(AllOf(l), k) == if k == key then Some(value) else Lookup(all, k)
        ensures Lookup(MeantOf(l), k) == if k == key && l[0].meant then Some(value) else Lookup(meant, k)
      {
        assert AllOf(l)[1..] == all;
        if l[0].meant {
          assert MeantOf(l)[1..] == meant;
        } else {
          assert MeantOf(l) == meant;
        }
      }
      AgreeStep(AllOf(l), MeantOf(l), all, meant, seen, key);
    }
  }

  lemma AgreeStep(a: seq<Pair>, b: seq<Pair>, restA: seq<Pair>, restB: seq<Pair>, seen: set<string>, key: string)
    requires forall k :: k != key ==> Lookup(a, k) == Lookup(restA, k) && Lookup(b, k) == Lookup(restB, k)
    ensures Agree(a, b, seen)
       <==> (key in seen || Lookup(a, key) == Lookup(b, key)) && Agree(restA, restB, seen + {key})
  {}

  lemma AgreeIsSameMap(a: seq<Pair>, b: seq<Pair>)
    ensures FirstWins(a) == FirstWins(b) <==> Agree(a, b, {})
  {
    hide FirstWins, Lookup;
    forall k: string
      ensures Lookup(a, k) == (if k in FirstWins(a) then Some(FirstWins(a)[k]) else None)
      ensures Lookup(b, k) == (if k in FirstWins(b) then Some(FirstWins(b)[k]) else None)
    {
      FirstWinsIsLookup(a, k);
      FirstWinsIsLookup(b, k);
    }
    SameMaps(FirstWins(a), FirstWins(b));
  }

  lemma SameMaps(a: map<string, string>, b: map<string, string>)
    ensures a == b <==> forall k :: (if k in a then Some(a[k]) else None) == (if k in b then Some(b[k]) else None)
  {
    if forall k :: (if k in a then Some(a[k]) else None) == (if k in b then Some(b[k]) else None) {
      assert forall k :: k in a <==> k in b;
    }
  }

  // The parameters are those meant if and only if every insertion that is not is harmless.
  lemma ParamsAreMeant(q: string)
    ensures FirstWins(Attempts(q, 0, "")) == FirstWins(Pairs(q, 0)) <==> Harmless(Insertions(q, 0, ""), {})
  {
    hide Harmless, FirstWins, Agree;
    AllInsertions(q, 0, "");
    HarmlessAgrees(Insertions(q, 0, ""), {});
    AgreeIsSameMap(Attempts(q, 0, ""), Pairs(q, 0));
  }

  function KeysOf(pairs: seq<Pair>): set<string> {
    set p | p in pairs :: p.0
  }

  // A segment with a field f whose key has been seen, or with none (g) in its place.
  lemma TriedOrUntried(q: string, a: nat, e: nat, f: string, g: string, seen: set<string>)
    requires a <= e <= |q| && (g == f || (g == "" && f in seen))
    ensures var now, first := Attempt(q, a, e, f), Attempt(q, a, e, g);
            && |now| <= 1 && (first == now || (first == [] && KeysOf(now) <= seen))
    ensures var field, untried := FieldAt(q, a, e, f), Untried(q, a, e, g);
            untried == field || (untried == "" && field in seen + KeysOf(Attempt(q, a, e, f)))
  {
    hide EqPos, KeyStart;
    var now := Attempt(q, a, e, f);
    if |now| == 1 {
      assert now[0].0 in KeysOf(now);
    }
  }

  lemma AgreeAfter(now: seq<Pair>, first: seq<Pair>, more: seq<Pair>, less: seq<Pair>, seen: set<string>)
    requires |now| <= 1 && (first == now || (first == [] && KeysOf(now) <= seen))
    requires Agree(more, less, seen + KeysOf(now))
    ensures Agree(now + more, first + less, seen)
  {
    if |now| == 0 {
      assert now + more == more && first + less == less;
    } else {
      assert now == [now[0]] && now[0].0 in KeysOf(now);
      assert (now + more)[1..] == more;
      assert first + less == if first == [] then less else now + less;
      assert (now + less)[1..] == less;
    }
  }

  // A retry finds its key in place.
  lemma {:induction false} RetriesAgree(q: string, a: nat, f: string, g: string, seen: set<string>)
    requires a <= |q| && (g == f || (g == "" && f in seen))
    ensures Agree(Attempts(q, a, f), FirstAttempts(q, a, g), seen)
    decreases |q| - a
  {
    hide Find, Agree, Attempt, FieldAt, Untried, KeysOf;
    var e := Find(q, '&', a, |q|);
    var now := Attempt(q, a, e, f);
    TriedOrUntried(q, a, e, f, g, seen);
    if e < |q| {
      var field, untried := FieldAt(q, a, e, f), Untried(q, a, e, g);
      RetriesAgree(q, e + 1, field, untried, seen + KeysOf(now));
      AgreeAfter(now, Attempt(q, a, e, g), Attempts(q, e + 1, field), FirstAttempts(q, e + 1, untried), seen);
    } else {
      NoneAgree(seen + KeysOf(now));
      AgreeAfter(now, Attempt(q, a, e, g), [], [], seen);
    }
  }

  lemma NoneAgree(seen: set<string>)
    ensures Agree([], [], seen)
  {}

  // The retries leave the map as it is, so that a clean query is read as it is meant.
  lemma CleanIsMeant(q: string)
    ensures FirstWins(Attempts(q, 0, "")) == FirstWins(FirstAttempts(q, 0, ""))
    ensures Clean(q, 0, false) ==> FirstWins(Attempts(q, 0, "")) == FirstWins(Pairs(q, 0))
  {
    hide FirstWins, Agree, Attempts, FirstAttempts, Clean;
    RetriesAgree(q, 0, "", "", {});
    AgreeIsSameMap(Attempts(q, 0, ""), FirstAttempts(q, 0, ""));
    AttemptsArePairs(q, 0, "");
  }
}
