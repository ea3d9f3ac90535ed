/**
 Reference counted, immutable buffers: `node::buffer` handles and the control blocks they
 share. The pool stands for the whole program: all handles that live, and all blocks ever
 allocated.
 */
module Buffers {

  type Byte = bv8

  // `control_base`, together with the memory it owns.
  class Control {
    const mem: array<Byte>
    var useCount: nat
    ghost var freed: bool

    constructor (mem: array<Byte>)
      ensures this.mem == mem && useCount == 1 && !freed
    {
      this.mem, useCount, freed := mem, 1, false;
    }

    method Retain()
      requires !freed
      modifies `useCount
      ensures useCount == old(useCount) + 1
    {
      useCount := useCount + 1;
    }

    method Release()
      requires !freed && useCount > 0
      modifies this
      ensures useCount == old(useCount) - 1 && (freed <==> useCount == 0)
    {
      var before := useCount;
      useCount := useCount - 1;
      if before == 1 {
        Free();
      }
    }

    method Free()
      requires !freed
      modifies `freed
      ensures freed
    {
      freed := true;
    }
  }

  // Which control block each handle points to, and how many point to one.
  type Pointers = map<Buffer, Control?>

  ghost function Owners(m: Pointers, c: Control): set<Buffer> {
    set h | h in m && m[h] == c
  }

  ghost function Count(m: Pointers, c: Control): nat {
    |Owners(m, c)|
  }

  ghost function Points(m: Pointers, h: Buffer, c: Control): nat {
    if h in m && m[h] == c then 1 else 0
  }

  lemma OwnersUpdated(m: Pointers, h: Buffer, q: Control?, c: Control)
    ensures Owners(m[h := q], c) == if q == c then Owners(m, c) + {h} else Owners(m, c) - {h}
  {}

  lemma CountUpdated(m: Pointers, h: Buffer, q: Control?, c: Control)
    ensures Count(m[h := q], c) == Count(m, c) - Points(m, h, c) + if q == c then 1 else 0
  {
    OwnersUpdated(m, h, q, c);
    var owners := Owners(m, c);
    assert Points(m, h, c) == 1 <==> h in owners;
    hide Owners;
    assert h in owners ==> |owners - {h}| == |owners| - 1 && owners + {h} == owners;
    assert h !in owners ==> owners - {h} == owners && |owners + {h}| == |owners| + 1;
  }

  lemma AllUpdated(m: Pointers, h: Buffer, q: Control?, controls: set<Control>)
    ensures forall c :: c in controls ==>
      Count(m[h := q], c) == Count(m, c) - Points(m, h, c) + if q == c then 1 else 0
  {
    forall c | c in controls {
      CountUpdated(m, h, q, c);
    }
  }

  lemma AllRemoved(m: Pointers, h: Buffer, controls: set<Control>)
    ensures forall c :: c in controls ==> Count(m - {h}, c) == Count(m, c) - Points(m, h, c)
  {
    forall c | c in controls {
      CountRemoved(m, h, c);
    }
  }

  lemma CountRemoved(m: Pointers, h: Buffer, c: Control)
    ensures Count(m - {h}, c) == Count(m, c) - Points(m, h, c)
  {
    assert Owners(m - {h}, c) == Owners(m, c) - {h};
  }

  lemma NotCounted(m: Pointers, c: Control)
    requires forall h :: h in m ==> m[h] != c
    ensures Count(m, c) == 0
  {
    assert Owners(m, c) == {};
  }

  lemma CountPositive(m: Pointers, h: Buffer)
    requires h in m && m[h] != null
    ensures Count(m, m[h]) > 0
  {
    assert h in Owners(m, m[h]);
  }

  // `_data`, `_size` and `_p`: an address range, and the control block if the handle is strong.
  datatype Reference = Reference(mem: array?<Byte>, off: nat, size: nat, p: Control?)

  const EMPTY: Reference := Reference(null, 0, 0, null)

  ghost predicate InRange(r: Reference) {
    && (r.mem == null ==> r == EMPTY)
    && (r.mem != null ==> r.off + r.size <= r.mem.Length)
    && (r.p != null ==> r.mem == r.p.mem)
  }

  // The bytes a reference shows.
  ghost function Contents(r: Reference): seq<Byte>
    requires InRange(r)
    reads r.mem
  {
    if r.mem == null then [] else r.mem[r.off..r.off + r.size]
  }

  function Sliced(r: Reference, beg: nat, end: nat): Reference {
    var cbeg := if beg < r.size then beg else r.size;
    var cend := if end < r.size then end else r.size;
    if r.mem != null && cend > cbeg then r.(off := r.off + cbeg, size := cend - cbeg) else EMPTY
  }

  function Section(s: seq<Byte>, beg: nat, end: nat): seq<Byte> {
    var b := if beg < |s| then beg else |s|;
    var e := if end < |s| then end else |s|;
    if e > b then s[b..e] else []
  }

  // A slice shows the bytes between two positions, cut off at the end of the buffer; it is in
  // the same memory, and strong if the buffer is.
  lemma SliceShows(r: Reference, beg: nat, end: nat)
    requires InRange(r)
    ensures InRange(Sliced(r, beg, end))
    ensures Contents(Sliced(r, beg, end)) == Section(Contents(r), beg, end)
    ensures var t := Sliced(r, beg, end);
            if Section(Contents(r), beg, end) == [] then t == EMPTY else t.mem == r.mem && t.p == r.p
  {
    var t := Sliced(r, beg, end);
    if r.mem != null {
      assert |Contents(r)| == r.size;
      if t.mem != null {
        PartOf(r.mem[..], r.off, r.size, t.off - r.off, t.size);
      }
    }
  }

  lemma PartOf(s: seq<Byte>, off: nat, size: nat, beg: nat, n: nat)
    requires off + size <= |s| && beg + n <= size
    ensures s[off..off + size][beg..beg + n] == s[off + beg..off + beg + n]
  {
    var part, same := s[off..off + size][beg..beg + n], s[off + beg..off + beg + n];
    forall i | 0 <= i < n
      ensures part[i] == same[i]
    {
      assert part[i] == s[off..off + size][beg + i] == s[off + beg + i];
    }
  }

  class Pool {
    ghost var handles: set<Buffer>
    ghost var controls: set<Control>

    ghost function Table(): Pointers
      reads this, handles
    {
      map h | h in handles :: h.ref.p
    }

    // A control block counts exactly the handles that point to it, and its memory has been
    // freed exactly if there are none.
    ghost predicate Valid()
      reads this, handles, controls
    {
      && (forall c :: c in controls ==> c.useCount == Count(Table(), c) && (c.freed <==> c.useCount == 0))
      && (forall h :: h in handles ==> InRange(h.ref) && (h.ref.p != null ==> h.ref.p in controls))
    }

    constructor ()
      ensures Valid() && handles == {} && controls == {}
    {
      handles, controls := {}, {};
    }

    // Strong handles never dangle.
    lemma StrongIsAlive(h: Buffer)
      requires Valid() && h in handles && h.ref.p != null
      ensures !h.ref.p.freed && h.ref.p.useCount > 0
      ensures h.ref.mem == h.ref.p.mem && h.ref.off + h.ref.size <= h.ref.mem.Length
    {
      CountPositive(Table(), h);
    }

    // Once all handles are gone, all memory has been freed.
    lemma NothingLeaks()
      requires Valid() && handles == {}
      ensures forall c :: c in controls ==> c.freed
    {
      assert forall c :: c in controls ==> Owners(Table(), c) == {};
    }
  }

  class Buffer {
    var ref: Reference

    constructor Empty(ghost pool: Pool)
      requires pool.Valid()
      modifies pool`handles
      ensures pool.Valid() && pool.handles == old(pool.handles) + {this} && pool.controls == old(pool.controls)
      ensures ref == EMPTY
    {
      ref := EMPTY;
      new;
      Enlist(pool);
    }

    // A reference to memory that somebody else owns.
    constructor Weak(ghost pool: Pool, mem: array<Byte>, off: nat, size: nat)
      requires pool.Valid() && off + size <= mem.Length
      modifies pool`handles
      ensures pool.Valid() && pool.handles == old(pool.handles) + {this} && pool.controls == old(pool.controls)
      ensures ref == Reference(mem, off, size, null)
    {
      ref := Reference(mem, off, size, null);
      new;
      Enlist(pool);
    }

    // The pool takes note of a new handle without a control block.
    ghost method Enlist(pool: Pool)
      requires pool.Valid() && this !in pool.handles && InRange(ref) && ref.p == null
      modifies pool`handles
      ensures pool.Valid() && pool.handles == old(pool.handles) + {this}
    {
      hide Count;
      var m := pool.Table();
      pool.handles := pool.handles + {this};
      AllUpdated(m, this, null, pool.controls);
      assert pool.Table() == m[this := null];
    }

    // A buffer with its own memory; none is allocated for size 0.
    constructor Sized(ghost pool: Pool, size: nat)
      requires pool.Valid()
      modifies pool
      ensures pool.Valid() && pool.handles == old(pool.handles) + {this}
      ensures old(pool.controls) <= pool.controls && fresh(pool.controls - old(pool.controls))
      ensures size == 0 ==> ref == EMPTY
      ensures size > 0 ==> ref.p != null && fresh(ref.p) && fresh(ref.p.mem) && ref.p.mem.Length == size
      ensures size > 0 ==> ref == Reference(ref.p.mem, 0, size, ref.p)
    {
      ref := EMPTY;
      new;
      Enlist(pool);
      if size > 0 {
        Reset(pool, size);
      }
    }

    // `_reset_unsafe`
    method Reset(ghost pool: Pool, size: nat)
      requires pool.Valid() && this in pool.handles && ref == EMPTY && size > 0
      modifies this, pool`controls
      ensures pool.Valid() && ref.p != null && fresh(ref.p) && pool.controls == old(pool.controls) + {ref.p}
      ensures fresh(ref.p.mem) && ref.p.mem.Length == size && ref == Reference(ref.p.mem, 0, size, ref.p)
    {
      hide Count;
      ghost var m := pool.Table();
      var mem := new Byte[size];
      var p := new Control(mem);
      ref := Reference(mem, 0, size, p);
      pool.controls := pool.controls + {p};
      NotCounted(m, p);
      AllUpdated(m, this, p, pool.controls);
      assert pool.Table() == m[this := p];
    }

    constructor Copied(ghost pool: Pool, other: Buffer)
      requires pool.Valid() && other in pool.handles
      modifies pool`handles, other.ref.p
      ensures pool.Valid() && pool.handles == old(pool.handles) + {this} && pool.controls == old(pool.controls)
      ensures ref == other.ref == old(other.ref)
    {
      ref := EMPTY;
      new;
      Enlist(pool);
      Share(pool, other);
    }

    // Both `buffer(const buffer&)` and the second half of `operator=`: take over what the
    // other buffer holds, and retain it.
    method Share(ghost pool: Pool, other: Buffer)
      requires pool.Valid() && this in pool.handles && other in pool.handles && ref == EMPTY
      modifies this, other.ref.p
      ensures pool.Valid() && ref == old(other.ref)
    {
      hide Count;
      ghost var m := pool.Table();
      if other.ref.p != null {
        pool.StrongIsAlive(other);
      }
      ref := other.ref;
      if ref.p != null {
        ref.p.Retain();
      }
      AllUpdated(m, this, ref.p, pool.controls);
      assert pool.Table() == m[this := ref.p];
    }

    constructor Moved(ghost pool: Pool, other: Buffer)
      requires pool.Valid() && other in pool.handles
      modifies pool`handles, other
      ensures pool.Valid() && pool.handles == old(pool.handles) + {this} && pool.controls == old(pool.controls)
      ensures ref == old(other.ref) && other.ref == EMPTY
    {
      ref := EMPTY;
      new;
      Enlist(pool);
      Swap(pool, other);
    }

    // `_release`; also `reset`.
    method Release(ghost pool: Pool)
      requires pool.Valid() && this in pool.handles
      modifies this, ref.p
      ensures pool.Valid() && ref == EMPTY
      ensures old(ref.p) != null ==> old(ref.p).useCount == old(ref.p.useCount) - 1
    {
      hide Count;
      ghost var m := pool.Table();
      if ref.p != null {
        pool.StrongIsAlive(this);
        ref.p.Release();
      }
      ref := EMPTY;
      AllUpdated(m, this, null, pool.controls);
      assert pool.Table() == m[this := null];
    }

    // `operator=(const buffer&)`: what the other buffer holds is read after the release, so
    // that a buffer assigned to itself is emptied.
    method AssignCopy(ghost pool: Pool, other: Buffer)
      requires pool.Valid() && this in pool.handles && other in pool.handles
      modifies this, ref.p, other.ref.p
      ensures pool.Valid()
      ensures ref == if other == this then EMPTY else old(other.ref)
    {
      Release(pool);
      Share(pool, other);
    }

    // `operator=(buffer&&)`
    method AssignMove(ghost pool: Pool, other: Buffer)
      requires pool.Valid() && this in pool.handles && other in pool.handles
      modifies this, other, ref.p
      ensures pool.Valid()
      ensures ref == (if other == this then EMPTY else old(other.ref)) && other.ref == EMPTY
    {
      Release(pool);
      Swap(pool, other);
    }

    // `operator=(const buffer_view&)`: a weak reference to what the other buffer shows.
    method AssignView(ghost pool: Pool, other: Buffer)
      requires pool.Valid() && this in pool.handles && other in pool.handles
      modifies this, ref.p
      ensures pool.Valid()
      ensures ref == if other == this then EMPTY else old(other.ref).(p := null)
    {
      Release(pool);
      ghost var m := pool.Table();
      ref := ref.(mem := other.ref.mem, off := other.ref.off, size := other.ref.size);
      assert pool.Table() == m;
    }

    method Swap(ghost pool: Pool, other: Buffer)
      requires pool.Valid() && this in pool.handles && other in pool.handles
      modifies this, other
      ensures pool.Valid()
      ensures ref == old(other.ref) && other.ref == old(ref)
    {
      hide Count;
      ghost var m := pool.Table();
      ref, other.ref := other.ref, ref;
      ghost var n: Pointers := m[this := ref.p];
      AllUpdated(m, this, ref.p, pool.controls);
      AllUpdated(n, other, other.ref.p, pool.controls);
      assert pool.Table() == n[other := other.ref.p];
    }

    method Destroy(ghost pool: Pool)
      requires pool.Valid() && this in pool.handles
      modifies this, ref.p, pool`handles
      ensures pool.Valid() && pool.handles == old(pool.handles) - {this}
    {
      hide Count;
      Release(pool);
      ghost var m := pool.Table();
      pool.handles := pool.handles - {this};
      AllRemoved(m, this, pool.controls);
      assert pool.Table() == m - {this};
    }

    method Narrow(ghost pool: Pool, beg: nat, n: nat)
      requires pool.Valid() && this in pool.handles && ref.mem != null && beg + n <= ref.size
      modifies this
      ensures pool.Valid() && ref == old(ref).(off := old(ref).off + beg, size := n)
    {
      ghost var m := pool.Table();
      ref := ref.(off := ref.off + beg, size := n);
      assert pool.Table() == m;
    }

    // `slice`; a section of a strong buffer is strong.
    method Slice(ghost pool: Pool, beg: nat, end: nat) returns (buf: Buffer)
      requires pool.Valid() && this in pool.handles
      modifies pool`handles, ref.p
      ensures pool.Valid() && fresh(buf) && pool.handles == old(pool.handles) + {buf}
      ensures ref == old(ref) && buf.ref == Sliced(ref, beg, end)
    {
      hide Count;
      buf := new Buffer.Empty(pool);
      if ref.mem != null {
        var cbeg := if beg < ref.size then beg else ref.size;
        var cend := if end < ref.size then end else ref.size;
        if cend > cbeg {
          buf.Share(pool, this);
          buf.Narrow(pool, cbeg, cend - cbeg);
        }
      }
    }

    // `copy`: its own memory, with the first bytes of this buffer; size 0 means the same size.
    method Copy(ghost pool: Pool, size: nat) returns (buf: Buffer)
      requires pool.Valid() && this in pool.handles
      modifies pool
      ensures pool.Valid() && fresh(buf) && pool.handles == old(pool.handles) + {buf}
      ensures buf.ref.size == if size == 0 then ref.size else size
      ensures buf.ref.size > 0 ==> buf.ref.p != null && fresh(buf.ref.p)
      ensures var m := if buf.ref.size < ref.size then buf.ref.size else ref.size;
              Contents(buf.ref)[..m] == Contents(ref)[..m]
      ensures ref == old(ref) && Contents(ref) == old(Contents(ref))
    {
      hide Count;
      var n := if size == 0 then ref.size else size;
      buf := new Buffer.Sized(pool, n);
      if ref.mem != null && n > 0 {
        var m := if n < ref.size then n else ref.size;
        FillFrom(buf.ref.mem, ref.mem, ref.off, m);
        assert buf.ref.mem[..n][..m] == buf.ref.mem[..m];
        assert ref.mem[ref.off..ref.off + ref.size][..m] == ref.mem[ref.off..ref.off + m];
      }
    }
  }

  // `memcpy` into memory of its own.
  method FillFrom(to: array<Byte>, from: array<Byte>, off: nat, n: nat)
    requires to != from && n <= to.Length && off + n <= from.Length
    modifies to
    ensures to[..n] == from[off..off + n]
  {
    for i := 0 to n
      invariant to[..i] == from[off..off + i]
    {
      to[i] := from[off + i];
    }
  }
}
