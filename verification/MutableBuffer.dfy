/**
 `node::mutable_buffer`: growth by half, appending, printing numbers and resizing. Sizes
 are unbounded here: the sums of the source overflow only for buffers that cannot be
 allocated.
 */
module MutableBuffer {
  import opened Common
  import opened Numbers

  // `std::max({ 16, size, capacity + (capacity >> 1) })`
  function Grow(size: nat, capacity: nat): nat {
    Max(16, Max(size, capacity + capacity / 2))
  }

  // What one appending call adds.
  datatype Op = Append(text: string) | PushBack(c: char) | Number(n: nat, base: nat)

  // Appends whose result is specified: see MutableBuffer.AppendNumber for the rest.
  predicate Printable(op: Op) {
    op.Number? ==> op.n < TWO_TO_THE_64 && (op.base == 10 || (op.n > 0 && op.base in {2, 4, 8, 16, 32}))
  }

  function Added(op: Op): string
    requires Printable(op)
  {
    match op
    case Append(text) => text
    case PushBack(c) => [c]
    case Number(n, base) => Notation(n, base)
  }

  function AllAdded(ops: seq<Op>): string
    requires forall i :: 0 <= i < |ops| ==> Printable(ops[i])
  {
    if |ops| == 0 then [] else AllAdded(ops[..|ops| - 1]) + Added(ops[|ops| - 1])
  }

  // How `append_number` ends.
  datatype Printing = Printed | DividesByZero | OutOfBounds

  // `chars[(n / div) % base]`
  function Picked(n: nat, base: nat, div: nat): char
    requires 2 <= base <= 36 && div > 0
  {
    QuotientNat(n, div);
    QuotientRemainder(n / div, base);
    Digit(n / div % base)
  }

  lemma QuotientNat(n: nat, div: nat)
    requires div > 0
    ensures n / div >= 0
  {}

  // What its loop writes.
  function Quotients(n: nat, base: nat, div: nat): string
    requires 2 <= base <= 36
    decreases div
  {
    if div == 0 then []
    else
      QuotientRemainder(div, base);
      [Picked(n, base, div)] + Quotients(n, base, div / base)
  }

  lemma QuotientsStep(n: nat, base: nat, div: nat)
    requires 2 <= base <= 36
    ensures div == 0 ==> Quotients(n, base, div) == []
    ensures div > 0 ==> Quotients(n, base, div) == [Picked(n, base, div)] + Quotients(n, base, div / base)
    ensures div > 0 ==> div / base < div
  {
    hide Picked;
    QuotientRemainder(div, base);
  }

  lemma {:induction false} QuotientsLength(n: nat, base: nat, div: nat)
    requires 2 <= base <= 36
    ensures |Quotients(n, base, div)| == if div == 0 then 0 else |Notation(div, base)|
    decreases div
  {
    hide Digit, Picked;
    if div > 0 {
      QuotientRemainder(div, base);
      QuotientsLength(n, base, div / base);
      if div < base {
        QuotientIs(div, base, 0, div);
      }
    }
  }

  // Started with the right power, the loop prints the last digits, as many as that has.
  lemma {:induction false} QuotientsAreDigits(n: nat, base: nat, length: nat)
    requires 2 <= base <= 36 && 0 < length <= |Notation(n, base)|
    ensures Quotients(n, base, Pow(base, length - 1)) == Notation(n, base)[|Notation(n, base)| - length..]
    decreases length
  {
    hide Pow, Notation, Digit;
    var text := Notation(n, base);
    NotationAt(n, base, |text| - length);
    PowQuotient(base, length - 1);
    if length > 1 {
      QuotientsAreDigits(n, base, length - 1);
    }
    assert text[|text| - length..] == [text[|text| - length]] + text[|text| - length + 1..];
  }

  // The first divisor of the loop.
  function FirstDivisor(base: nat, length: nat): nat {
    Pow(base, if length == 0 then TWO_TO_THE_64 - 1 else length - 1) % TWO_TO_THE_64
  }

  // With any digits at all the loop prints the last ones, as many as there are; without, it
  // divides by zero in the even bases.
  lemma LoopPrints(n: nat, base: nat, length: nat)
    requires n < TWO_TO_THE_64 && 2 <= base <= 36 && length <= |Notation(n, base)|
    ensures var text, div := Notation(n, base), FirstDivisor(base, length);
            && (length > 0 ==> Quotients(n, base, div) == text[|text| - length..])
            && (div == 0 <==> length == 0 && base % 2 == 0)
            && |Quotients(n, base, div)| == (if div == 0 then 0 else |Notation(div, base)|)
  {
    hide Pow, Notation, Quotients;
    QuotientsLength(n, base, FirstDivisor(base, length));
    if length > 0 {
      DivisorExact(n, base, length);
      SmallRemainder(Pow(base, length - 1), TWO_TO_THE_64);
      QuotientsAreDigits(n, base, length);
    } else {
      NoDigitsDivisor(base, TWO_TO_THE_64 - 1);
    }
  }

  lemma LogsAre(n: nat, base: nat, logs: nat)
    requires 2 <= base <= 36
    ensures !Covered(base) ==> Digits(n, base, logs) == logs
    ensures n >= base ==> FloorLog(n, base) > 0
  {}

  class Buffer {
    var data: array?<char>
    var size: nat
    var capacity: nat
    ghost var copied: nat // bytes moved by reallocations so far

    ghost predicate Valid()
      reads this
    {
      if data == null then size == 0 && capacity == 0 else data.Length == capacity && size <= capacity
    }

    ghost function Contents(): string
      requires Valid()
      reads this, data
    {
      if data == null then [] else data[..size]
    }

    // Nothing but appends since the buffer was empty: the capacity is within half of the
    // size, and all reallocations together moved at most 17/8 of the capacity.
    ghost predicate Grown()
      reads this
    {
      && size <= capacity <= Max(16, size + size / 2)
      && (capacity == 0 || capacity >= 16)
      && 8 * copied <= 17 * capacity
    }

    constructor ()
      ensures Valid() && Grown() && Contents() == [] && data == null
    {
      data := null;
      size, capacity, copied := 0, 0, 0;
    }

    method Text() returns (text: string)
      requires Valid()
      ensures text == Contents()
    {
      text := if data == null then "" else data[..size];
    }

    // `*this = this->copy(n); this->_capacity = this->_size;`
    method Reallocate(n: nat)
      requires Valid() && n > 0
      modifies this
      ensures Valid() && data != null && fresh(data)
      ensures capacity == n && size == Min(old(size), n)
      ensures Contents() == old(Contents())[..Min(old(size), n)]
      ensures copied == old(copied) + Min(old(size), n)
    {
      var store := new char[n];
      var moved := Min(size, n);
      if data != null {
        forall i | 0 <= i < moved {
          store[i] := data[i];
        }
      }
      copied := copied + moved;
      data, size, capacity := store, moved, n;
    }

    // `_expand_size`: the position after the old end, if there is storage at all.
    method ExpandSize(n: nat) returns (p: nat)
      requires Valid()
      modifies this
      ensures Valid() && p == old(size) && size == old(size) + n
      ensures data == old(data) || (data != null && fresh(data))
      ensures old(data) == null && n == 0 <==> data == null
      ensures old(size) + n <= old(capacity) ==> data == old(data) && capacity == old(capacity)
      ensures Contents()[..p] == old(Contents())
      ensures old(Grown()) ==> Grown()
    {
      p := size;
      var newSize := n + p;
      if newSize > capacity {
        ghost var c := Grow(newSize, capacity);
        assert old(Grown()) ==> 8 * (copied + size) <= 17 * c by {
          if Grown() {
            GrowthPays(copied, size, newSize, capacity);
          }
        }
        Reallocate(Grow(newSize, capacity));
      }
      size := newSize;
    }

    method Append(text: string)
      requires Valid()
      modifies this, data
      ensures Valid() && Contents() == old(Contents()) + text
      ensures data == old(data) || (data != null && fresh(data))
      ensures old(Grown()) ==> Grown()
    {
      var p := ExpandSize(|text|);
      if data != null {
        forall i | 0 <= i < |text| {
          data[p + i] := text[i];
        }
      }
    }

    // `push_back` of a one-byte character.
    method PushBack(c: char)
      requires Valid()
      modifies this, data
      ensures Valid() && Contents() == old(Contents()) + [c]
      ensures data == old(data) || (data != null && fresh(data))
      ensures old(Grown()) ==> Grown()
    {
      var p := ExpandSize(1);
      data[p] := c;
    }

    // `append_number`, where logs is what the quotient of the logarithms is truncated to in the
    // bases left to them: as many of the last digits are printed, all but the first one if
    // the logarithms are exact. If there are no digits at all, as of zero in a power-of-two
    // base, an even base divides by zero, because the divisor base^(2^64 - 1) is truncated, and
    // an odd one writes the quotients behind the contents; without storage the loop is skipped.
    method AppendNumber(n: nat, base: nat, logs: nat) returns (r: Printing)
      requires Valid() && n < TWO_TO_THE_64
      requires 2 <= base <= 36 && !Covered(base) ==> logs <= |Notation(n, base)|
      modifies this, data
      ensures Valid()
      ensures data == old(data) || (data != null && fresh(data))
      ensures old(Grown()) ==> Grown()
      ensures base < 2 || base > 36 ==> r == Printed && Contents() == old(Contents())
      ensures Printable(Number(n, base)) ==> r == Printed && Contents() == old(Contents()) + Notation(n, base)
      ensures 2 <= base <= 36 && !Covered(base) && logs > 0 ==>
        r == Printed && Contents() == old(Contents()) + Notation(n, base)[|Notation(n, base)| - logs..]
      ensures 2 <= base <= 36 && !Covered(base) && logs == FloorLog(n, base) && n >= base ==>
        r == Printed && Contents() == old(Contents()) + Notation(n, base)[1..]
      ensures 2 <= base <= 36 && (if Covered(base) then n == 0 && base != 10 else logs == 0) ==>
        && Contents() == old(Contents())
        && r == if old(data) == null then Printed
                else if base % 2 == 0 then DividesByZero
                else if old(capacity - size) >= |Notation(FirstDivisor(base, 0), base)| then Printed
                else OutOfBounds
    {
      hide Pow, Notation, Digits, Grown, Quotients;
      r := Printed;
      if 2 <= base <= 36 {
        var length := Digits(n, base, logs);
        DigitsExact(n, base, logs);
        LogsAre(n, base, logs);
        LoopPrints(n, base, length);
        var div := Ipow(base, if length == 0 then TWO_TO_THE_64 - 1 else length - 1);
        ghost var prefix := Contents();
        var p := ExpandSize(length);
        if data != null {
          if div == 0 {
            return DividesByZero;
          }
          assert data[..p] == prefix;
          r := PrintDigits(p, n, base, div);
        }
      }
    }

    // The loop of append_number, writing at position p0.
    method PrintDigits(p0: nat, n: nat, base: nat, div0: nat) returns (r: Printing)
      requires Valid() && data != null && 2 <= base <= 36 && p0 <= capacity && div0 > 0
      modifies data
      ensures Valid() && data[..p0] == old(data[..p0])
      ensures r == if p0 + |Quotients(n, base, div0)| <= capacity then Printed else OutOfBounds
      ensures r == Printed ==>
        data[..p0 + |Quotients(n, base, div0)|] == old(data[..p0]) + Quotients(n, base, div0)
    {
      hide Picked, Quotients;
      ghost var prefix, text := data[..p0], Quotients(n, base, div0);
      var p: nat, div: nat := p0, div0;
      while div > 0
        invariant p0 <= p <= capacity && data[..p0] == prefix
        invariant data[..p] + Quotients(n, base, div) == prefix + text
        decreases div
      {
        QuotientsStep(n, base, div);
        ghost var rest := Quotients(n, base, div / base);
        if p == capacity {
          return OutOfBounds;
        }
        data[p] := Picked(n, base, div);
        assert data[..p + 1] + rest == data[..p] + ([data[p]] + rest);
        p := p + 1;
        div := div / base;
      }
      QuotientsStep(n, base, 0);
      assert data[..p] + [] == data[..p];
      r := Printed;
    }

    // `set_size`: exactly the size asked for, the same bound on the capacity, and the
    // common prefix of the old contents.
    method SetSize(n: nat)
      requires Valid()
      modifies this
      ensures Valid() && size == n && size <= capacity <= Max(16, size + size / 2)
      ensures data == old(data) || (data != null && fresh(data))
      ensures Contents()[..Min(old(size), n)] == old(Contents())[..Min(old(size), n)]
    {
      if n > capacity {
        Reallocate(Grow(n, capacity));
      } else if n + n / 2 <= capacity {
        Reallocate(Max(16, n));
      }
      size := Min(capacity, n);
    }

    // `set_capacity`: room for n bytes; contents beyond n are cut off.
    method SetCapacity(n: nat)
      requires Valid()
      modifies this
      ensures Valid() && n <= capacity <= Max(16, n + n / 2)
      ensures data == old(data) || (data != null && fresh(data))
      ensures Contents() == old(Contents())[..Min(old(size), n)]
    {
      var before := size;
      SetSize(n);
      if size > before {
        size := before;
      }
    }

    // `clear` keeps the storage, `reset` drops it.
    method Clear()
      requires Valid()
      modifies this
      ensures Valid() && Contents() == [] && data == old(data) && capacity == old(capacity)
    {
      size := 0;
    }

    method Reset()
      requires Valid()
      modifies this
      ensures Valid() && Contents() == [] && capacity == 0 && data == null
    {
      data := null;
      size, capacity := 0, 0;
    }
  }

  lemma PowQuotient(b: nat, e: nat)
    requires b >= 2
    ensures Pow(b, e) > 0
    ensures Pow(b, e) / b == if e == 0 then 0 else Pow(b, e - 1)
  {
    PowPositive(b, e);
    if e == 0 {
      QuotientIs(1, b, 0, 1);
    } else {
      QuotientIs(Pow(b, e), b, Pow(b, e - 1), 0);
    }
  }

  // Every run of appends on an empty buffer: the contents are the concatenation, the size
  // and capacity bounds hold, and the total copying is linear in the final capacity.
  method Run(ops: seq<Op>) returns (buffer: Buffer)
    requires forall i :: 0 <= i < |ops| ==> Printable(ops[i])
    ensures fresh(buffer) && buffer.Valid() && buffer.Contents() == AllAdded(ops)
    ensures buffer.size <= buffer.capacity <= Max(16, buffer.size + buffer.size / 2)
    ensures 8 * buffer.copied <= 17 * buffer.capacity
  {
    hide Added;
    buffer := new Buffer();
    for k := 0 to |ops|
      invariant fresh(buffer) && (buffer.data == null || fresh(buffer.data))
      invariant buffer.Valid() && buffer.Grown() && buffer.Contents() == AllAdded(ops[..k])
    {
      assert ops[..k + 1][..k] == ops[..k];
      AddedIs(ops[k]);
      match ops[k] {
        case Append(text) => buffer.Append(text);
        case PushBack(c) => buffer.PushBack(c);
        case Number(n, base) => var printed := buffer.AppendNumber(n, base, 0);
      }
    }
    assert ops[..|ops|] == ops;
  }

  lemma AddedIs(op: Op)
    requires Printable(op)
    ensures op.Append? ==> Added(op) == op.text
    ensures op.PushBack? ==> Added(op) == [op.c]
    ensures op.Number? ==> Added(op) == Notation(op.n, op.base)
  {}

  // The potential argument behind the amortised cost.
  lemma GrowthPays(copied: nat, size: nat, newSize: nat, capacity: nat)
    requires newSize > capacity >= size && (capacity == 0 || capacity >= 16) && 8 * copied <= 17 * capacity
    ensures var c := Grow(newSize, capacity);
            8 * (copied + size) <= 17 * c && c >= 16 && newSize <= c <= Max(16, newSize + newSize / 2)
  {}
}
