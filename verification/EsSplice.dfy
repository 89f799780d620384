/**
 The full `Array.prototype.splice` of es5-shim on a sparse array: the shift runs inside the one array, in the
 direction that does not overwrite what is still to be moved, and holes are moved as holes.
 */
module EsSplice {
  import opened Wrappers

  datatype Number = NaN | MinusInfinity | PlusInfinity | Finite(value: real)

  const MAX_LENGTH := 0xFFFF_FFFF

  // ----- the arguments -----

  function Least(a: int, b: int): int {
    if a <= b then a else b
  }

  function Most(a: int, b: int): int {
    if a >= b then a else b
  }

  /** The integer part, towards zero; NaN counts as 0. */
  function IntegerPart(v: real): int {
    if v > 0.0 then v.Floor else -((-v).Floor)
  }

  function StartOf(t: Number, length: nat): (u: nat)
    ensures u <= length
  {
    match t
    case NaN => 0
    case MinusInfinity => 0
    case PlusInfinity => length
    case Finite(v) =>
      var a := IntegerPart(v);
      if a < 0 then Most(length + a, 0) else Least(a, length)
  }

  function CountOf(e: Number, available: nat): (s: nat)
    ensures s <= available
  {
    match e
    case NaN => 0
    case MinusInfinity => 0
    case PlusInfinity => available
    case Finite(v) => Least(Most(IntegerPart(v), 0), available)
  }

  /** k is the integer between v and 0 that is next to v. */
  predicate Truncates(v: real, k: int) {
    (0 <= k && k as real <= v < (k + 1) as real) || (k <= 0 && (k - 1) as real < v <= k as real)
  }

  lemma TruncatesOnce(v: real, k: int)
    requires Truncates(v, k)
    ensures IntegerPart(v) == k
  {
    if v > 0.0 {
      assert v.Floor == k;
    } else {
      assert (-v).Floor == -k;
    }
  }

  lemma TruncatesSome(v: real) returns (k: int)
    ensures Truncates(v, k)
  {
    k := if v >= 0.0 then v.Floor else -((-v).Floor);
  }

  /** A start counts from the front, a negative one from the end, and both stop at the ends of the array. */
  lemma StartsAt(v: real, k: int, length: nat)
    requires Truncates(v, k)
    ensures var u := StartOf(Finite(v), length);
            && (0 <= k <= length ==> u == k)
            && (k > length ==> u == length)
            && (k < 0 && length + k >= 0 ==> u == length + k)
            && (length + k < 0 ==> u == 0)
  {
    TruncatesOnce(v, k);
  }

  /** A count is taken as it is up to all that is left behind the start; a negative one is none. */
  lemma CountsTo(v: real, k: int, available: nat)
    requires Truncates(v, k)
    ensures var s := CountOf(Finite(v), available);
            && (k < 0 ==> s == 0)
            && (0 <= k <= available ==> s == k)
            && (k > available ==> s == available)
  {
    TruncatesOnce(v, k);
  }

  lemma NoNumberArguments(length: nat)
    ensures StartOf(NaN, length) == 0 && StartOf(MinusInfinity, length) == 0 && StartOf(PlusInfinity, length) == length
    ensures CountOf(NaN, length) == 0 && CountOf(MinusInfinity, length) == 0 && CountOf(PlusInfinity, length) == length
  {
  }

  // ----- arrays as cells -----

  /** A cell is an element or a hole. */
  type Cells<T> = seq<Option<T>>

  function Filled<T>(items: seq<T>): (c: Cells<T>)
    ensures |c| == |items|
  {
    seq(|items|, i requires 0 <= i < |items| => Some(items[i]))
  }

  function Spliced<T>(cells: Cells<T>, start: nat, count: nat, items: seq<T>): Cells<T>
    requires start + count <= |cells|
  {
    cells[..start] + Filled(items) + cells[start + count..]
  }

  function At<T>(elements: map<nat, T>, i: nat): Option<T> {
    if i in elements then Some(elements[i]) else None
  }

  function CellsOf<T>(elements: map<nat, T>, length: nat): (c: Cells<T>)
    ensures |c| == length
  {
    seq(length, i requires 0 <= i < length => At(elements, i))
  }

  /** Cells from `low` up to `high` hold what was `up` cells higher; all others are unchanged. */
  ghost predicate MovedDown<T>(now: map<nat, T>, was: map<nat, T>, low: nat, high: nat, up: nat) {
    forall c: nat {:trigger At(now, c)} :: At(now, c) == if low <= c < high then At(was, c + up) else At(was, c)
  }

  /** Cells from `high` on hold what was `down` cells lower; those below `low` are unchanged. */
  ghost predicate MovedUp<T>(now: map<nat, T>, was: map<nat, T>, low: nat, high: nat, down: nat)
    requires down <= high
  {
    forall c: nat {:trigger At(now, c)} ::
      (c < low ==> At(now, c) == At(was, c)) && (c >= high ==> At(now, c) == At(was, c - down))
  }

  ghost predicate TailMoved<T>(now: map<nat, T>, was: map<nat, T>, start: nat, count: nat, p: nat, len: nat) {
    && (p < count ==> MovedDown(now, was, start + p, len, count - p) && forall c :: c in now ==> c < len - count + p)
    && (p > count ==> MovedUp(now, was, start + count, start + p, p - count))
    && (p == count ==> now == was)
  }

  ghost predicate Overwritten<T>(now: map<nat, T>, was: map<nat, T>, start: nat, items: seq<T>) {
    forall c: nat {:trigger At(now, c)} ::
      At(now, c) == if start <= c < start + |items| then Some(items[c - start]) else At(was, c)
  }

  /** The removed cells at their offsets; the length counts up to the last that is not a hole. */
  ghost predicate Copied<T>(elements: map<nat, T>, length: nat, cells: Cells<T>, start: nat, count: nat) {
    && start + count <= |cells| && length <= count
    && (forall k: nat :: k < count ==> At(elements, k) == cells[start + k])
    && (length > 0 ==> length - 1 in elements)
  }

  class SparseArray<T> {
    var elements: map<nat, T>
    var length: nat

    ghost predicate Valid()
      reads this
    {
      length <= MAX_LENGTH && forall i :: i in elements ==> i < length
    }

    ghost function Cells(): (c: Cells<T>)
      reads this
      ensures |c| == length
    {
      CellsOf(elements, length)
    }

    constructor ()
      ensures Valid() && elements == map[] && length == 0
    {
      elements, length := map[], 0;
    }

    /** An index from 2^32 - 1 on is an ordinary property and leaves the length alone. */
    method Put(i: nat, value: T)
      modifies this
      ensures elements == old(elements)[i := value]
      ensures forall c: nat :: At(elements, c) == if c == i then Some(value) else At(old(elements), c)
      ensures length == if i < MAX_LENGTH && i >= old(length) then i + 1 else old(length)
    {
      elements := elements[i := value];
      if i < MAX_LENGTH && i >= length {
        length := i + 1;
      }
    }

    method Delete(i: nat)
      modifies this`elements
      ensures forall c: nat :: At(elements, c) == if c == i then None else At(old(elements), c)
    {
      elements := elements - {i};
    }

    method Move(from: nat, to: nat)
      modifies this
      ensures forall c: nat :: At(elements, c) == if c == to then At(old(elements), from) else At(old(elements), c)
    {
      if from in elements {
        Put(to, elements[from]);
      } else {
        Delete(to);
      }
    }

    method SetLength(newLength: nat)
      requires newLength <= MAX_LENGTH && forall i :: i in elements ==> i < newLength
      modifies this`length
      ensures length == newLength
    {
      length := newLength;
    }

    method CopyOut(start: nat, count: nat) returns (removed: SparseArray<T>)
      requires Valid() && start + count <= length
      ensures fresh(removed) && removed.Valid()
      ensures Copied(removed.elements, removed.length, Cells(), start, count)
    {
      removed := new SparseArray();
      var l := 0;
      while l < count
        invariant 0 <= l <= count && fresh(removed) && removed.Valid() && removed.length <= l
        invariant forall k: nat :: At(removed.elements, k) == if k < l then At(elements, start + k) else None
        invariant removed.length > 0 ==> removed.length - 1 in removed.elements
      {
        if start + l in elements {
          removed.Put(l, elements[start + l]);
        }
        l := l + 1;
      }
    }

    /** Fewer items than are removed: the tail moves down from its first cell on, and what is left over is deleted. */
    method CloseGap(start: nat, count: nat, p: nat, len: nat)
      requires start + count <= len && p < count && forall c :: c in elements ==> c < len
      modifies this
      ensures MovedDown(elements, old(elements), start + p, len, count - p)
      ensures forall c :: c in elements ==> c < len - count + p
    {
      ghost var was := elements;
      var l := start;
      while l < len - count
        invariant start <= l <= len - count
        invariant MovedDown(elements, was, start + p, l + p, count - p)
      {
        Move(l + count, l + p);
        l := l + 1;
      }
      ghost var moved := elements;
      l := len;
      while l > len - count + p
        invariant len - count + p <= l <= len
        invariant forall c: nat :: At(elements, c) == if l <= c then None else At(moved, c)
      {
        Delete(l - 1);
        l := l - 1;
      }
      forall c | c in elements ensures c < len - count + p {
        assert At(elements, c).Some?;
      }
    }

    /** More items than are removed: the tail moves up from its last cell on. */
    method OpenGap(start: nat, count: nat, p: nat, len: nat)
      requires start + count <= len && p > count && forall c :: c in elements ==> c < len
      modifies this
      ensures MovedUp(elements, old(elements), start + count, start + p, p - count)
    {
      ghost var was := elements;
      var l := len - count;
      while l > start
        invariant start <= l <= len - count
        invariant MovedUp(elements, was, l + count, l + p, p - count)
      {
        Move(l + count - 1, l + p - 1);
        l := l - 1;
      }
    }

    method WriteItems(start: nat, items: seq<T>)
      modifies this
      ensures Overwritten(elements, old(elements), start, items)
    {
      var l, g := start, 0;
      while g < |items|
        invariant 0 <= g <= |items| && l == start + g
        invariant forall c: nat :: At(elements, c) == if start <= c < l then Some(items[c - start]) else At(old(elements), c)
      {
        Put(l, items[g]);
        l, g := l + 1, g + 1;
      }
    }

    /** The tail is moved to where it belongs. */
    method MakeRoom(start: nat, count: nat, p: nat, len: nat)
      requires start + count <= len && forall c :: c in elements ==> c < len
      modifies this
      ensures TailMoved(elements, old(elements), start, count, p, len)
    {
      if p < count {
        CloseGap(start, count, p, len);
      } else if p > count {
        OpenGap(start, count, p, len);
      }
    }

    /** A result longer than an array can be throws when the length is set at last. */
    method Splice(t: Number, e: Number, items: seq<T>) returns (removed: Option<SparseArray<T>>)
      requires Valid()
      modifies this
      ensures var u := StartOf(t, old(length));
              var s := CountOf(e, old(length) - u);
              && (removed.Some? <==> old(length) - s + |items| <= MAX_LENGTH)
              && (removed.Some? ==> Valid() && Cells() == Spliced(old(Cells()), u, s, items)
                                    && fresh(removed.value) && removed.value.Valid()
                                    && Copied(removed.value.elements, removed.value.length, old(Cells()), u, s))
    {
      hide StartOf, CountOf, Spliced, CellsOf, Copied, Overwritten, TailMoved;
      var len := length;
      var u := StartOf(t, len);
      var s := CountOf(e, len - u);
      ghost var before := elements;
      var o := CopyOut(u, s);
      var p := |items|;
      MakeRoom(u, s, p, len);
      ghost var shifted := elements;
      WriteItems(u, items);
      SplicedCells(before, shifted, elements, len, u, s, items);
      if len - s + p > MAX_LENGTH {
        return None;
      }
      SetLength(len - s + p);
      removed := Some(o);
    }
  }

  lemma SplicedCells<T>(was: map<nat, T>, shifted: map<nat, T>, now: map<nat, T>, len: nat, u: nat, s: nat, items: seq<T>)
    requires u + s <= len && forall c :: c in was ==> c < len
    requires TailMoved(shifted, was, u, s, |items|, len) && Overwritten(now, shifted, u, items)
    ensures forall c :: c in now ==> c < len - s + |items|
    ensures CellsOf(now, len - s + |items|) == Spliced(CellsOf(was, len), u, s, items)
  {
    var p := |items|;
    forall c | c in now ensures c < len - s + p {
      assert At(now, c).Some?;
      if c >= u + p {
        assert At(shifted, c).Some?;
        if p > s {
          assert At(was, c - (p - s)).Some?;
        }
      }
    }
    var a, b := CellsOf(now, len - s + p), Spliced(CellsOf(was, len), u, s, items);
    assert |a| == |b|;
    forall c | 0 <= c < |a| ensures a[c] == b[c] {
      assert a[c] == At(now, c);
      if c >= u + p {
        assert b[c] == At(was, c - p + s);
        assert At(now, c) == At(shifted, c);
        if p < s {
          assert At(shifted, c) == At(was, c + (s - p));
        } else if p > s {
          assert At(shifted, c) == At(was, c - (p - s));
        }
      }
    }
  }

  /** Cell by cell: what was before the start, then the items, then what was behind the removed cells. */
  lemma SplicedAt<T>(cells: Cells<T>, start: nat, count: nat, items: seq<T>, k: nat)
    requires start + count <= |cells|
    ensures var r := Spliced(cells, start, count, items);
            && |r| + count == |cells| + |items|
            && (k < start ==> r[k] == cells[k])
            && (k < |items| ==> r[start + k] == Some(items[k]))
            && (start + count + k < |cells| ==> r[start + |items| + k] == cells[start + count + k])
  {
  }

  /**
   Whole calls with one whole number as start: from the end for a negative one. What is removed is as many cells as the
   count says and there are, and every other cell stays, in order.
   */
  lemma SpliceCalls<T>(cells: Cells<T>, k: int, n: int, items: seq<T>)
    requires 0 <= |cells| + k && k <= |cells|
    ensures var from := if k >= 0 then k else |cells| + k;
            var gone := if n <= 0 then 0 else if from + n <= |cells| then n else |cells| - from;
            var u := StartOf(Finite(k as real), |cells|);
            var s := CountOf(Finite(n as real), |cells| - u);
            u == from && s == gone
            && Spliced(cells, u, s, items) == cells[..from] + Filled(items) + cells[from + gone..]
  {
    WholeTruncates(k);
    WholeTruncates(n);
    StartsAt(k as real, k, |cells|);
    CountsTo(n as real, n, |cells| - StartOf(Finite(k as real), |cells|));
  }

  lemma WholeTruncates(k: int)
    ensures Truncates(k as real, k)
  {
  }

  // ----- what one call undoes -----

  predicate Dense<T>(cells: Cells<T>) {
    forall i :: 0 <= i < |cells| ==> cells[i].Some?
  }

  function Contents<T>(cells: Cells<T>): (items: seq<T>)
    requires Dense(cells)
    ensures |items| == |cells|
  {
    seq(|cells|, i requires 0 <= i < |cells| => cells[i].value)
  }

  /** Putting back what was removed, in place of what was inserted, restores the array exactly when
      there was no hole among the removed cells: items are always elements. */
  lemma SpliceUndone<T>(cells: Cells<T>, start: nat, count: nat, items: seq<T>, back: seq<T>)
    requires start + count <= |cells|
    ensures |Spliced(cells, start, count, items)| >= start + |items|
    ensures Spliced(Spliced(cells, start, count, items), start, |items|, back) == cells
       <==> Dense(cells[start..start + count]) && back == Contents(cells[start..start + count])
  {
    var mid := Spliced(cells, start, count, items);
    assert mid[..start] == cells[..start] && mid[start + |items|..] == cells[start + count..];
    var again := Spliced(mid, start, |items|, back);
    var gone := cells[start..start + count];
    assert cells == cells[..start] + gone + cells[start + count..];
    if Dense(gone) && back == Contents(gone) {
      assert Filled(back) == gone;
    }
    if again == cells {
      assert |back| == count;
      assert again[start..start + count] == Filled(back);
      assert gone == Filled(back);
      assert forall i :: 0 <= i < count ==> gone[i] == Some(back[i]);
      assert back == Contents(gone);
    }
  }

  /** Two splices at the ends of a range that do not meet can be made in either order. */
  lemma SplicesCommute<T>(cells: Cells<T>, a: nat, m: nat, x: seq<T>, b: nat, n: nat, y: seq<T>)
    requires a + m <= b && b + n <= |cells|
    ensures a + m <= |Spliced(cells, b, n, y)| && b - m + |x| + n <= |Spliced(cells, a, m, x)|
    ensures Spliced(Spliced(cells, b, n, y), a, m, x) == Spliced(Spliced(cells, a, m, x), b - m + |x|, n, y)
  {
    var high, low := Spliced(cells, b, n, y), Spliced(cells, a, m, x);
    var middle := cells[a + m..b];
    assert high[..a] == cells[..a] && high[a + m..] == middle + Filled(y) + cells[b + n..];
    var at := b - m + |x|;
    assert low[..at] == cells[..a] + Filled(x) + middle && low[at + n..] == cells[b + n..];
  }
}
