/** The overwrite-on-overflow byte ring of src/ring_buffer.c, with the 64-bit
    wrap of its head and tail written out. */
module RingBuffer {
  import opened Modular

  // Number of values of a size_t.
  const WORD := 0x1_0000_0000_0000_0000

  /** The newest n elements of s. */
  function Newest<T>(s: seq<T>, n: nat): seq<T> {
    if |s| <= n then s else s[|s| - n..]
  }

  /** Dropping early or late makes no difference: what survives depends only on
      everything that was ever appended, not on how the appends were split. */
  lemma NewestOfNewest<T>(s: seq<T>, t: seq<T>, n: nat)
    ensures Newest(Newest(s, n) + t, n) == Newest(s + t, n)
  {
    if |s| > n {
      assert (s[|s| - n..] + t)[|t|..] == (s + t)[|s| + |t| - n..];
    }
  }

  lemma NewestOfFew<T>(s: seq<T>, n: nat)
    requires |s| <= n
    ensures Newest(s, n) == s
  {
  }

  lemma NewestOfOneMore<T>(s: seq<T>, c: T, n: nat)
    requires |s| <= n
    ensures Newest(s + [c], n) == if |s| < n then s + [c] else (s + [c])[1..]
  {
  }

  lemma NewestStep<T>(s: seq<T>, data: seq<T>, i: nat, n: nat)
    requires i < |data|
    ensures Newest(Newest(s + data[..i], n) + [data[i]], n) == Newest(s + data[..i + 1], n)
    ensures data[..i + 1] == data[..i] + [data[i]]
  {
    NewestOfNewest(s + data[..i], [data[i]], n);
    assert s + data[..i] + [data[i]] == s + data[..i + 1];
  }

  /** head - tail in size_t arithmetic. */
  function Distance(head: nat, tail: nat): (d: nat)
    requires head < WORD && tail < WORD
  {
    (head - tail) % WORD
  }

  /** The index updates of one append, told without the wrap: n bytes so far,
      `gone` of them no longer there. */
  lemma AppendIndices(n: nat, gone: nat, capacity: nat)
    requires gone <= n < gone + capacity && capacity < WORD
    ensures (n % WORD + 1) % WORD == (n + 1) % WORD
    ensures Distance((n + 1) % WORD, gone % WORD) == n + 1 - gone
    ensures n + 1 - gone == capacity ==> ((n + 1) % WORD - capacity + 1) % WORD == (gone + 1) % WORD
  {
    ModAdd(n, 1, WORD);
    DistanceOfWrapped(n + 1, gone);
    ModAdd(n + 1, 1 - capacity, WORD);
  }

  lemma MoveFirst<T>(a: seq<T>, b: seq<T>)
    requires b != []
    ensures a + [b[0]] + b[1..] == a + b
  {
  }

  lemma DistanceOfWrapped(n: nat, k: nat)
    requires k <= n < k + WORD
    ensures Distance(n % WORD, k % WORD) == n - k
  {
    var q := n / WORD - k / WORD;
    ModUnique(n % WORD - k % WORD, WORD, -q, n - k);
  }

  /** Where byte number x of the input lives: x mod capacity, by subtraction. */
  function Slot(x: nat, capacity: nat): (i: nat)
    requires 0 < capacity
    ensures i < capacity
  {
    if x < capacity then x else Slot(x - capacity, capacity)
  }

  lemma {:induction false} SlotIsMod(x: nat, capacity: nat)
    requires 0 < capacity
    ensures Slot(x, capacity) == x % capacity
  {
    if x < capacity {
      ModUnique(x, capacity, 0, x);
    } else {
      SlotIsMod(x - capacity, capacity);
      AddMultiple(x - capacity, 1, capacity);
    }
  }

  /** n is a multiple of m, by subtraction. */
  predicate MultipleOf(n: nat, m: nat)
    requires 0 < m
  {
    n == 0 || (m <= n && MultipleOf(n - m, m))
  }

  lemma {:induction false} MultipleIsMod(n: nat, m: nat)
    requires 0 < m
    ensures MultipleOf(n, m) <==> n % m == 0
  {
    if n < m {
      ModUnique(n, m, 0, n);
    } else {
      MultipleIsMod(n - m, m);
      AddMultiple(n - m, 1, m);
    }
  }

  lemma SlotsDiffer(x: nat, y: nat, capacity: nat)
    requires x < y < x + capacity
    ensures Slot(x, capacity) != Slot(y, capacity)
  {
    SlotIsMod(x, capacity);
    SlotIsMod(y, capacity);
    ModDiffer(x, y, capacity);
  }

  /** The slot computed from a wrapped 64-bit index. */
  lemma SlotOfIndex(x: nat, capacity: nat)
    requires 0 < capacity && MultipleOf(WORD, capacity)
    ensures x % WORD % capacity == Slot(x, capacity)
  {
    MultipleIsMod(WORD, capacity);
    SlotIsMod(x, capacity);
    SlotAfterWrap(x, capacity);
  }

  /** Slots do not notice the wrap of a 64-bit index. */
  lemma SlotAfterWrap(x: nat, capacity: nat)
    requires 0 < capacity && WORD % capacity == 0
    ensures x % WORD % capacity == x % capacity
  {
    ModOfMod(x, WORD, capacity);
  }

  predicate NextSlotIsNext(h: nat, capacity: nat)
    requires 0 < capacity && h < WORD
  {
    (h + 1) % WORD % capacity == (h % capacity + 1) % capacity
  }

  /** A wrapping index always moves on by one slot exactly when the capacity
      divides 2^64, as 131072 does. */
  lemma WrapKeepsSlotsIffDivides(capacity: nat)
    requires 0 < capacity < WORD
    ensures (forall h: nat | h < WORD :: NextSlotIsNext(h, capacity)) <==> WORD % capacity == 0
  {
    if WORD % capacity == 0 {
      forall h: nat | h < WORD ensures NextSlotIsNext(h, capacity) {
        SlotAfterWrap(h + 1, capacity);
        ModAdd(h, 1, capacity);
      }
    } else {
      LastIndexSkips(capacity);
    }
  }

  lemma LastIndexSkips(capacity: nat)
    requires 0 < capacity < WORD && WORD % capacity != 0
    ensures !NextSlotIsNext(WORD - 1, capacity)
  {
    ModAdd(WORD - 1, 1, capacity);
    ModUnique(0, capacity, 0, 0);
  }

  class Ring {
    const buffer: array<char>
    var head: nat
    var tail: nat

    // The input so far is Gone + Unread: the bytes handed to a reader or
    // overwritten before anyone read them, then those a reader has yet to see.
    ghost var Gone: seq<char>
    ghost var Unread: seq<char>
    ghost var ReadBytes: nat
    ghost var Dropped: nat

    ghost predicate Valid()
      reads this, buffer
      ensures Valid() ==> |Unread| < buffer.Length
    {
      && 0 < buffer.Length < WORD && MultipleOf(WORD, buffer.Length)
      && |Gone| == ReadBytes + Dropped && |Unread| < buffer.Length
      && head == (|Gone| + |Unread|) % WORD && tail == |Gone| % WORD
      && Stored(|Gone|, Unread)
    }

    /** The slots of the indices from g on hold these bytes. */
    ghost predicate Stored(g: nat, bytes: seq<char>)
      requires 0 < buffer.Length
      reads buffer
    {
      forall k: nat {:trigger Slot(k, buffer.Length)} :: g <= k < g + |bytes| ==>
        buffer[Slot(k, buffer.Length)] == bytes[k - g]
    }

    lemma StoredSuffix(g: nat, bytes: seq<char>, n: nat)
      requires 0 < buffer.Length && Stored(g, bytes) && n <= |bytes|
      ensures Stored(g + n, bytes[n..])
    {
    }

    /** Writing behind bytes that leave a slot free. */
    method StoreByte(ghost g: nat, ghost bytes: seq<char>, c: char, slot: nat)
      requires |bytes| < buffer.Length && Stored(g, bytes) && slot == Slot(g + |bytes|, buffer.Length)
      modifies buffer
      ensures Stored(g, bytes + [c])
    {
      hide Slot;
      ghost var n := g + |bytes|;
      forall k: nat | g <= k < n ensures Slot(k, buffer.Length) != slot {
        SlotsDiffer(k, n, buffer.Length);
      }
      buffer[slot] := c;
    }

    constructor (capacity: nat)
      requires 0 < capacity < WORD && WORD % capacity == 0
      ensures Valid() && fresh(buffer) && buffer.Length == capacity
      ensures Gone == [] && Unread == []
    {
      MultipleIsMod(WORD, capacity);
      buffer := new char[capacity];
      head, tail := 0, 0;
      Gone, Unread, ReadBytes, Dropped := [], [], 0, 0;
    }

    /** One round of the loop in ring_append. */
    method AppendByte(c: char)
      requires Valid()
      modifies this, buffer
      ensures Valid() && ReadBytes == old(ReadBytes)
      ensures Unread == Newest(old(Unread) + [c], buffer.Length - 1)
      ensures Gone + Unread == old(Gone + Unread) + [c]
    {
      hide Slot, MultipleOf, Distance, Newest, Stored;
      NewestOfOneMore(Unread, c, buffer.Length - 1);
      ghost var n := |Gone| + |Unread|;
      var cap := buffer.Length;
      SlotOfIndex(n, cap);
      StoreByte(|Gone|, Unread, c, head % cap);
      AppendIndices(n, |Gone|, cap);
      head := (head + 1) % WORD;
      Unread := Unread + [c];
      assert Gone + Unread == old(Gone + Unread) + [c];
      if Distance(head, tail) >= cap {
        MoveFirst(Gone, Unread);
        StoredSuffix(|Gone|, Unread, 1);
        tail := (head - cap + 1) % WORD;
        Gone, Unread, Dropped := Gone + [Unread[0]], Unread[1..], Dropped + 1;
      }
    }

    /** ring_append: the unread bytes become the newest capacity-1 of all of
        them. No byte is lost uncounted: Gone grows by exactly what Dropped says. */
    method Append(data: seq<char>)
      requires Valid()
      modifies this, buffer
      ensures Valid() && ReadBytes == old(ReadBytes)
      ensures Unread == Newest(old(Unread) + data, buffer.Length - 1)
      ensures Gone + Unread == old(Gone + Unread) + data
    {
      hide Valid, Newest;
      NewestOfFew(Unread, buffer.Length - 1);
      assert Unread + data[..0] == Unread && Gone + Unread + data[..0] == Gone + Unread;
      for i := 0 to |data|
        invariant Valid() && ReadBytes == old(ReadBytes)
        invariant Unread == Newest(old(Unread) + data[..i], buffer.Length - 1)
        invariant Gone + Unread == old(Gone + Unread) + data[..i]
      {
        AppendByte(data[i]);
        NewestStep(old(Unread), data, i, buffer.Length - 1);
      }
      assert data[..|data|] == data;
    }

    /** ring_read: the oldest unread bytes, at most dest.Length-1 of them. */
    method Read(dest: array<char>) returns (available: nat)
      requires Valid() && dest.Length > 0 && dest != buffer
      modifies this, dest
      ensures Valid() && Dropped == old(Dropped) && ReadBytes == old(ReadBytes) + available
      ensures available == if |old(Unread)| >= dest.Length then dest.Length - 1 else |old(Unread)|
      ensures dest[..available] == old(Unread)[..available] && dest[available] == '\0'
      ensures Unread == old(Unread)[available..] && Gone == old(Gone) + old(Unread)[..available]
    {
      hide Slot, MultipleOf, Distance, Stored;
      DistanceOfWrapped(|Gone| + |Unread|, |Gone|);
      available := Distance(head, tail);
      if available >= dest.Length { available := dest.Length - 1; }
      CopyOldest(dest, available);
      dest[available] := '\0';
      StoredSuffix(|Gone|, Unread, available);
      ModAdd(|Gone|, available, WORD);
      tail := (tail + available) % WORD;
      ReadBytes := ReadBytes + available;
      Gone, Unread := Gone + Unread[..available], Unread[available..];
    }

    /** The loop of ring_read. */
    method CopyOldest(dest: array<char>, n: nat)
      requires Valid() && n <= |Unread| && n <= dest.Length && dest != buffer
      modifies dest
      ensures dest[..n] == Unread[..n]
    {
      hide Slot, MultipleOf, Distance;
      for i := 0 to n
        invariant dest[..i] == Unread[..i]
      {
        ModAdd(|Gone|, i, WORD);
        SlotOfIndex(|Gone| + i, buffer.Length);
        dest[i] := buffer[(tail + i) % WORD % buffer.Length];
      }
    }
  }
}
