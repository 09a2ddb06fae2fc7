/** A ring of fixed-size items laid out in bytes, read as a sequence of items. */

module ItemRing {
  import opened Basics

  /** The slot after k, and the slot before it, in a ring of `length` slots. */
  function Next(k: nat, length: nat): (r: nat)
    requires k < length
    ensures r < length && Prev(r, length) == k
  {
    if k + 1 == length then 0 else k + 1
  }

  function Prev(k: nat, length: nat): (r: nat)
    requires k < length
    ensures r < length && (r + 1 == length || r + 1 == k) && (r + 1 == length ==> k == 0)
  {
    if k == 0 then length - 1 else k - 1
  }

  /** The slot n places after k. */
  function After(k: nat, n: nat, length: nat): (r: nat)
    requires k < length
    ensures r < length
    decreases n
  {
    if n == 0 then k else After(Next(k, length), n - 1, length)
  }

  /** How many places after k slot j comes. */
  function Distance(k: nat, j: nat, length: nat): nat
    requires k < length && j < length
  {
    if k <= j then j - k else j + length - k
  }

  lemma {:induction false} AfterOneMore(k: nat, n: nat, length: nat)
    requires k < length
    ensures After(k, n + 1, length) == Next(After(k, n, length), length)
    decreases n
  {
    if n > 0 {
      AfterOneMore(Next(k, length), n - 1, length);
    }
  }

  lemma {:induction false} AfterIsAtDistance(k: nat, n: nat, length: nat)
    requires k < length && n <= length
    ensures n < length ==> Distance(k, After(k, n, length), length) == n
    ensures n == length ==> After(k, n, length) == k
    decreases n
  {
    if n > 0 {
      AfterIsAtDistance(k, n - 1, length);
      AfterOneMore(k, n - 1, length);
    }
  }

  /** Slots of equal size do not overlap and fill the storage exactly. */
  lemma SlotFits(k: nat, size: nat, length: nat)
    requires k < length
    ensures k * size + size <= length * size
    ensures (k + 1) * size == k * size + size
    ensures size > 0 ==> (k * size + size >= length * size <==> k + 1 == length)
    ensures (length - 1) * size == length * size - size
    ensures size > 0 ==> (k * size - size < 0 <==> k == 0)
  {
    assert (k + 1) * size <= length * size by { MulMonotone(k + 1, length, size); }
    if k + 1 < length { MulMonotone(k + 2, length, size); }
    if k > 0 { MulMonotone(1, k, size); }
  }

  lemma MulMonotone(a: nat, b: nat, size: nat)
    requires a <= b
    ensures a * size <= b * size
  {
  }

  function Slot(bytes: seq<byte>, size: nat, length: nat, k: nat): seq<byte>
    requires |bytes| == length * size && k < length
  {
    SlotFits(k, size, length);
    bytes[k * size..k * size + size]
  }

  /** n items, from slot k on. */
  function Items(bytes: seq<byte>, size: nat, length: nat, k: nat, n: nat): (r: seq<seq<byte>>)
    requires |bytes| == length * size && k < length
    ensures |r| == n
    decreases n
  {
    if n == 0 then [] else [Slot(bytes, size, length, k)] + Items(bytes, size, length, Next(k, length), n - 1)
  }

  lemma {:induction false} ItemsOneMore(bytes: seq<byte>, size: nat, length: nat, k: nat, n: nat)
    requires |bytes| == length * size && k < length
    ensures Items(bytes, size, length, k, n + 1)
            == Items(bytes, size, length, k, n) + [Slot(bytes, size, length, After(k, n, length))]
    decreases n
  {
    if n > 0 {
      ItemsOneMore(bytes, size, length, Next(k, length), n - 1);
      var first, rest := [Slot(bytes, size, length, k)], Items(bytes, size, length, Next(k, length), n - 1);
      var last := [Slot(bytes, size, length, After(k, n, length))];
      assert first + (rest + last) == (first + rest) + last;
    }
  }

  /** The storage after an item has been copied into slot j. */
  predicate Copied(before: seq<byte>, after: seq<byte>, size: nat, length: nat, j: nat, item: seq<byte>)
    requires |before| == length * size && j < length
  {
    && |after| == |before| && |item| == size
    && (forall i :: 0 <= i < |after| ==>
          after[i] == if j * size <= i < j * size + size then item[i - j * size] else before[i])
  }

  lemma CopiedSlots(before: seq<byte>, after: seq<byte>, size: nat, length: nat, j: nat, item: seq<byte>, k: nat)
    requires |before| == length * size && j < length && k < length
    requires Copied(before, after, size, length, j, item)
    ensures Slot(after, size, length, k) == if k == j then item else Slot(before, size, length, k)
  {
    SlotFits(k, size, length);
    SlotFits(j, size, length);
    if k < j { MulMonotone(k + 1, j, size); }
    if j < k { MulMonotone(j + 1, k, size); }
  }

  /** Copying into a slot outside n items leaves them alone. */
  lemma {:induction false} CopiedItems(before: seq<byte>, after: seq<byte>, size: nat, length: nat, j: nat, item: seq<byte>,
                                       k: nat, n: nat)
    requires |before| == length * size && j < length && k < length
    requires Copied(before, after, size, length, j, item)
    requires n <= Distance(k, j, length)
    ensures Items(after, size, length, k, n) == Items(before, size, length, k, n)
    decreases n
  {
    if n > 0 {
      CopiedSlots(before, after, size, length, j, item, k);
      CopiedItems(before, after, size, length, j, item, Next(k, length), n - 1);
    }
  }

  /** Copying behind the last of n items appends. */
  lemma CopiedBehind(before: seq<byte>, after: seq<byte>, size: nat, length: nat, k: nat, n: nat, item: seq<byte>)
    requires |before| == length * size && k < length && n < length
    requires Copied(before, after, size, length, After(k, n, length), item)
    ensures Items(after, size, length, k, n + 1) == Items(before, size, length, k, n) + [item]
  {
    AfterIsAtDistance(k, n, length);
    ItemsOneMore(after, size, length, k, n);
    CopiedItems(before, after, size, length, After(k, n, length), item, k, n);
    CopiedSlots(before, after, size, length, After(k, n, length), item, After(k, n, length));
  }

  /** Copying in front of the first of n items prepends. */
  lemma CopiedInFront(before: seq<byte>, after: seq<byte>, size: nat, length: nat, j: nat, n: nat, item: seq<byte>)
    requires |before| == length * size && j < length && n < length
    requires Copied(before, after, size, length, j, item)
    ensures Items(after, size, length, j, n + 1) == [item] + Items(before, size, length, Next(j, length), n)
  {
    CopiedItems(before, after, size, length, j, item, Next(j, length), n);
    CopiedSlots(before, after, size, length, j, item, j);
  }
}
