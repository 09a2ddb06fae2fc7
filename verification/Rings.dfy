/** Places in a ring of bytes, and the distances and wraps the source writes out. */

module Rings {
  import opened Multiples

  /** The place of the i-th byte of the stream in a ring of `length` bytes. */
  function Place(i: nat, length: nat): (p: nat)
    requires length > 0
    ensures p < length
  {
    i % length
  }

  /** Moving an index on by at most one length, with the wrap the source writes out. */
  function Moved(index: nat, count: nat, length: nat): nat {
    if index + count >= length then index + count - length else index + count
  }

  lemma PlaceMoves(i: nat, count: nat, length: nat)
    requires length > 0 && count <= length
    ensures Moved(Place(i, length), count, length) == Place(i + count, length)
  {
    var q, r := i / length, i % length;
    assert i == q * length + r;
    if r + count < length {
      Remainder(i + count, q, r + count, length);
    } else if r + count - length < length {
      assert (q + 1) * length == q * length + length;
      Remainder(i + count, q + 1, r + count - length, length);
    } else {
      assert false;
    }
  }

  lemma Remainder(n: nat, q: nat, r: nat, length: nat)
    requires length > 0 && n == q * length + r && r < length
    ensures n % length == r
  {
    assert (q + 1) * length == q * length + length;
    QuotientIs(n, length, q);
    assert n == (n / length) * length + n % length;
  }

  /** Bytes less than one length apart lie at different places. */
  lemma PlacesDiffer(i: nat, j: nat, length: nat)
    requires length > 0 && i < j < i + length
    ensures Place(i, length) != Place(j, length)
  {
    PlaceMoves(i, j - i, length);
  }

  /** The distance the source computes from two indices, with its one correction. */
  function Apart(ahead: nat, behind: nat, length: nat): int {
    var count := length + ahead - behind;
    if count >= length then count - length else count
  }

  lemma ApartIsDistance(i: nat, j: nat, length: nat)
    requires length > 0 && i <= j < i + length
    ensures Apart(Place(j, length), Place(i, length), length) == j - i
  {
    PlaceMoves(i, j - i, length);
  }
}
