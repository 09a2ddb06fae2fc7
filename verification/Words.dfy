/** 32-bit words as the four bytes they take in memory, least significant first. */

module Words {
  import opened Basics

  const WORD_BYTES: nat := 4

  const WORD_LIMIT: nat := 0x1_0000_0000

  function WordBytes(n: nat): (r: seq<byte>)
    requires n < WORD_LIMIT
    ensures |r| == WORD_BYTES
  {
    [n % 256, n / 0x100 % 256, n / 0x1_0000 % 256, n / 0x100_0000 % 256]
  }

  function WordOf(bytes: seq<byte>): nat
    requires |bytes| == WORD_BYTES
  {
    (bytes[0] as int) + (bytes[1] as int) * 0x100 + (bytes[2] as int) * 0x1_0000 + (bytes[3] as int) * 0x100_0000
  }

  lemma WordRoundTrip(n: nat)
    requires n < WORD_LIMIT
    ensures WordOf(WordBytes(n)) == n
  {
    var a, b, c := n / 0x100, n / 0x1_0000, n / 0x100_0000;
    assert n == a * 0x100 + n % 256;
    assert a == b * 0x100 + a % 256;
    assert b == c * 0x100 + b % 256;
    assert c == c % 256;
  }
}
