/** A flat byte memory with little-endian 64-bit words, as the allocator's in-band block
    headers see it.  Addresses are indexes; `Memory` is a value that its owner reassigns. */
module ByteMemory {

  type byte = x: int | 0 <= x < 256

  type Memory = seq<byte>

  const WORD_BYTES := 8
  const WORD_LIMIT := 0x1_0000_0000_0000_0000

  /** 256 to the power n. */
  function Span(n: nat): (r: nat)
    ensures r > 0
  {
    if n == 0 then 1 else 256 * Span(n - 1)
  }

  function ToBytes(value: nat, count: nat): (s: seq<byte>)
    ensures |s| == count
  {
    if count == 0 then [] else [value % 256] + ToBytes(value / 256, count - 1)
  }

  function FromBytes(s: seq<byte>): nat {
    if s == [] then 0 else s[0] + 256 * FromBytes(s[1..])
  }

  lemma {:induction false} BytesRoundTrip(value: nat, count: nat)
    requires value < Span(count)
    ensures FromBytes(ToBytes(value, count)) == value
  {
    if count > 0 {
      assert value / 256 < Span(count - 1);
      BytesRoundTrip(value / 256, count - 1);
      assert ToBytes(value, count)[1..] == ToBytes(value / 256, count - 1);
    }
  }

  lemma WordSpan()
    ensures Span(WORD_BYTES) == WORD_LIMIT
  {
    assert Span(4) == 0x1_0000_0000;
  }

  function Load(m: Memory, a: nat): nat
    requires a + WORD_BYTES <= |m|
  {
    FromBytes(m[a..a + WORD_BYTES])
  }

  /** The memory after a word store: eight bytes change and no other. */
  function Store(m: Memory, a: nat, value: nat): (r: Memory)
    requires a + WORD_BYTES <= |m|
    ensures |r| == |m|
    ensures r[..a] == m[..a] && r[a + WORD_BYTES..] == m[a + WORD_BYTES..]
  {
    m[..a] + ToBytes(value, WORD_BYTES) + m[a + WORD_BYTES..]
  }

  lemma LoadAfterStore(m: Memory, a: nat, value: nat)
    requires a + WORD_BYTES <= |m| && value < WORD_LIMIT
    ensures Load(Store(m, a, value), a) == value
  {
    WordSpan();
    BytesRoundTrip(value, WORD_BYTES);
    assert Store(m, a, value)[a..a + WORD_BYTES] == ToBytes(value, WORD_BYTES);
  }

  /** A region that a store misses keeps its bytes. */
  lemma SliceAfterStore(m: Memory, a: nat, value: nat, from: nat, to: nat)
    requires a + WORD_BYTES <= |m| && from <= to <= |m|
    requires to <= a || a + WORD_BYTES <= from
    ensures Store(m, a, value)[from..to] == m[from..to]
  {
    var r := Store(m, a, value);
    assert |r| == |m|;
    forall k | from <= k < to ensures r[k] == m[k] {
      if to <= a {
        assert r[k] == r[..a][k] && m[k] == m[..a][k];
      } else {
        var e := a + WORD_BYTES;
        assert r[k] == r[e..][k - e] && m[k] == m[e..][k - e];
      }
    }
  }
}
