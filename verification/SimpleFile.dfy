/** The file a buffered stream stands for: contents, a position, and bytes pushed back in front
    of it.  Stream refines this model; the laws here say what its operations mean to a program. */
module SimpleFile {
  import opened ByteMemory

  /** The contents after `data` is written at `at`; a gap past the end fills with zeros. */
  function Overlay(m: seq<byte>, at: nat, data: seq<byte>): (r: seq<byte>)
    ensures |r| == if data == [] || at + |data| <= |m| then |m| else at + |data|
    ensures data != [] ==> at + |data| <= |r| && r[at..at + |data|] == data
  {
    if data == [] then m
    else Padded(m, at)[..at] + data + (if at + |data| <= |m| then m[at + |data|..] else [])
  }

  function Padded(m: seq<byte>, n: nat): (r: seq<byte>)
    ensures |r| == if n <= |m| then |m| else n
    ensures r[..|m|] == m
  {
    if n <= |m| then m else m + seq(n - |m|, _ => 0)
  }

  /** What one byte of the result is. */
  lemma OverlayAt(m: seq<byte>, at: nat, data: seq<byte>, i: nat)
    requires i < |Overlay(m, at, data)|
    ensures Overlay(m, at, data)[i] ==
      if at <= i < at + |data| then data[i - at] else if i < |m| then m[i] else 0
  {
  }

  /** Two adjacent writes are one. */
  lemma OverlayJoin(m: seq<byte>, at: nat, a: seq<byte>, b: seq<byte>)
    ensures Overlay(Overlay(m, at, a), at + |a|, b) == Overlay(m, at, a + b)
  {
    var x, y := Overlay(Overlay(m, at, a), at + |a|, b), Overlay(m, at, a + b);
    if a == [] { assert a + b == b; }
    else if b == [] { assert a + b == a; }
    else {
      assert |x| == |y|;
      forall i: nat | i < |x| ensures x[i] == y[i] {
        OverlayAt(Overlay(m, at, a), at + |a|, b, i);
        OverlayAt(m, at, a + b, i);
        if i < |Overlay(m, at, a)| { OverlayAt(m, at, a, i); }
      }
    }
  }

  /** The part of the contents from `at` on. */
  function From(m: seq<byte>, at: nat): (r: seq<byte>) {
    if at <= |m| then m[at..] else []
  }

  /** What was written is what is read back from there. */
  lemma ReadBack(m: seq<byte>, at: nat, data: seq<byte>)
    ensures data <= From(Overlay(m, at, data), at)
  {
    if data != [] {
      assert Overlay(m, at, data)[at..][..|data|] == Overlay(m, at, data)[at..at + |data|];
    }
  }

  /** A write leaves everything before and after it alone. */
  lemma WriteIsLocal(m: seq<byte>, at: nat, data: seq<byte>, i: nat)
    requires i < |m| && !(at <= i < at + |data|)
    ensures i < |Overlay(m, at, data)| && Overlay(m, at, data)[i] == m[i]
  {
    OverlayAt(m, at, data, i);
  }
}
