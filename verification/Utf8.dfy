/** UTF-8: the restartable decoder and the encoder of the code, against the grammar and the bit
    distribution of RFC 3629. */
module Utf8 {
  import opened ByteMemory

  predicate Scalar(c: int) { 0 <= c <= 0x10ffff && !(0xd800 <= c <= 0xdfff) }

  // ----- RFC 3629

  predicate Tail(b: byte) { 0x80 <= b <= 0xbf }

  /** The grammar of section 4. */
  predicate WellFormed(bs: seq<byte>) {
    || (|bs| == 1 && bs[0] <= 0x7f)
    || (|bs| == 2 && 0xc2 <= bs[0] <= 0xdf && Tail(bs[1]))
    || (|bs| == 3 && Tail(bs[2])
        && (|| (bs[0] == 0xe0 && 0xa0 <= bs[1] <= 0xbf) || (0xe1 <= bs[0] <= 0xec && Tail(bs[1]))
            || (bs[0] == 0xed && 0x80 <= bs[1] <= 0x9f) || (0xee <= bs[0] <= 0xef && Tail(bs[1]))))
    || (|bs| == 4 && Tail(bs[2]) && Tail(bs[3])
        && (|| (bs[0] == 0xf0 && 0x90 <= bs[1] <= 0xbf) || (0xf1 <= bs[0] <= 0xf3 && Tail(bs[1]))
            || (bs[0] == 0xf4 && 0x80 <= bs[1] <= 0x8f)))
  }

  /** The payload of a byte above its marker. */
  function Bits(b: byte, marker: int): int { b - marker }

  /** The bits of section 3, put together. */
  function ValueOf(bs: seq<byte>): int
    requires WellFormed(bs)
  {
    if |bs| == 1 then bs[0]
    else if |bs| == 2 then Bits(bs[0], 0xc0) * 64 + Bits(bs[1], 0x80)
    else if |bs| == 3 then Bits(bs[0], 0xe0) * 4096 + Bits(bs[1], 0x80) * 64 + Bits(bs[2], 0x80)
    else Bits(bs[0], 0xf0) * 262144 + Bits(bs[1], 0x80) * 4096 + Bits(bs[2], 0x80) * 64 + Bits(bs[3], 0x80)
  }

  // ----- The code's encoder

  function Encode(c: int): (bs: seq<byte>)
    requires Scalar(c)
    ensures 1 <= |bs| <= 4
  {
    if c <= 0x7f then [c]
    else if c <= 0x7ff then [0xc0 + c / 64, 0x80 + c % 64]
    else if c <= 0xffff then [0xe0 + c / 4096, 0x80 + c / 64 % 64, 0x80 + c % 64]
    else [0xf0 + c / 262144, 0x80 + c / 4096 % 64, 0x80 + c / 64 % 64, 0x80 + c % 64]
  }

  /** The base-64 digits of a number, from sums and to sums. */
  lemma Digits(c: int)
    requires 0 <= c
    ensures c == c / 64 * 64 + c % 64 && c / 4096 == c / 64 / 64 && c / 262144 == c / 4096 / 64
    ensures c / 64 == c / 4096 * 64 + c / 64 % 64 && c / 4096 == c / 262144 * 64 + c / 4096 % 64
  {
  }

  lemma FromDigits(high: int, low: int)
    requires 0 <= high && 0 <= low < 64
    ensures (high * 64 + low) / 64 == high && (high * 64 + low) % 64 == low
  {
  }

  /** The encoding of a scalar is well formed and has its value. */
  lemma ValueOfEncode(c: int)
    requires Scalar(c)
    ensures WellFormed(Encode(c)) && ValueOf(Encode(c)) == c
  {
    Digits(c);
    var bs := Encode(c);
    if 0x7f < c <= 0x7ff {
      assert |bs| == 2 && WellFormed(bs);
    } else if 0x7ff < c <= 0xffff {
      assert |bs| == 3 && WellFormed(bs);
    } else if 0xffff < c {
      assert |bs| == 4 && WellFormed(bs);
    }
  }

  lemma EncodeThree(bs: seq<byte>)
    requires WellFormed(bs) && |bs| == 3
    ensures Scalar(ValueOf(bs)) && Encode(ValueOf(bs)) == bs
  {
    var c, high := ValueOf(bs), Bits(bs[0], 0xe0) * 64 + Bits(bs[1], 0x80);
    assert c == high * 64 + Bits(bs[2], 0x80);
    FromDigits(high, Bits(bs[2], 0x80));
    FromDigits(Bits(bs[0], 0xe0), Bits(bs[1], 0x80));
    Digits(c);
    assert 0x7ff < c <= 0xffff;
  }

  lemma EncodeFour(bs: seq<byte>)
    requires WellFormed(bs) && |bs| == 4
    ensures Scalar(ValueOf(bs)) && Encode(ValueOf(bs)) == bs
  {
    var c, top := ValueOf(bs), Bits(bs[0], 0xf0) * 64 + Bits(bs[1], 0x80);
    var high := top * 64 + Bits(bs[2], 0x80);
    assert c == high * 64 + Bits(bs[3], 0x80);
    FromDigits(high, Bits(bs[3], 0x80));
    FromDigits(top, Bits(bs[2], 0x80));
    FromDigits(Bits(bs[0], 0xf0), Bits(bs[1], 0x80));
    Digits(c);
    assert 0xffff < c <= 0x10ffff;
  }

  /** The well-formed sequences are the encodings of the scalars, one each. */
  lemma EncodeOfValue(bs: seq<byte>)
    requires WellFormed(bs)
    ensures Scalar(ValueOf(bs)) && Encode(ValueOf(bs)) == bs
  {
    if |bs| == 2 { FromDigits(Bits(bs[0], 0xc0), Bits(bs[1], 0x80)); }
    else if |bs| == 3 { EncodeThree(bs); }
    else if |bs| == 4 { EncodeFour(bs); }
  }

  // ----- The code's decoder, a byte at a time

  /** The fields packed into mbstate_t. */
  datatype Decoder = Decoder(total: nat, remaining: nat, value: nat)

  const INITIAL := Decoder(0, 0, 0)

  datatype Step = More(d: Decoder) | Char(c: int) | Bad

  function Minimum(total: nat): int { if total == 2 then 0x80 else if total == 3 then 0x800 else 0x10000 }

  function Feed(d: Decoder, b: byte): Step {
    if d.remaining == 0 then
      if b <= 0x7f then Char(b)
      else if 0xc2 <= b <= 0xdf then More(Decoder(2, 1, Bits(b, 0xc0)))
      else if 0xe0 <= b <= 0xef then More(Decoder(3, 2, Bits(b, 0xe0)))
      else if 0xf0 <= b <= 0xf4 then More(Decoder(4, 3, Bits(b, 0xf0)))
      else Bad
    else if b < 0x80 || 0xbf < b then Bad
    else
      var value := d.value * 64 + Bits(b, 0x80);
      if d.remaining != 1 then More(Decoder(d.total, d.remaining - 1, value))
      else if value < Minimum(d.total) || !Scalar(value) then Bad
      else Char(value)
  }

  /** The states that decoding can be in. */
  predicate Reachable(d: Decoder) {
    || d == INITIAL
    || (d.total == 2 && d.remaining == 1 && 2 <= d.value <= 0x1f)
    || (d.total == 3 && ((d.remaining == 2 && d.value <= 0xf) || (d.remaining == 1 && d.value <= 0x3ff)))
    || (d.total == 4 && ((d.remaining == 3 && d.value <= 4) || (d.remaining == 2 && d.value <= 0x13f) || (d.remaining == 1 && d.value <= 0x4fff)))
  }

  /** What one call sees in its bytes. */
  datatype Scanned = Incomplete(d: Decoder) | Illegal | Complete(c: int, used: nat)

  function Later(s: Scanned): Scanned {
    if s.Complete? then Complete(s.c, s.used + 1) else s
  }

  function Scan(d: Decoder, bs: seq<byte>): (s: Scanned)
    ensures s.Complete? ==> 1 <= s.used <= |bs|
    decreases |bs|, 1
  {
    if bs == [] then Incomplete(d) else ScanOn(Feed(d, bs[0]), bs[1..])
  }

  function ScanOn(step: Step, rest: seq<byte>): (s: Scanned)
    ensures s.Complete? ==> 1 <= s.used <= |rest| + 1
    decreases |rest|, 2
  {
    match step
    case More(e) => Later(Scan(e, rest))
    case Char(c) => Complete(c, 1)
    case Bad => Illegal
  }

  predicate AllTail(bs: seq<byte>) { bs == [] || (Tail(bs[0]) && AllTail(bs[1..])) }

  function Fold(value: int, bs: seq<byte>): int
    decreases |bs|
  {
    if bs == [] then value else Fold(value * 64 + Bits(bs[0], 0x80), bs[1..])
  }

  /** In the middle of a character: exactly the missing number of tail bytes, and a legal value. */
  lemma {:induction false} ScanTail(d: Decoder, bs: seq<byte>, c: int)
    requires 0 < d.remaining
    ensures Scan(d, bs) == Complete(c, |bs|) <==>
      |bs| == d.remaining && AllTail(bs) && c == Fold(d.value, bs) && Minimum(d.total) <= c && Scalar(c)
    ensures d.remaining <= |bs| ==> !Scan(d, bs).Incomplete?
    ensures Scan(d, bs).Complete? ==> Scan(d, bs).used == d.remaining
    decreases |bs|
  {
    if bs != [] {
      var step := Feed(d, bs[0]);
      if step.More? {
        ScanTail(step.d, bs[1..], c);
      } else if |bs| == 1 {
        assert Fold(d.value, bs) == Fold(d.value * 64 + Bits(bs[0], 0x80), []);
      }
    }
  }

  /** The lead byte and its tail, for each length. */
  lemma TwoBytes(bs: seq<byte>, c: int)
    requires 1 <= |bs| && 0xc2 <= bs[0] <= 0xdf
    ensures (|bs| == 2 && AllTail(bs[1..]) && c == Fold(Bits(bs[0], 0xc0), bs[1..]) && 0x80 <= c && Scalar(c))
            <==> WellFormed(bs) && ValueOf(bs) == c
  {
    if |bs| == 2 {
      assert bs[1..] == [bs[1]] && [bs[1]][1..] == [];
      assert AllTail([bs[1]]) <==> Tail(bs[1]);
      assert Fold(Bits(bs[0], 0xc0), [bs[1]]) == Fold(Bits(bs[0], 0xc0) * 64 + Bits(bs[1], 0x80), []);
    }
  }

  lemma ThreeBytes(bs: seq<byte>, c: int)
    requires 1 <= |bs| && 0xe0 <= bs[0] <= 0xef
    ensures (|bs| == 3 && AllTail(bs[1..]) && c == Fold(Bits(bs[0], 0xe0), bs[1..]) && 0x800 <= c && Scalar(c))
            <==> WellFormed(bs) && ValueOf(bs) == c
  {
    if |bs| == 3 {
      var v := Bits(bs[0], 0xe0);
      assert bs[1..] == [bs[1], bs[2]] && [bs[1], bs[2]][1..] == [bs[2]];
      assert AllTail([bs[2]]) <==> Tail(bs[2]) by { assert [bs[2]][1..] == []; }
      assert AllTail(bs[1..]) <==> Tail(bs[1]) && Tail(bs[2]);
      assert Fold(v, [bs[1], bs[2]]) == Fold(v * 64 + Bits(bs[1], 0x80), [bs[2]]);
      assert Fold(v * 64 + Bits(bs[1], 0x80), [bs[2]]) == Fold((v * 64 + Bits(bs[1], 0x80)) * 64 + Bits(bs[2], 0x80), []);
    }
  }

  lemma FourBytes(bs: seq<byte>, c: int)
    requires 1 <= |bs| && 0xf0 <= bs[0] <= 0xf4
    ensures (|bs| == 4 && AllTail(bs[1..]) && c == Fold(Bits(bs[0], 0xf0), bs[1..]) && 0x10000 <= c && Scalar(c))
            <==> WellFormed(bs) && ValueOf(bs) == c
  {
    if |bs| == 4 {
      var v := Bits(bs[0], 0xf0);
      var w := v * 64 + Bits(bs[1], 0x80);
      var t3, t2, t1 := [bs[1], bs[2], bs[3]], [bs[2], bs[3]], [bs[3]];
      assert bs[1..] == t3 && t3[1..] == t2 && t2[1..] == t1;
      assert t1[1..] == [];
      assert AllTail(t1) <==> Tail(bs[3]);
      assert AllTail(t2) <==> Tail(bs[2]) && Tail(bs[3]);
      assert AllTail(t3) <==> Tail(bs[1]) && Tail(bs[2]) && Tail(bs[3]);
      assert Fold(v, t3) == Fold(w, t2);
      assert Fold(w, t2) == Fold(w * 64 + Bits(bs[2], 0x80), t1);
      assert Fold(w * 64 + Bits(bs[2], 0x80), t1) == Fold((w * 64 + Bits(bs[2], 0x80)) * 64 + Bits(bs[3], 0x80), []);
    }
  }

  /** The decoder accepts exactly the well-formed sequences, with their values. */
  lemma AcceptsExactly(bs: seq<byte>, c: int)
    ensures Scan(INITIAL, bs) == Complete(c, |bs|) <==> WellFormed(bs) && ValueOf(bs) == c
  {
    if bs != [] {
      var step := Feed(INITIAL, bs[0]);
      if step.More? {
        ScanTail(step.d, bs[1..], c);
        hide WellFormed, ValueOf, Fold, AllTail;
        if bs[0] <= 0xdf { TwoBytes(bs, c); } else if bs[0] <= 0xef { ThreeBytes(bs, c); } else { FourBytes(bs, c); }
      }
    }
  }

  /** Four bytes always decide. */
  lemma FourDecide(d: Decoder, bs: seq<byte>)
    requires Reachable(d) && 4 <= |bs|
    ensures !Scan(d, bs).Incomplete?
  {
    if d.remaining == 0 {
      var step := Feed(d, bs[0]);
      if step.More? { ScanTail(step.d, bs[1..], 0); }
    } else {
      ScanTail(d, bs, 0);
    }
  }

  lemma FeedReachable(d: Decoder, b: byte)
    requires Reachable(d)
    ensures var step := Feed(d, b); step.More? ==> Reachable(step.d) && step.d != INITIAL
    ensures var step := Feed(d, b); step.Char? ==> Scalar(step.c)
  {
  }

  /** Decoding the encoding of a scalar gives the scalar, whatever follows it. */
  lemma {:induction false} DecodeOfEncode(c: int, rest: seq<byte>)
    requires Scalar(c)
    ensures Scan(INITIAL, Encode(c) + rest) == Complete(c, |Encode(c)|)
  {
    ValueOfEncode(c);
    AcceptsExactly(Encode(c), c);
    ScanPrefix(INITIAL, Encode(c), rest);
  }

  /** A scan that has decided does not look further. */
  lemma {:induction false} ScanPrefix(d: Decoder, a: seq<byte>, b: seq<byte>)
    requires !Scan(d, a).Incomplete?
    ensures Scan(d, a + b) == Scan(d, a)
    decreases |a|
  {
    assert (a + b)[1..] == a[1..] + b;
    var step := Feed(d, a[0]);
    if step.More? { ScanPrefix(step.d, a[1..], b); }
  }

  // ----- Whole texts

  /** All the characters of some bytes: what was decoded, and the state it was left in or None where it failed. */
  datatype Text = Text(chars: seq<int>, state: Decoder, ok: bool)

  function Decode(d: Decoder, bs: seq<byte>): Text
    decreases |bs|, 0
  {
    if bs == [] then Text([], d, true) else DecodeOn(Feed(d, bs[0]), bs[1..])
  }

  function DecodeOn(step: Step, rest: seq<byte>): Text
    decreases |rest|, 1
  {
    match step
    case More(e) => Decode(e, rest)
    case Char(c) => Prepend(c, Decode(INITIAL, rest))
    case Bad => Text([], INITIAL, false)
  }

  function Prepend(c: int, t: Text): Text { t.(chars := [c] + t.chars) }

  function Then(t: Text, more: Text): Text
    requires t.ok
  {
    more.(chars := t.chars + more.chars)
  }

  /** The same characters however the bytes are cut. */
  lemma {:induction false} DecodeCut(d: Decoder, a: seq<byte>, b: seq<byte>)
    ensures Decode(d, a + b) == if Decode(d, a).ok then Then(Decode(d, a), Decode(Decode(d, a).state, b)) else Decode(d, a)
    decreases |a|
  {
    if a == [] {
      assert a + b == b;
    } else {
      assert (a + b)[1..] == a[1..] + b;
      var step := Feed(d, a[0]);
      match step
      case More(e) => DecodeCut(e, a[1..], b);
      case Char(c) =>
        DecodeCut(INITIAL, a[1..], b);
        var t := Decode(INITIAL, a[1..]);
        if t.ok { assert [c] + (t.chars + Decode(t.state, b).chars) == ([c] + t.chars) + Decode(t.state, b).chars; }
      case Bad =>
    }
  }

  /** One scan of the bytes, then the rest. */
  lemma {:induction false} DecodeScan(d: Decoder, bs: seq<byte>)
    ensures Scan(d, bs).Incomplete? ==> Decode(d, bs) == Text([], Scan(d, bs).d, true)
    ensures Scan(d, bs).Illegal? ==> Decode(d, bs) == Text([], INITIAL, false)
    ensures var s := Scan(d, bs); s.Complete? ==> Decode(d, bs) == Prepend(s.c, Decode(INITIAL, bs[s.used..]))
    decreases |bs|
  {
    if bs != [] {
      var step := Feed(d, bs[0]);
      if step.More? {
        DecodeScan(step.d, bs[1..]);
        var s := Scan(step.d, bs[1..]);
        if s.Complete? { assert bs[1..][s.used..] == bs[s.used + 1..]; }
      }
    }
  }

  predicate AllScalars(cs: seq<int>) { forall i :: 0 <= i < |cs| ==> Scalar(cs[i]) }

  function EncodeAll(cs: seq<int>): seq<byte>
    requires AllScalars(cs)
  {
    if cs == [] then [] else EncodeAll(cs[..|cs| - 1]) + Encode(cs[|cs| - 1])
  }

  /** Decoding inverts encoding on every text of scalars. */
  lemma {:induction false} DecodeOfEncodeAll(cs: seq<int>)
    requires AllScalars(cs)
    ensures Decode(INITIAL, EncodeAll(cs)) == Text(cs, INITIAL, true)
  {
    if cs != [] {
      var init, c := cs[..|cs| - 1], cs[|cs| - 1];
      DecodeOfEncodeAll(init);
      DecodeCut(INITIAL, EncodeAll(init), Encode(c));
      DecodeOfEncode(c, []);
      assert Encode(c) + [] == Encode(c);
      DecodeScan(INITIAL, Encode(c));
      assert Decode(INITIAL, []) == Text([], INITIAL, true) && [c] + [] == [c];
      assert init + [c] == cs;
    }
  }
}
