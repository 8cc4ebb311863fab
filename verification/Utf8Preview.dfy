// Cutting a text to a preview of bounded size without splitting a character:
// the back-off to a character boundary, over the UTF-8 encoding of RFC 3629.

module Utf8Preview {
  import opened Options

  const MAX_PREVIEW := 500

  type Byte = n: nat | n < 0x100

  // A Unicode scalar value: a code point that is not a surrogate.
  type Scalar = n: nat | n < 0xD800 || 0xE000 <= n < 0x11_0000

  // ----- encoding (section 3 of RFC 3629) and decoding (section 4) -----

  // The last six bits of a number in a tail byte, and the bits above them.
  function Low(c: nat): (b: Byte)
    ensures IsTail(b)
  {
    0x80 + c % 0x40
  }

  function High(c: nat): nat {
    c / 0x40
  }

  function Join(high: nat, tail: Byte): (c: nat)
    requires IsTail(tail)
    ensures High(c) == high && Low(c) == tail
  {
    high * 0x40 + (tail - 0x80)
  }

  lemma JoinSplit(c: nat)
    ensures Join(High(c), Low(c)) == c
  {
  }

  function EncodeScalar(c: Scalar): (bs: seq<Byte>)
    ensures 1 <= |bs| <= 4
    ensures !IsTail(bs[0]) && forall i :: 1 <= i < |bs| ==> IsTail(bs[i])
  {
    if c < 0x80 then [c]
    else if c < 0x800 then [0xC0 + High(c), Low(c)]
    else if c < 0x1_0000 then [0xE0 + High(High(c)), Low(High(c)), Low(c)]
    else [0xF0 + High(High(High(c))), Low(High(High(c))), Low(High(c)), Low(c)]
  }

  function Encode(cs: seq<Scalar>): seq<Byte> {
    if cs == [] then [] else EncodeScalar(cs[0]) + Encode(cs[1..])
  }

  predicate IsTail(b: nat) {
    0x80 <= b < 0xC0
  }

  predicate TailsAt(bs: seq<Byte>, n: nat) {
    n < |bs| && forall i :: 1 <= i <= n ==> IsTail(bs[i])
  }

  // The bits of a lead byte above its length mark.
  function Lead(b: Byte, mark: nat): nat
    requires mark <= b
  {
    b as int - mark
  }

  // The first character and the number of its bytes, shortest forms only.
  function DecodeHead(bs: seq<Byte>): Option<(Scalar, nat)> {
    if bs == [] then None
    else if bs[0] < 0x80 then Some((bs[0], 1))
    else if 0xC2 <= bs[0] < 0xE0 && TailsAt(bs, 1) then Some((Join(Lead(bs[0], 0xC0), bs[1]), 2))
    else if 0xE0 <= bs[0] < 0xF0 && TailsAt(bs, 2) then
      var c := Join(Join(Lead(bs[0], 0xE0), bs[1]), bs[2]);
      if 0x800 <= c < 0xD800 || 0xE000 <= c then Some((c, 3)) else None
    else if 0xF0 <= bs[0] < 0xF5 && TailsAt(bs, 3) then
      var c := Join(Join(Join(Lead(bs[0], 0xF0), bs[1]), bs[2]), bs[3]);
      if 0x1_0000 <= c < 0x11_0000 then Some((c, 4)) else None
    else None
  }

  // The text a byte string stands for, if it is valid UTF-8.
  function Decode(bs: seq<Byte>): Option<seq<Scalar>>
    decreases |bs|
  {
    if bs == [] then Some([])
    else
      var head := DecodeHead(bs);
      if head.None? || head.value.1 > |bs| || head.value.1 == 0 then None
      else
        var rest := Decode(bs[head.value.1..]);
        if rest.None? then None else Some([head.value.0] + rest.value)
  }

  lemma DecodeHeadOfEncoded(c: Scalar, rest: seq<Byte>)
    ensures DecodeHead(EncodeScalar(c) + rest) == Some((c, |EncodeScalar(c)|))
  {
    var bs := EncodeScalar(c) + rest;
    assert forall i :: 0 <= i < |EncodeScalar(c)| ==> bs[i] == EncodeScalar(c)[i];
    JoinSplit(c);
    JoinSplit(High(c));
    JoinSplit(High(High(c)));
  }

  lemma EncodeDecodedHead(bs: seq<Byte>)
    requires DecodeHead(bs).Some?
    ensures var (c, n) := DecodeHead(bs).value; 1 <= n <= |bs| && EncodeScalar(c) == bs[..n]
  {
  }

  lemma {:induction false} DecodeEncode(cs: seq<Scalar>)
    ensures Decode(Encode(cs)) == Some(cs)
  {
    if cs != [] {
      DecodeHeadOfEncoded(cs[0], Encode(cs[1..]));
      assert Encode(cs)[|EncodeScalar(cs[0])|..] == Encode(cs[1..]);
      DecodeEncode(cs[1..]);
      assert [cs[0]] + cs[1..] == cs;
    }
  }

  // Only one byte string stands for a text.
  lemma {:induction false} EncodeDecode(bs: seq<Byte>)
    requires Decode(bs).Some?
    ensures Encode(Decode(bs).value) == bs
    decreases |bs|
  {
    if bs != [] {
      var (c, n) := DecodeHead(bs).value;
      EncodeDecodedHead(bs);
      EncodeDecode(bs[n..]);
      var cs := Decode(bs).value;
      assert cs[0] == c && cs[1..] == Decode(bs[n..]).value;
      assert bs[..n] + bs[n..] == bs;
    }
  }

  // ----- character boundaries -----

  predicate IsBoundary(bs: seq<Byte>, i: nat)
    requires i <= |bs|
  {
    i == 0 || i == |bs| || !IsTail(bs[i])
  }

  // The boundaries of an encoded text are the ends of its prefixes.
  lemma {:induction false} BoundaryEndsPrefix(cs: seq<Scalar>, i: nat) returns (k: nat)
    requires i <= |Encode(cs)| && IsBoundary(Encode(cs), i)
    ensures k <= |cs| && Encode(cs)[..i] == Encode(cs[..k])
  {
    if i == 0 {
      return 0;
    }
    var head := EncodeScalar(cs[0]);
    var bs := Encode(cs);
    if i < |head| {
      assert false;
    } else {
      var j := i - |head|;
      assert j < |Encode(cs[1..])| ==> bs[i] == Encode(cs[1..])[j];
      k := BoundaryEndsPrefix(cs[1..], j);
      assert cs[..k + 1][1..] == cs[1..][..k];
      assert bs[..i] == head + Encode(cs[1..])[..j];
      k := k + 1;
    }
  }

  lemma {:induction false} PrefixEndsAtBoundary(cs: seq<Scalar>, k: nat)
    requires k <= |cs|
    ensures |Encode(cs[..k])| <= |Encode(cs)|
    ensures IsBoundary(Encode(cs), |Encode(cs[..k])|)
    ensures k < |cs| ==> |Encode(cs[..k])| < |Encode(cs[..k + 1])| <= |Encode(cs[..k])| + 4
  {
    if k == 0 {
      if cs != [] {
        assert cs[..1][1..] == [];
      }
    } else {
      PrefixEndsAtBoundary(cs[1..], k - 1);
      assert cs[..k][1..] == cs[1..][..k - 1];
      assert k < |cs| ==> cs[..k + 1][1..] == cs[1..][..k];
    }
  }

  // Some boundary lies among any four positions in a row.
  lemma {:induction false} BoundaryIsNear(cs: seq<Scalar>, i: nat) returns (b: nat)
    requires i <= |Encode(cs)|
    ensures b <= i <= b + 3 && IsBoundary(Encode(cs), b)
  {
    if cs == [] || i < |EncodeScalar(cs[0])| {
      b := 0;
    } else {
      var n := |EncodeScalar(cs[0])|;
      b := BoundaryIsNear(cs[1..], i - n);
      assert b < |Encode(cs[1..])| ==> Encode(cs)[n + b] == Encode(cs[1..])[b];
      assert b == 0 && Encode(cs[1..]) != [] ==> Encode(cs)[n] == EncodeScalar(cs[1..][0])[0];
      b := n + b;
    }
  }

  // Backs off from the limit to a boundary, and counts the steps.
  method PreviewEnd(bs: seq<Byte>) returns (end: nat, steps: nat)
    ensures end <= |bs| && end <= MAX_PREVIEW
    ensures IsBoundary(bs, end)
    ensures forall i :: end < i <= |bs| && i <= MAX_PREVIEW ==> !IsBoundary(bs, i)
    ensures end + steps == if |bs| < MAX_PREVIEW then |bs| else MAX_PREVIEW
  {
    end := if |bs| < MAX_PREVIEW then |bs| else MAX_PREVIEW;
    steps := 0;
    while end > 0 && !IsBoundary(bs, end)
      invariant end <= |bs|
      invariant end + steps == if |bs| < MAX_PREVIEW then |bs| else MAX_PREVIEW
      invariant forall i :: end < i <= |bs| && i <= MAX_PREVIEW ==> !IsBoundary(bs, i)
    {
      end := end - 1;
      steps := steps + 1;
    }
  }

  // What a cut at the greatest boundary within the limit means, for every valid
  // UTF-8 string: the preview is valid too and reads as a prefix of the text,
  // the longest one that fits, at most three bytes short of the limit.
  lemma PreviewIsLongestPrefix(bs: seq<Byte>, end: nat)
    requires Decode(bs).Some?
    requires end <= |bs| && end <= MAX_PREVIEW && IsBoundary(bs, end)
    requires forall i :: end < i <= |bs| && i <= MAX_PREVIEW ==> !IsBoundary(bs, i)
    ensures Decode(bs[..end]).Some? && Decode(bs[..end]).value <= Decode(bs).value
    ensures forall k :: |Decode(bs[..end]).value| < k <= |Decode(bs).value| ==>
              |Encode(Decode(bs).value[..k])| > MAX_PREVIEW
    ensures |bs| <= MAX_PREVIEW ==> end == |bs|
    ensures |bs| > MAX_PREVIEW ==> MAX_PREVIEW - 3 <= end
  {
    var cs := Decode(bs).value;
    EncodeDecode(bs);
    assert IsBoundary(bs, |bs|);
    var k := BoundaryEndsPrefix(cs, end);
    DecodeEncode(cs[..k]);
    forall j | k < j <= |cs|
      ensures |Encode(cs[..j])| > MAX_PREVIEW
    {
      PrefixEndsAtBoundary(cs, j);
      PrefixesGrow(cs, k, j);
      assert |Encode(cs[..k])| == end;
    }
    var near := BoundaryIsNear(cs, if |bs| < MAX_PREVIEW then |bs| else MAX_PREVIEW);
  }

  lemma {:induction false} PrefixesGrow(cs: seq<Scalar>, j: nat, k: nat)
    requires j < k <= |cs|
    ensures |Encode(cs[..j])| < |Encode(cs[..k])|
    decreases k
  {
    PrefixEndsAtBoundary(cs, k - 1);
    if j < k - 1 {
      PrefixesGrow(cs, j, k - 1);
    }
  }
}
