/** The wire protocol: length-prefixed frames on a byte stream, and piece lists
    packed into bits (crates/chorrent/src/protocol.rs). The codec of message
    bodies is a parameter. */
module Protocol {
  import opened Blocks
  import opened Integers
  import opened Wrappers

  const MAX_FRAME: nat := 16 * 1024 * 1024
  const U32: nat := 0x1_0000_0000

  // ---- Frames ----

  /** A length of 32 bits. */
  lemma LengthIs(len: nat)
    ensures var back := FromLittleEndian(LittleEndian(len, 4)); back < U32 && (back == len <==> len < U32)
  {
    LittleEndianRoundTrip(len, 4);
    assert Values(4) == U32;
  }

  /** What one read gives, and the bytes it leaves on the stream. */
  datatype Read<M> = Closed | Got(msg: M) | Failed

  function Frame(body: seq<byte>): seq<byte> {
    LittleEndian(|body|, 4) + body
  }

  function ReadFrameOf<M>(decode: seq<byte> -> Option<M>, s: seq<byte>): (r: (Read<M>, seq<byte>))
    ensures r.0.Got? ==> |r.1| < |s|
  {
    if |s| < 4 then (if s == [] then Closed else Failed, [])
    else
      var len := FromLittleEndian(s[..4]);
      if len > MAX_FRAME then (Failed, s[4..])
      else if |s| < 4 + len then (Failed, [])
      else match decode(s[4..4 + len])
        case Some(m) => (Got(m), s[4 + len..])
        case None => (Failed, s[4 + len..])
  }

  /** A frame is its length in four bytes, the lowest first, and its body. */
  lemma FrameBytes(body: seq<byte>)
    ensures
      var n := |body|;
      Frame(body) == [n % 256, n / 256 % 256, n / 256 / 256 % 256, n / 256 / 256 / 256 % 256] + body
  {
    var n := |body|;
    var a, b, c := n / 256, n / 256 / 256, n / 256 / 256 / 256;
    assert LittleEndian(c, 1) == [c % 256] && LittleEndian(b, 2) == [b % 256] + LittleEndian(c, 1);
    assert LittleEndian(a, 3) == [a % 256] + LittleEndian(b, 2);
  }

  lemma LengthValue(s: seq<byte>)
    requires |s| == 4
    ensures FromLittleEndian(s) == s[0] as nat + 256 * (s[1] as nat + 256 * (s[2] as nat + 256 * s[3] as nat))
  {
    assert FromLittleEndian(s[3..]) == s[3] as nat + 256 * FromLittleEndian(s[3..][1..]);
    assert s[2..][1..] == s[3..] && s[1..][1..] == s[2..];
    assert FromLittleEndian(s[2..]) == s[2] as nat + 256 * FromLittleEndian(s[3..]);
    assert FromLittleEndian(s[1..]) == s[1] as nat + 256 * FromLittleEndian(s[2..]);
  }

  /** Exactly when a read ends cleanly, and when it gives a message and which: anything
      else is an error, a body that does not decode included. */
  lemma ReadFrameIff<M(!new)>(decode: seq<byte> -> Option<M>, s: seq<byte>, m: M)
    ensures ReadFrameOf(decode, s).0.Closed? <==> s == []
    ensures
      var (read, rest) := ReadFrameOf(decode, s);
      read == Got(m) <==>
        && |s| >= 4
        && var len := s[0] as nat + 256 * (s[1] as nat + 256 * (s[2] as nat + 256 * s[3] as nat));
        && len <= 16 * 1024 * 1024 && 4 + len <= |s| && decode(s[4..4 + len]) == Some(m)
    ensures
      var (read, rest) := ReadFrameOf(decode, s);
      read.Got? ==>
        && |s| >= 4
        && var len := s[0] as nat + 256 * (s[1] as nat + 256 * (s[2] as nat + 256 * s[3] as nat));
        && 4 + len <= |s| && rest == s[4 + len..]
  {
    if |s| >= 4 {
      LengthValue(s[..4]);
    }
  }

  /** Every message sent can be read back, whatever the codec does otherwise. */
  ghost predicate Lawful<M(!new)>(encode: M -> seq<byte>, decode: seq<byte> -> Option<M>) {
    forall m :: decode(encode(m)) == Some(m)
  }

  /** A frame is read back as the message it was written for, with nothing of
      what follows it touched, exactly if its body is within the limit. */
  lemma FrameRoundTripIff<M(!new)>(encode: M -> seq<byte>, decode: seq<byte> -> Option<M>, m: M, rest: seq<byte>)
    requires Lawful(encode, decode)
    ensures ReadFrameOf(decode, Frame(encode(m)) + rest) == (Got(m), rest) <==> |encode(m)| <= MAX_FRAME
  {
    var body, s := encode(m), Frame(encode(m)) + rest;
    LengthIs(|body|);
    assert s[..4] == LittleEndian(|body|, 4);
    if |body| <= MAX_FRAME {
      assert s[4..4 + |body|] == body && s[4 + |body|..] == rest;
    }
  }

  /** A frame too large to be read is refused, up to the lengths that wrap around. */
  lemma OversizedFrameFails<M(!new)>(encode: M -> seq<byte>, decode: seq<byte> -> Option<M>, m: M, rest: seq<byte>)
    requires MAX_FRAME < |encode(m)| < U32
    ensures ReadFrameOf(decode, Frame(encode(m)) + rest).0 == Failed
  {
    LengthIs(|encode(m)|);
    assert (Frame(encode(m)) + rest)[..4] == LittleEndian(|encode(m)|, 4);
  }

  /** For instance, with a codec that sends a number as that many zeros. */
  lemma OversizedFrameExample() returns (encode: nat -> seq<byte>, decode: seq<byte> -> Option<nat>)
    ensures Lawful<nat>(encode, decode) && |encode(MAX_FRAME + 1)| == MAX_FRAME + 1
    ensures ReadFrameOf(decode, Frame(encode(MAX_FRAME + 1))).0 == Failed
  {
    encode, decode := (n: nat) => Zeros(n), (s: seq<byte>) => Some(|s|);
    OversizedFrameFails<nat>(encode, decode, MAX_FRAME + 1, []);
    assert Frame(encode(MAX_FRAME + 1)) + [] == Frame(encode(MAX_FRAME + 1));
  }

  function Frames<M>(encode: M -> seq<byte>, msgs: seq<M>): seq<byte> {
    if msgs == [] then [] else Frame(encode(msgs[0])) + Frames(encode, msgs[1..])
  }

  /** Everything a reader gets from a stream, and whether it ended cleanly. */
  function ReadAll<M>(decode: seq<byte> -> Option<M>, s: seq<byte>): (seq<M>, bool)
    decreases |s|
  {
    var (read, rest) := ReadFrameOf(decode, s);
    match read
    case Closed => ([], true)
    case Failed => ([], false)
    case Got(m) =>
      var (more, clean) := ReadAll(decode, rest);
      ([m] + more, clean)
  }

  ghost predicate Sendable<M(!new)>(encode: M -> seq<byte>, msgs: seq<M>) {
    forall k :: 0 <= k < |msgs| ==> |encode(msgs[k])| <= MAX_FRAME
  }

  /** A stream cut anywhere gives exactly the messages whose frames are complete,
      then a clean end if the cut is between frames and an error if it is not. */
  lemma {:induction false} CutStream<M(!new)>(
      encode: M -> seq<byte>, decode: seq<byte> -> Option<M>, msgs: seq<M>, n: nat)
    returns (k: nat)
    requires Lawful(encode, decode) && Sendable(encode, msgs) && n <= |Frames(encode, msgs)|
    ensures k <= |msgs| && |Frames(encode, msgs[..k])| <= n
    ensures k < |msgs| ==> n < |Frames(encode, msgs[..k + 1])|
    ensures ReadAll(decode, Frames(encode, msgs)[..n]) == (msgs[..k], n == |Frames(encode, msgs[..k])|)
  {
    if msgs == [] {
      return 0;
    }
    var first, s := Frame(encode(msgs[0])), Frames(encode, msgs)[..n];
    if n < |first| {
      assert s == first[..n];
      CutFirstFrame(encode, decode, msgs[0], n);
      k := 0;
    } else {
      var rest := Frames(encode, msgs[1..])[..n - |first|];
      var j := CutStream(encode, decode, msgs[1..], n - |first|);
      assert s == first + rest;
      FrameRoundTripIff(encode, decode, msgs[0], rest);
      k := j + 1;
      FramesOfMore(encode, msgs, j);
      if k < |msgs| {
        FramesOfMore(encode, msgs, k);
      }
    }
  }

  lemma FramesOfMore<M>(encode: M -> seq<byte>, msgs: seq<M>, j: nat)
    requires j < |msgs|
    ensures msgs[..j + 1] == [msgs[0]] + msgs[1..][..j]
    ensures Frames(encode, msgs[..j + 1]) == Frame(encode(msgs[0])) + Frames(encode, msgs[1..][..j])
  {
    assert msgs[..j + 1][1..] == msgs[1..][..j];
  }

  /** Part of a frame is an error, except for none of it. */
  lemma CutFirstFrame<M(!new)>(encode: M -> seq<byte>, decode: seq<byte> -> Option<M>, m: M, n: nat)
    requires |encode(m)| <= MAX_FRAME && n < |Frame(encode(m))|
    ensures ReadAll(decode, Frame(encode(m))[..n]) == ([], n == 0)
  {
    var s := Frame(encode(m))[..n];
    if n >= 4 {
      LengthIs(|encode(m)|);
      assert s[..4] == LittleEndian(|encode(m)|, 4);
    }
    assert ReadFrameOf(decode, s).0 == if n == 0 then Closed else Failed;
  }

  /** Any list of sendable messages is read back as the same list, then a clean end. */
  lemma StreamRoundTrip<M(!new)>(encode: M -> seq<byte>, decode: seq<byte> -> Option<M>, msgs: seq<M>)
    requires Lawful(encode, decode) && Sendable(encode, msgs)
    ensures ReadAll(decode, Frames(encode, msgs)) == (msgs, true)
  {
    var s := Frames(encode, msgs);
    var k := CutStream(encode, decode, msgs, |s|);
    assert s[..|s|] == s && msgs[..|msgs|] == msgs;
    if k < |msgs| {
      FramesGrow(encode, msgs, k + 1);
    }
  }

  lemma {:induction false} FramesGrow<M>(encode: M -> seq<byte>, msgs: seq<M>, k: nat)
    requires k <= |msgs|
    ensures |Frames(encode, msgs[..k])| <= |Frames(encode, msgs)|
  {
    if k > 0 {
      FramesGrow(encode, msgs[1..], k - 1);
      assert msgs[..k][1..] == msgs[1..][..k - 1];
    }
  }

  /** The receiving end of a stream: the bytes that will still arrive before its end. */
  class RecvStream {
    var bytes: seq<byte>

    constructor (bytes: seq<byte>)
      ensures this.bytes == bytes
    {
      this.bytes := bytes;
    }

    /** Fill a buffer of `n` bytes, or say how many there were. */
    method ReadExact(n: nat) returns (buf: Result<seq<byte>, nat>)
      modifies this
      ensures |old(bytes)| < n ==> buf == Err(|old(bytes)|) && bytes == []
      ensures |old(bytes)| >= n ==> buf == Ok(old(bytes)[..n]) && bytes == old(bytes)[n..]
    {
      if |bytes| < n {
        buf, bytes := Err(|bytes|), [];
      } else {
        buf, bytes := Ok(bytes[..n]), bytes[n..];
      }
    }

    method ReadFrame<M>(decode: seq<byte> -> Option<M>) returns (read: Read<M>)
      modifies this
      ensures (read, bytes) == ReadFrameOf(decode, old(bytes))
    {
      var head := ReadExact(4);
      if head == Err(0) {
        return Closed;
      }
      if head.Err? {
        return Failed;
      }
      var len := FromLittleEndian(head.value);
      if len > MAX_FRAME {
        return Failed;
      }
      var body := ReadExact(len);
      if body.Err? {
        return Failed;
      }
      ghost var s := old(bytes);
      assert s[4..][..len] == s[4..4 + len] && s[4..][len..] == s[4 + len..];
      var msg := decode(body.value);
      read := if msg.Some? then Got(msg.value) else Failed;
    }
  }

  /** The sending end: what has been written to it. */
  class SendStream {
    var bytes: seq<byte>

    constructor ()
      ensures bytes == []
    {
      bytes := [];
    }

    method WriteFrame<M>(encode: M -> seq<byte>, msg: M)
      modifies this
      ensures bytes == old(bytes) + Frame(encode(msg))
    {
      var body := encode(msg);
      var frame := LittleEndian(|body|, 4);
      frame := frame + body;
      bytes := bytes + frame;
    }
  }

  // ---- Bits ----

  /** 1 << k. */
  function Mask(k: nat): bv8 {
    if k == 0 then 1 else Mask(k - 1) << 1
  }

  predicate Has(have: seq<bool>, i: nat) {
    i < |have| && have[i]
  }

  predicate BitSet(b: bv8, k: nat) {
    b & Mask(k) != 0
  }

  lemma MaskTable()
    ensures Mask(0) == 1 && Mask(1) == 2 && Mask(2) == 4 && Mask(3) == 8
    ensures Mask(4) == 16 && Mask(5) == 32 && Mask(6) == 64 && Mask(7) == 128
  {
  }

  lemma PackedByteExists(have: seq<bool>, at: nat) returns (b: bv8)
    ensures IsPackedByte(b, have, at)
  {
    MaskTable();
    b := (if Has(have, at) then 1 else 0) | (if Has(have, at + 1) then 2 else 0)
      | (if Has(have, at + 2) then 4 else 0) | (if Has(have, at + 3) then 8 else 0)
      | (if Has(have, at + 4) then 16 else 0) | (if Has(have, at + 5) then 32 else 0)
      | (if Has(have, at + 6) then 64 else 0) | (if Has(have, at + 7) then 128 else 0);
    forall k | 0 <= k < 8 ensures BitSet(b, k) <==> Has(have, at + k) {
      assert k == 0 || k == 1 || k == 2 || k == 3 || k == 4 || k == 5 || k == 6 || k == 7;
    }
  }

  ghost predicate IsPackedByte(b: bv8, have: seq<bool>, at: nat) {
    forall k :: 0 <= k < 8 ==> (BitSet(b, k) <==> Has(have, at + k))
  }

  /** The byte whose bits are the eight from `at`. */
  ghost function PackedByte(have: seq<bool>, at: nat): (b: bv8)
    ensures IsPackedByte(b, have, at)
  {
    assert exists b :: IsPackedByte(b, have, at) by {
      var b := PackedByteExists(have, at);
    }
    var b :| IsPackedByte(b, have, at);
    b
  }

  ghost function Packed(have: seq<bool>): (r: seq<bv8>) {
    seq((|have| + 7) / 8, b requires 0 <= b => PackedByte(have, 8 * b))
  }

  /** Bits past the end count as "does not have". */
  function UnpackBits(bytes: seq<bv8>, len: nat): (r: seq<bool>) {
    seq(len, i requires 0 <= i => i / 8 < |bytes| && BitSet(bytes[i / 8], i % 8))
  }

  /** A byte is its bits. */
  lemma SameBits(a: bv8, b: bv8)
    requires forall k :: 0 <= k < 8 ==> (BitSet(a, k) <==> BitSet(b, k))
    ensures a == b
  {
    MaskTable();
    assert BitSet(a, 0) == BitSet(b, 0) && BitSet(a, 1) == BitSet(b, 1);
    assert BitSet(a, 2) == BitSet(b, 2) && BitSet(a, 3) == BitSet(b, 3);
    assert BitSet(a, 4) == BitSet(b, 4) && BitSet(a, 5) == BitSet(b, 5);
    assert BitSet(a, 6) == BitSet(b, 6) && BitSet(a, 7) == BitSet(b, 7);
  }

  lemma PackedBit(have: seq<bool>, i: nat)
    requires i < |have|
    ensures i / 8 < |Packed(have)| && (BitSet(Packed(have)[i / 8], i % 8) <==> have[i])
  {
    var b, k := i / 8, i % 8;
    assert 8 * b + k == i && b < |Packed(have)|;
    assert BitSet(PackedByte(have, 8 * b), k) <==> Has(have, 8 * b + k);
  }

  lemma BitsRoundTrip(have: seq<bool>)
    ensures UnpackBits(Packed(have), |have|) == have
  {
    forall i | 0 <= i < |have| ensures UnpackBits(Packed(have), |have|)[i] == have[i] {
      PackedBit(have, i);
    }
  }

  /** Whatever the input, short or long: bit `i` is bit i % 8 of byte i / 8, counted from
      the lowest, or not set if there is no such byte. */
  lemma UnpackedIs(bytes: seq<bv8>, len: nat, i: nat)
    requires i < len
    ensures |UnpackBits(bytes, len)| == len
    ensures UnpackBits(bytes, len)[i] <==> i / 8 < |bytes| && bytes[i / 8] & Mask(i % 8) != 0
    ensures i % 8 < 8 && Mask(i % 8) as int == Power(i % 8)
  {
    MaskTable();
    MaskIsPower(i % 8);
  }

  function Power(k: nat): nat {
    if k == 0 then 1 else 2 * Power(k - 1)
  }

  lemma MaskIsPower(k: nat)
    requires k < 8
    ensures Mask(k) as int == Power(k)
  {
    MaskTable();
    assert Power(3) == 8 && Power(7) == 16 * Power(3);
    assert k == 0 || k == 1 || k == 2 || k == 3 || k == 4 || k == 5 || k == 6 || k == 7;
  }

  /** For instance, ten pieces in two bytes, and input that is too short. */
  lemma TenBits()
    ensures Packed([true, false, true, true, false, false, false, false, true, false]) == [13, 1]
    ensures UnpackBits([1], 3) == [true, false, false] && UnpackBits([], 2) == [false, false]
  {
    MaskTable();
    var have := [true, false, true, true, false, false, false, false, true, false];
    SameBitsOf(have, 0, 13);
    SameBitsOf(have, 8, 1);
    assert UnpackBits([1], 3) == [true, false, false];
  }

  lemma SameBitsOf(have: seq<bool>, at: nat, b: bv8)
    requires BitSet(b, 0) == Has(have, at) && BitSet(b, 1) == Has(have, at + 1)
    requires BitSet(b, 2) == Has(have, at + 2) && BitSet(b, 3) == Has(have, at + 3)
    requires BitSet(b, 4) == Has(have, at + 4) && BitSet(b, 5) == Has(have, at + 5)
    requires BitSet(b, 6) == Has(have, at + 6) && BitSet(b, 7) == Has(have, at + 7)
    ensures PackedByte(have, at) == b
  {
    var p := PackedByte(have, at);
    assert BitSet(p, 0) == Has(have, at) && BitSet(p, 1) == Has(have, at + 1) && BitSet(p, 2) == Has(have, at + 2);
    assert BitSet(p, 3) == Has(have, at + 3) && BitSet(p, 4) == Has(have, at + 4) && BitSet(p, 5) == Has(have, at + 5);
    assert BitSet(p, 6) == Has(have, at + 6) && BitSet(p, 7) == Has(have, at + 7);
    forall k: nat | k < 8 ensures BitSet(p, k) <==> BitSet(b, k) {
      assert k == 0 || k == 1 || k == 2 || k == 3 || k == 4 || k == 5 || k == 6 || k == 7;
    }
    SameBits(p, b);
  }

  ghost predicate ZeroPadded(bytes: seq<bv8>, len: nat) {
    && |bytes| == (len + 7) / 8
    && forall b, k :: 0 <= b < |bytes| && 0 <= k < 8 && 8 * b + k >= len ==> !BitSet(bytes[b], k)
  }

  lemma UnpackedBit(bytes: seq<bv8>, len: nat, b: nat, k: nat)
    requires b < |bytes| && k < 8
    ensures Has(UnpackBits(bytes, len), 8 * b + k) <==> 8 * b + k < len && BitSet(bytes[b], k)
  {
    assert (8 * b + k) / 8 == b && (8 * b + k) % 8 == k;
  }

  /** Packing undoes unpacking exactly on input of the right length whose spare bits are zero. */
  lemma UnpackThenPackIff(bytes: seq<bv8>, len: nat)
    ensures Packed(UnpackBits(bytes, len)) == bytes <==> ZeroPadded(bytes, len)
  {
    var have := UnpackBits(bytes, len);
    if |bytes| == (len + 7) / 8 {
      forall b, k | 0 <= b < |bytes| && 0 <= k < 8
        ensures BitSet(PackedByte(have, 8 * b), k) <==> 8 * b + k < len && BitSet(bytes[b], k)
      {
        UnpackedBit(bytes, len, b, k);
      }
      if ZeroPadded(bytes, len) {
        forall b | 0 <= b < |bytes| ensures PackedByte(have, 8 * b) == bytes[b] {
          SameBits(PackedByte(have, 8 * b), bytes[b]);
        }
      } else {
        var b, k :| 0 <= b < |bytes| && 0 <= k < 8 && 8 * b + k >= len && BitSet(bytes[b], k);
        assert !BitSet(PackedByte(have, 8 * b), k);
        assert Packed(have)[b] != bytes[b];
      }
    }
  }

  /** For instance, a spare bit that is set is lost. */
  lemma SpareBitIsLost()
    ensures Packed(UnpackBits([2], 1)) != [2]
  {
    MaskTable();
    assert BitSet([2 as bv8][0], 1);
    UnpackThenPackIff([2], 1);
  }

  /** The bits before `n`. */
  function Before(have: seq<bool>, n: nat): seq<bool>
    requires n <= |have|
  {
    seq(|have|, i requires 0 <= i < |have| => i < n && have[i])
  }

  /** Set one more bit. */
  lemma SetBit(have: seq<bool>, n: nat, b: nat)
    requires n < |have|
    ensures PackedByte(Before(have, n + 1), 8 * b) ==
            var was := PackedByte(Before(have, n), 8 * b);
            if have[n] && b == n / 8 then was | Mask(n % 8) else was
  {
    var was, now := PackedByte(Before(have, n), 8 * b), PackedByte(Before(have, n + 1), 8 * b);
    var j := n % 8;
    assert n == 8 * (n / 8) + j;
    if have[n] && b == n / 8 {
      forall k: nat | k < 8 ensures BitSet(now, k) <==> BitSet(was | Mask(j), k) {
        OrBit(was, j, k);
        BeforeMore(have, n, 8 * b + k);
      }
      SameBits(now, was | Mask(j));
    } else {
      forall k: nat | k < 8 ensures BitSet(now, k) <==> BitSet(was, k) {
        BeforeMore(have, n, 8 * b + k);
      }
      SameBits(now, was);
    }
  }

  lemma BeforeMore(have: seq<bool>, n: nat, i: nat)
    requires n < |have|
    ensures Has(Before(have, n + 1), i) <==> Has(Before(have, n), i) || (i == n && have[n])
  {
  }

  lemma OrBit(b: bv8, j: nat, k: nat)
    requires j < 8 && k < 8
    ensures BitSet(b | Mask(j), k) <==> BitSet(b, k) || j == k
  {
    MaskTable();
    assert j == 0 || j == 1 || j == 2 || j == 3 || j == 4 || j == 5 || j == 6 || j == 7;
    assert k == 0 || k == 1 || k == 2 || k == 3 || k == 4 || k == 5 || k == 6 || k == 7;
  }

  method PackBits(have: seq<bool>) returns (out: seq<bv8>)
    ensures out == Packed(have)
  {
    var bytes := new bv8[(|have| + 7) / 8](_ => 0);
    forall b | 0 <= b < bytes.Length ensures PackedByte(Before(have, 0), 8 * b) == 0 {
      SameBits(PackedByte(Before(have, 0), 8 * b), 0);
    }
    for i := 0 to |have|
      invariant forall b :: 0 <= b < bytes.Length ==> bytes[b] == PackedByte(Before(have, i), 8 * b)
    {
      forall b | 0 <= b < bytes.Length
        ensures PackedByte(Before(have, i + 1), 8 * b) ==
                if have[i] && b == i / 8 then bytes[b] | Mask(i % 8) else bytes[b]
      {
        SetBit(have, i, b);
      }
      if have[i] {
        bytes[i / 8] := bytes[i / 8] | Mask(i % 8);
      }
    }
    assert Before(have, |have|) == have;
    out := bytes[..];
  }
}
