/**
 The multiplexed Docker log stream: 8-byte frame headers with a big-endian
 32-bit payload size, and the scanner `completeDockerFrames`
 (internal/containers/docker.go).
 */
module DockerFrames {
  type Byte = x: int | 0 <= x < 256
  type Bytes = seq<Byte>

  const HEADER: nat := 8

  function Uint32(b: Bytes): (n: nat)
    requires |b| == 4
    ensures n < 0x1_0000_0000
  {
    var b0: int, b1: int, b2: int, b3: int := b[0], b[1], b[2], b[3];
    ((b0 * 256 + b1) * 256 + b2) * 256 + b3
  }

  /** The first byte in which the two differ is the smaller one in `a`. */
  ghost predicate Precedes(a: Bytes, b: Bytes)
    requires |a| == |b|
  {
    exists i :: 0 <= i < |a| && a[i] < b[i] && forall k :: 0 <= k < i ==> a[k] == b[k]
  }

  /** The most significant byte comes first: the numbers are ordered as the bytes read from left to right. */
  lemma {:induction false} Uint32Order(a: Bytes, b: Bytes)
    requires |a| == |b| == 4
    ensures Uint32(a) < Uint32(b) <==> Precedes(a, b)
  {
    if Uint32(a) < Uint32(b) {
      var i := if a[0] != b[0] then 0 else if a[1] != b[1] then 1 else if a[2] != b[2] then 2 else 3;
      assert a[i] < b[i] && forall k :: 0 <= k < i ==> a[k] == b[k];
    }
    if Precedes(a, b) {
      var i :| 0 <= i < |a| && a[i] < b[i] && forall k :: 0 <= k < i ==> a[k] == b[k];
      assert i == 0 || i == 1 || i == 2 || i == 3;
    }
  }

  function PutUint32(n: nat): (b: Bytes)
    requires n < 0x1_0000_0000
    ensures |b| == 4 && Uint32(b) == n
  {
    var high := n / 256;
    var higher := high / 256;
    [higher / 256, higher % 256, high % 256, n % 256]
  }

  /** Header plus payload of the frame at the front of `raw`. */
  function FrontSize(raw: Bytes): (n: nat)
    requires |raw| >= HEADER
    ensures n >= HEADER
  {
    HEADER + Uint32(raw[4..8])
  }

  /** A whole frame stands at the front. */
  predicate FrontWhole(raw: Bytes) {
    |raw| >= HEADER && FrontSize(raw) <= |raw|
  }

  /** `raw` is a concatenation of whole frames. */
  predicate Framed(raw: Bytes) {
    raw == [] || (FrontWhole(raw) && Framed(raw[FrontSize(raw)..]))
  }

  /** `completeDockerFrames`: the end of the longest prefix made of whole frames. */
  method CompleteFrames(raw: Bytes) returns (end: nat, complete: bool)
    ensures end <= |raw| && Framed(raw[..end])
    ensures forall k :: end < k <= |raw| ==> !Framed(raw[..k])
    ensures complete <==> end == |raw|
    ensures end == PrefixEnd(raw)
  {
    PrefixEndLongest(raw);
    var at := 0;
    while at < |raw|
      invariant 0 <= at <= |raw|
      invariant at == |raw| ==> raw == []
      invariant PrefixEnd(raw) == at + PrefixEnd(raw[at..])
    {
      if |raw| - at < 8 {
        return at, false;
      }
      var size := Uint32(raw[at + 4..at + 8]);
      assert raw[at..][4..8] == raw[at + 4..at + 8];
      if size > |raw| - at - 8 {
        return at, false;
      }
      assert raw[at..][FrontSize(raw[at..])..] == raw[at + 8 + size..];
      at := at + 8 + size;
      if at == |raw| {
        return at, true;
      }
    }
    return 0, true;
  }

  function PrefixEnd(raw: Bytes): (n: nat)
    ensures n <= |raw|
  {
    if FrontWhole(raw) then FrontSize(raw) + PrefixEnd(raw[FrontSize(raw)..]) else 0
  }

  lemma {:induction false} PrefixEndLongest(raw: Bytes)
    ensures Framed(raw[..PrefixEnd(raw)])
    ensures forall k :: PrefixEnd(raw) < k <= |raw| ==> !Framed(raw[..k])
  {
    if FrontWhole(raw) {
      var n := FrontSize(raw);
      var rest := raw[n..];
      PrefixEndLongest(rest);
      FramedSplit(raw, PrefixEnd(raw));
      forall k | PrefixEnd(raw) < k <= |raw|
        ensures !Framed(raw[..k])
      {
        FramedSplit(raw, k);
      }
    } else {
      forall k | 0 < k <= |raw|
        ensures !Framed(raw[..k])
      {
        if k >= HEADER {
          assert raw[..k][4..8] == raw[4..8];
        }
      }
    }
  }

  /** A prefix is framed exactly when it is the front frame followed by a framed part of the rest. */
  lemma {:induction false} FramedSplit(raw: Bytes, k: nat)
    requires FrontWhole(raw) && FrontSize(raw) <= k <= |raw|
    ensures Framed(raw[..k]) <==> Framed(raw[FrontSize(raw)..][..k - FrontSize(raw)])
  {
    var n := FrontSize(raw);
    assert raw[..k][4..8] == raw[4..8];
    assert raw[..k][n..] == raw[n..][..k - n];
  }

  // ----- frames, encoding and round trip -----

  /** A frame: stream byte, the three padding bytes and the payload. */
  datatype Frame = Frame(stream: Byte, pad: Bytes, payload: Bytes)

  predicate FrameValid(f: Frame) {
    |f.pad| == 3 && |f.payload| < 0x1_0000_0000
  }

  predicate AllValid(fs: seq<Frame>) {
    forall f :: f in fs ==> FrameValid(f)
  }

  function EncodeFrame(f: Frame): (b: Bytes)
    requires FrameValid(f)
    ensures |b| == HEADER + |f.payload|
  {
    [f.stream] + f.pad + PutUint32(|f.payload|) + f.payload
  }

  function Encode(fs: seq<Frame>): Bytes
    requires AllValid(fs)
  {
    if fs == [] then [] else EncodeFrame(fs[0]) + Encode(fs[1..])
  }

  function FrontFrame(raw: Bytes): Frame
    requires FrontWhole(raw)
  {
    Frame(raw[0], raw[1..4], raw[HEADER..FrontSize(raw)])
  }

  /** The frames wholly contained in `raw`, in order: what the demultiplexer sees. */
  function FramesOf(raw: Bytes): seq<Frame> {
    if FrontWhole(raw) then [FrontFrame(raw)] + FramesOf(raw[FrontSize(raw)..]) else []
  }

  lemma {:induction false} EncodedFront(f: Frame, rest: Bytes)
    requires FrameValid(f)
    ensures var raw := EncodeFrame(f) + rest;
            FrontWhole(raw) && FrontSize(raw) == |EncodeFrame(f)| && FrontFrame(raw) == f
              && raw[FrontSize(raw)..] == rest
  {
    var raw := EncodeFrame(f) + rest;
    assert raw[4..8] == PutUint32(|f.payload|);
    assert raw[1..4] == f.pad;
    assert raw[HEADER..HEADER + |f.payload|] == f.payload;
  }

  /** The frames before byte `cut` of an encoding. */
  function WholeBefore(fs: seq<Frame>, cut: nat): (j: nat)
    requires AllValid(fs)
    ensures j <= |fs|
  {
    if fs == [] || |EncodeFrame(fs[0])| > cut then 0
    else 1 + WholeBefore(fs[1..], cut - |EncodeFrame(fs[0])|)
  }

  /** `WholeBefore` counts exactly the frames that end at or before the cut. */
  lemma {:induction false} WholeBeforeExact(fs: seq<Frame>, cut: nat)
    requires AllValid(fs)
    ensures var j := WholeBefore(fs, cut);
            && |Encode(fs[..j])| <= cut
            && (j < |fs| ==> cut < |Encode(fs[..j + 1])|)
  {
    if fs != [] {
      if |EncodeFrame(fs[0])| <= cut {
        var rest, j := fs[1..], WholeBefore(fs, cut);
        WholeBeforeExact(rest, cut - |EncodeFrame(fs[0])|);
        assert fs[..j][1..] == rest[..j - 1];
        if j < |fs| {
          assert fs[..j + 1][1..] == rest[..j];
        }
      } else {
        assert fs[..1][1..] == [];
      }
    }
  }

  /**
   Encoding any frame list and cutting it at any byte: the scanner stops at the end
   of, and the demultiplexer recovers, exactly the frames wholly before the cut.
   */
  lemma {:induction false} CutRecoversWholeFrames(fs: seq<Frame>, cut: nat)
    requires AllValid(fs) && cut <= |Encode(fs)|
    ensures var j, raw := WholeBefore(fs, cut), Encode(fs)[..cut];
            && PrefixEnd(raw) == |Encode(fs[..j])|
            && FramesOf(raw) == fs[..j]
  {
    if fs != [] {
      var n := |EncodeFrame(fs[0])|;
      if n <= cut {
        CutRecoversWholeFrames(fs[1..], cut - n);
        CutLater(fs, cut);
      } else {
        CutInsideFrame(fs[0], Encode(fs[1..]), cut);
      }
    }
  }

  lemma {:induction false} CutLater(fs: seq<Frame>, cut: nat)
    requires AllValid(fs) && fs != [] && |EncodeFrame(fs[0])| <= cut <= |Encode(fs)|
    ensures var n := |EncodeFrame(fs[0])|;
            var j, raw, rest := WholeBefore(fs, cut), Encode(fs)[..cut], Encode(fs[1..])[..cut - n];
            && j == 1 + WholeBefore(fs[1..], cut - n) && FramesOf(raw) == [fs[0]] + FramesOf(rest)
            && PrefixEnd(raw) == n + PrefixEnd(rest) && fs[..j] == [fs[0]] + fs[1..][..j - 1]
            && |Encode(fs[..j])| == n + |Encode(fs[1..][..j - 1])|
  {
    CutBehindFrame(fs, cut);
    FramesCons(fs[0], Encode(fs[1..])[..cut - |EncodeFrame(fs[0])|]);
    EncodeCons(fs, WholeBefore(fs, cut));
  }

  lemma {:induction false} CutBehindFrame(fs: seq<Frame>, cut: nat)
    requires AllValid(fs) && fs != [] && |EncodeFrame(fs[0])| <= cut <= |Encode(fs)|
    ensures Encode(fs)[..cut] == EncodeFrame(fs[0]) + Encode(fs[1..])[..cut - |EncodeFrame(fs[0])|]
  {
  }

  lemma {:induction false} FramesCons(f: Frame, rest: Bytes)
    requires FrameValid(f)
    ensures FramesOf(EncodeFrame(f) + rest) == [f] + FramesOf(rest)
    ensures PrefixEnd(EncodeFrame(f) + rest) == |EncodeFrame(f)| + PrefixEnd(rest)
  {
    EncodedFront(f, rest);
  }

  lemma {:induction false} EncodeCons(fs: seq<Frame>, j: nat)
    requires AllValid(fs) && 0 < j <= |fs|
    ensures fs[..j] == [fs[0]] + fs[1..][..j - 1]
    ensures |Encode(fs[..j])| == |EncodeFrame(fs[0])| + |Encode(fs[1..][..j - 1])|
  {
    assert fs[..j][1..] == fs[1..][..j - 1];
  }

  /** No whole frame stands before a cut inside the first one. */
  lemma {:induction false} CutInsideFrame(f: Frame, tail: Bytes, cut: nat)
    requires FrameValid(f) && cut < |EncodeFrame(f)|
    ensures !FrontWhole((EncodeFrame(f) + tail)[..cut])
  {
    var raw := EncodeFrame(f) + tail;
    EncodedFront(f, tail);
    if cut >= HEADER {
      assert raw[..cut][4..8] == raw[4..8];
    }
  }

  /** Round trip: a whole encoding is framed and decodes to its frames. */
  lemma {:induction false} EncodingRoundTrip(fs: seq<Frame>)
    requires AllValid(fs)
    ensures PrefixEnd(Encode(fs)) == |Encode(fs)| && FramesOf(Encode(fs)) == fs
  {
    CutRecoversWholeFrames(fs, |Encode(fs)|);
    WholeBeforeAll(fs);
    assert Encode(fs)[..|Encode(fs)|] == Encode(fs);
    assert fs[..|fs|] == fs;
  }

  lemma {:induction false} WholeBeforeAll(fs: seq<Frame>)
    requires AllValid(fs)
    ensures WholeBefore(fs, |Encode(fs)|) == |fs|
  {
    if fs != [] {
      WholeBeforeAll(fs[1..]);
    }
  }

  lemma {:induction false} FrontOfPrefix(raw: Bytes, cut: nat)
    requires FrontWhole(raw) && FrontSize(raw) <= cut <= |raw|
    ensures FrontWhole(raw[..cut]) && FrontSize(raw[..cut]) == FrontSize(raw)
            && FrontFrame(raw[..cut]) == FrontFrame(raw)
    ensures raw[..cut][FrontSize(raw)..] == raw[FrontSize(raw)..][..cut - FrontSize(raw)]
  {
    assert raw[..cut][4..8] == raw[4..8];
    assert raw[..cut][1..4] == raw[1..4];
    assert raw[..cut][HEADER..FrontSize(raw)] == raw[HEADER..FrontSize(raw)];
  }

  /** The frames of a prefix are a prefix of the frames. */
  lemma {:induction false} PrefixFrames(raw: Bytes, cut: nat)
    requires cut <= |raw|
    ensures FramesOf(raw[..cut]) <= FramesOf(raw)
  {
    if FrontWhole(raw) && FrontSize(raw) <= cut {
      FrontOfPrefix(raw, cut);
      PrefixFrames(raw[FrontSize(raw)..], cut - FrontSize(raw));
    } else if cut >= HEADER {
      assert raw[..cut][4..8] == raw[4..8];
    }
  }

  lemma {:induction false} PrefixEndKeepsFrames(raw: Bytes)
    ensures FramesOf(raw[..PrefixEnd(raw)]) == FramesOf(raw)
  {
    if FrontWhole(raw) {
      FrontOfPrefix(raw, PrefixEnd(raw));
      PrefixEndKeepsFrames(raw[FrontSize(raw)..]);
    }
  }
}
