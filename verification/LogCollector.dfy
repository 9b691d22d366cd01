/**
 The capped collector behind the two log writers (`logWriter.Write`,
 internal/containers/docker.go) and the demultiplexed feed that fills it.
 The demultiplexer performs one write per frame and stops at the first error.
 */
module LogCollector {
  import opened DockerFrames

  const MAX_TEXT: nat := 64 * 1024
  const MAX_CHUNKS: nat := 200

  datatype Stream = Stdout | Stderr
  datatype Chunk = Chunk(stream: Stream, text: Bytes)

  function TextOf(chunks: seq<Chunk>): Bytes {
    if chunks == [] then [] else TextOf(chunks[..|chunks| - 1]) + chunks[|chunks| - 1].text
  }

  lemma {:induction false} TextOfConcat(a: seq<Chunk>, b: seq<Chunk>)
    ensures TextOf(a + b) == TextOf(a) + TextOf(b)
  {
    if b == [] {
      assert a + b == a;
    } else {
      var n := |b| - 1;
      assert (a + b)[..|a + b| - 1] == a + b[..n];
      TextOfConcat(a, b[..n]);
    }
  }

  class Collector {
    var chunks: seq<Chunk>
    var used: nat

    ghost predicate Valid()
      reads this
    {
      used == |TextOf(chunks)| && used <= MAX_TEXT && |chunks| <= MAX_CHUNKS
    }

    constructor ()
      ensures Valid() && chunks == [] && used == 0
    {
      chunks, used := [], 0;
    }

    /** One write: the chunk kept is the data's longest prefix that fits; an error means something was dropped. */
    method Write(stream: Stream, data: Bytes) returns (n: nat, limited: bool)
      requires Valid()
      modifies this
      ensures Valid()
      ensures n <= |data| && TextOf(chunks) == old(TextOf(chunks)) + data[..n]
      ensures !limited ==> n == |data| && chunks == old(chunks) + [Chunk(stream, data)]
      ensures limited ==> chunks == old(chunks) || chunks == old(chunks) + [Chunk(stream, data[..n])]
      ensures limited <==> old(used) == MAX_TEXT || old(|chunks|) == MAX_CHUNKS || |data| > MAX_TEXT - old(used)
      ensures limited ==> used == MAX_TEXT || |chunks| == MAX_CHUNKS
    {
      var remaining := MAX_TEXT - used;
      if remaining <= 0 || |chunks| >= MAX_CHUNKS {
        assert data[..0] == [];
        return 0, true;
      }
      n := if |data| < remaining then |data| else remaining;
      assert (chunks + [Chunk(stream, data[..n])])[..|chunks|] == chunks;
      chunks := chunks + [Chunk(stream, data[..n])];
      used := used + n;
      assert data[..|data|] == data;
      return n, n < |data|;
    }
  }

  datatype Feed = Complete | Limited | BadStream

  /** The stream a frame's header byte names; 0 is folded into stdout, others are errors. */
  predicate Known(b: Byte) {
    b <= 2
  }

  function StreamOf(b: Byte): Stream
    requires Known(b)
  {
    if b == 2 then Stderr else Stdout
  }

  predicate AllKnown(fs: seq<Frame>) {
    forall f :: f in fs ==> Known(f.stream)
  }

  /** The frames as labelled chunks: the demultiplexed payload stream. */
  function Labelled(fs: seq<Frame>): (cs: seq<Chunk>)
    ensures |cs| == |fs|
  {
    seq(|fs|, i requires 0 <= i < |fs| => Chunk(if fs[i].stream == 2 then Stderr else Stdout, fs[i].payload))
  }

  lemma {:induction false} LabelledSnoc(fs: seq<Frame>, k: nat)
    requires k < |fs| && Known(fs[k].stream)
    ensures Labelled(fs[..k + 1]) == Labelled(fs[..k]) + [Chunk(StreamOf(fs[k].stream), fs[k].payload)]
    ensures Labelled(fs)[k] == Chunk(StreamOf(fs[k].stream), fs[k].payload)
  {
  }

  function PayloadText(fs: seq<Frame>): Bytes {
    TextOf(Labelled(fs))
  }

  lemma {:induction false} PayloadSnoc(fs: seq<Frame>, k: nat)
    requires k < |fs|
    ensures PayloadText(fs[..k + 1]) == PayloadText(fs[..k]) + fs[k].payload
  {
    assert Labelled(fs[..k + 1])[..k] == Labelled(fs[..k]);
  }

  lemma {:induction false} PayloadPrefix(fs: seq<Frame>, k: nat)
    requires k <= |fs|
    ensures PayloadText(fs[..k]) <= PayloadText(fs)
    decreases |fs| - k
  {
    if k == |fs| {
      assert fs[..k] == fs;
    } else {
      PayloadSnoc(fs, k);
      PayloadPrefix(fs, k + 1);
    }
  }

  /** The chunks are the leading frames with their labels, the last one possibly cut short. */
  ghost predicate FedFrom(chunks: seq<Chunk>, fs: seq<Frame>) {
    && |chunks| <= |fs|
    && (forall j :: 0 <= j < |chunks| ==>
          chunks[j].stream == Labelled(fs)[j].stream && chunks[j].text <= Labelled(fs)[j].text)
    && TextOf(chunks) <= PayloadText(fs)
  }

  lemma {:induction false} FedWhole(fs: seq<Frame>, k: nat)
    requires k <= |fs|
    ensures FedFrom(Labelled(fs[..k]), fs)
  {
    PayloadPrefix(fs, k);
  }

  lemma {:induction false} FedPart(fs: seq<Frame>, k: nat, n: nat)
    requires k < |fs| && n <= |fs[k].payload|
    ensures FedFrom(Labelled(fs[..k]) + [Labelled(fs)[k].(text := fs[k].payload[..n])], fs)
  {
    var before, last := Labelled(fs[..k]), Labelled(fs)[k].(text := fs[k].payload[..n]);
    assert (before + [last])[..k] == before;
    PayloadSnoc(fs, k);
    PayloadPrefix(fs, k + 1);
    assert TextOf(before + [last]) == PayloadText(fs[..k]) + fs[k].payload[..n];
    assert PayloadText(fs[..k]) + fs[k].payload[..n] <= PayloadText(fs[..k]) + fs[k].payload;
  }

  /** One frame's write. */
  method WriteFrame(c: Collector, fs: seq<Frame>, k: nat) returns (limited: bool)
    requires c.Valid() && k < |fs| && Known(fs[k].stream) && c.chunks == Labelled(fs[..k])
    modifies c
    ensures c.Valid() && FedFrom(c.chunks, fs)
    ensures !limited ==> c.chunks == Labelled(fs[..k + 1])
    ensures limited ==> c.used == MAX_TEXT || |c.chunks| == MAX_CHUNKS
  {
    LabelledSnoc(fs, k);
    FedWhole(fs, k);
    FedWhole(fs, k + 1);
    var n;
    n, limited := c.Write(StreamOf(fs[k].stream), fs[k].payload);
    if limited {
      FedPart(fs, k, n);
    }
  }

  /** The demultiplexer over the frames of a stream. */
  method Demultiplex(c: Collector, fs: seq<Frame>) returns (r: Feed)
    requires c.Valid() && c.chunks == []
    modifies c
    ensures c.Valid() && FedFrom(c.chunks, fs)
    ensures r == Complete ==> AllKnown(fs) && c.chunks == Labelled(fs)
    ensures r == Limited ==> c.used == MAX_TEXT || |c.chunks| == MAX_CHUNKS
    ensures r == BadStream ==> !AllKnown(fs)
  {
    var k := 0;
    while k < |fs|
      invariant 0 <= k <= |fs| && c.Valid()
      invariant forall j :: 0 <= j < k ==> Known(fs[j].stream)
      invariant c.chunks == Labelled(fs[..k])
    {
      FedWhole(fs, k);
      if !Known(fs[k].stream) {
        return BadStream;
      }
      var limited := WriteFrame(c, fs, k);
      if limited {
        return Limited;
      }
      k := k + 1;
    }
    assert fs[..k] == fs;
    FedWhole(fs, k);
    return Complete;
  }
}
