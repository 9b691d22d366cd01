/**
 The data path of `Logs` (internal/containers/docker.go), end to end: the capped
 transport, the frame scanner, the demultiplexer, the collector and the line trim
 compose into a window of the original stream.
 */
module ContainerLogs {
  import opened DockerFrames
  import opened LogCollector
  import opened LatestLines

  const MAX_WIRE: nat := 512 * 1024

  datatype Result = Logs(chunks: seq<Chunk>, truncated: bool) | Refused

  /** The whole stream as labelled chunks: one chunk for a terminal, one per frame otherwise. */
  function Whole(tty: bool, wire: Bytes): seq<Chunk> {
    if !tty then Labelled(FramesOf(wire))
    else if wire == [] then [] else [Chunk(Stdout, wire)]
  }

  ghost predicate PartOf(a: Bytes, b: Bytes) {
    exists lo, hi :: 0 <= lo <= hi <= |b| && a == b[lo..hi]
  }

  /** The kept chunks, in order, are parts of distinct chunks of the whole stream with their labels. */
  ghost predicate PartsInOrder(kept: seq<Chunk>, whole: seq<Chunk>, origin: seq<nat>) {
    && |origin| == |kept|
    && (forall i, j :: 0 <= i < j < |origin| ==> origin[i] < origin[j])
    && forall i :: 0 <= i < |kept| ==>
         origin[i] < |whole| && kept[i].stream == whole[origin[i]].stream && PartOf(kept[i].text, whole[origin[i]].text)
  }

  /** The text is a contiguous part of the whole text, chunk by chunk in order. */
  ghost predicate Placed(chunks: seq<Chunk>, whole: seq<Chunk>) {
    PartOf(TextOf(chunks), TextOf(whole)) && exists origin :: PartsInOrder(chunks, whole, origin)
  }

  ghost predicate Capped(chunks: seq<Chunk>) {
    |TextOf(chunks)| <= MAX_TEXT && |chunks| <= MAX_CHUNKS
  }

  /** A cap was reached. */
  ghost predicate Full(chunks: seq<Chunk>) {
    |TextOf(chunks)| == MAX_TEXT || |chunks| == MAX_CHUNKS
  }

  /** The chunks as they are, or what trimming leaves when they have too many lines. */
  function Latest(chunks: seq<Chunk>, limit: nat): seq<Chunk> {
    if Lines(chunks) > limit then Trim(chunks, Lines(chunks) - limit) else chunks
  }

  /** The leading part of a body that the transport delivers. */
  function Delivered(wire: Bytes): Bytes {
    if |wire| > MAX_WIRE then wire[..MAX_WIRE] else wire
  }

  /** What the collector holds: all that was delivered, or a leading part that reaches a cap. */
  ghost predicate Collected(got: seq<Chunk>, tty: bool, wire: Bytes) {
    Leading(got, Whole(tty, wire)) && Capped(got) && (got == Whole(tty, Delivered(wire)) || Full(got))
  }

  /** Both caps and the line limit hold, and the text is a contiguous window of the whole stream. */
  ghost predicate Window(r: Result, limit: nat, whole: seq<Chunk>)
    requires r.Logs?
  {
    && Placed(r.chunks, whole)
    && Capped(r.chunks) && Lines(r.chunks) <= limit
    && (!r.truncated ==> r.chunks == whole)
  }

  /** Leading chunks of the whole stream, each possibly cut short. */
  ghost predicate Leading(chunks: seq<Chunk>, whole: seq<Chunk>) {
    && |chunks| <= |whole| && TextOf(chunks) <= TextOf(whole)
    && forall j :: 0 <= j < |chunks| ==> chunks[j].stream == whole[j].stream && chunks[j].text <= whole[j].text
  }

  lemma {:induction false} SuffixOfPrefix(a: Bytes, b: Bytes, p: nat)
    requires p <= |a| && a <= b
    ensures PartOf(a[p..], b)
  {
    assert a == b[..|a|];
    assert a[p..] == b[p..|a|];
  }

  lemma {:induction false} OriginsOfPrefix(kept: seq<Chunk>, chunks: seq<Chunk>, whole: seq<Chunk>, origin: seq<nat>)
    requires Leading(chunks, whole) && TrimmedFrom(kept, chunks, origin)
    ensures PartsInOrder(kept, whole, origin)
  {
    forall i | 0 <= i < |kept|
      ensures origin[i] < |whole| && kept[i].stream == whole[origin[i]].stream
              && PartOf(kept[i].text, whole[origin[i]].text)
    {
      var c := chunks[origin[i]];
      assert SuffixOf(kept[i], c);
      SuffixOfPrefix(c.text, whole[origin[i]].text, |c.text| - |kept[i].text|);
    }
  }

  lemma {:induction false} LeadingPlaced(chunks: seq<Chunk>, whole: seq<Chunk>)
    requires Leading(chunks, whole)
    ensures Placed(chunks, whole)
  {
    var origin: seq<nat> := seq(|chunks|, i => i);
    forall i | 0 <= i < |chunks|
      ensures PartOf(chunks[i].text, whole[i].text)
    {
      SuffixOfPrefix(chunks[i].text, whole[i].text, 0);
      assert chunks[i].text[0..] == chunks[i].text;
    }
    assert PartsInOrder(chunks, whole, origin);
    SuffixOfPrefix(TextOf(chunks), TextOf(whole), 0);
    assert TextOf(chunks)[0..] == TextOf(chunks);
  }

  /** Trimming what the collector holds yields a window of the whole stream. */
  lemma {:induction false} TrimmedPlaced(chunks: seq<Chunk>, whole: seq<Chunk>, drop: nat)
    requires Leading(chunks, whole)
    ensures Placed(Trim(chunks, drop), whole)
  {
    TrimText(chunks, drop);
    var origin := TrimOrigin(chunks, drop);
    OriginsOfPrefix(Trim(chunks, drop), chunks, whole, origin);
    SuffixOfPrefix(TextOf(chunks), TextOf(whole), AfterNewline(TextOf(chunks), drop));
  }

  lemma {:induction false} TrimmedCapped(chunks: seq<Chunk>, drop: nat)
    requires Capped(chunks)
    ensures Capped(Trim(chunks, drop))
  {
    TrimText(chunks, drop);
    var origin := TrimOrigin(chunks, drop);
    IncreasingShort(origin, |chunks|);
  }

  lemma {:induction false} IncreasingShort(origin: seq<nat>, n: nat)
    requires forall i, j :: 0 <= i < j < |origin| ==> origin[i] < origin[j]
    requires forall i :: 0 <= i < |origin| ==> origin[i] < n
    ensures |origin| <= n
    decreases n
  {
    if origin != [] {
      IncreasingShort(origin[..|origin| - 1], origin[|origin| - 1]);
    }
  }

  lemma {:induction false} PrefixLabels(whole: Bytes, raw: Bytes)
    requires raw <= whole
    ensures FramesOf(raw) <= FramesOf(whole)
    ensures Labelled(FramesOf(raw)) <= Labelled(FramesOf(whole))
    ensures PayloadText(FramesOf(raw)) <= PayloadText(FramesOf(whole))
  {
    assert raw == whole[..|raw|];
    PrefixFrames(whole, |raw|);
    var fs, n := FramesOf(whole), |FramesOf(raw)|;
    assert FramesOf(raw) == fs[..n];
    PayloadPrefix(fs, n);
  }

  lemma {:induction false} FedLeads(chunks: seq<Chunk>, raw: Bytes, wire: Bytes)
    requires raw <= wire && FedFrom(chunks, FramesOf(raw))
    ensures Leading(chunks, Whole(false, wire))
  {
    PrefixLabels(wire, raw);
    var part, whole := Labelled(FramesOf(raw)), Whole(false, wire);
    forall j | 0 <= j < |chunks|
      ensures chunks[j].stream == whole[j].stream && chunks[j].text <= whole[j].text
    {
      assert part[j] == whole[j];
    }
  }

  /** The terminal path: a single write of the whole body. */
  method CopyTerminal(c: Collector, raw: Bytes, ghost wire: Bytes) returns (limited: bool)
    requires c.Valid() && c.chunks == [] && c.used == 0 && raw <= wire
    modifies c
    ensures c.Valid() && Leading(c.chunks, Whole(true, wire))
    ensures if limited then Full(c.chunks) else c.chunks == Whole(true, raw)
  {
    limited := false;
    if raw != [] {
      var n;
      n, limited := c.Write(Stdout, raw);
      TextOfOneChunk(Chunk(Stdout, wire));
      assert [] + raw[..n] == raw[..n];
    }
  }

  lemma {:induction false} TextOfOneChunk(c: Chunk)
    ensures TextOf([c]) == c.text
  {
    assert [c][..0] == [];
  }

  /** The multiplexed path: scan, cut to whole frames if the transport cut the body, demultiplex. */
  method CopyFrames(c: Collector, raw: Bytes, cut: bool, ghost wire: Bytes) returns (r: Feed)
    requires c.Valid() && c.chunks == [] && raw <= wire
    modifies c
    ensures c.Valid() && Leading(c.chunks, Whole(false, wire))
    ensures !cut && PrefixEnd(raw) != |raw| ==> r == BadStream
    ensures r == Complete ==> c.chunks == Whole(false, raw) && AllKnown(FramesOf(raw))
    ensures r == Limited ==> Full(c.chunks)
    ensures r == BadStream ==> (!cut && PrefixEnd(raw) != |raw|) || !AllKnown(FramesOf(raw))
  {
    var end, complete := CompleteFrames(raw);
    if !complete && !cut {
      assert TextOf(c.chunks) == [];
      return BadStream;
    }
    var body := if complete then raw else raw[..end];
    PrefixEndKeepsFrames(raw);
    assert raw[..|raw|] == raw;
    r := Demultiplex(c, FramesOf(body));
    FedLeads(c.chunks, raw, wire);
  }

  lemma {:induction false} TrimmedWindow(chunks: seq<Chunk>, whole: seq<Chunk>, limit: nat)
    requires 1 <= limit < Lines(chunks) && Leading(chunks, whole) && Capped(chunks)
    ensures Window(Logs(Trim(chunks, Lines(chunks) - limit), true), limit, whole)
  {
    var drop: nat := Lines(chunks) - limit;
    assert Lines(Trim(chunks, drop)) <= limit by { TrimLines(chunks, limit); }
    assert Placed(Trim(chunks, drop), whole) by { TrimmedPlaced(chunks, whole, drop); }
    assert Capped(Trim(chunks, drop)) by { TrimmedCapped(chunks, drop); }
  }

  /** The last stage: trim to the line limit and report every kind of truncation. */
  method TrimToLimit(chunks: seq<Chunk>, limit: nat, cut: bool, ghost whole: seq<Chunk>) returns (r: Result)
    requires 1 <= limit && Leading(chunks, whole) && Capped(chunks)
    requires !cut ==> chunks == whole
    ensures r.Logs? && Window(r, limit, whole)
    ensures r.chunks == Latest(chunks, limit) && (r.truncated <==> cut || Lines(chunks) > limit)
  {
    var kept, dropped := KeepLatestLines(chunks, limit);
    if dropped {
      TrimmedWindow(chunks, whole, limit);
      return Logs(kept, true);
    }
    LeadingPlaced(chunks, whole);
    return Logs(kept, cut);
  }

  /**
   `Logs`: the latest lines of what was collected, which is everything delivered or a
   leading part that reaches a cap; so a window of the demultiplexed stream within every
   cap, and an untruncated answer is the whole stream with its labels and order.
   */
  method ReadLogs(idValid: bool, limit: int, available: bool, tty: bool, wire: Bytes)
    returns (r: Result, ghost got: seq<Chunk>)
    ensures r.Logs? ==> Collected(got, tty, wire) && limit >= 0 && r.chunks == Latest(got, limit)
    ensures r.Logs? && r.truncated ==> |wire| > 524288 || Full(got) || Lines(got) > limit
    ensures r.Logs? ==> idValid && available && 1 <= limit <= 100 && Window(r, limit, Whole(tty, wire))
    ensures r.Logs? && !r.truncated && !tty ==> PrefixEnd(wire) == |wire| && AllKnown(FramesOf(wire))
    ensures r.Logs? ==> |TextOf(r.chunks)| <= 65536 && |r.chunks| <= 200
    ensures r.Logs? && |wire| > 524288 ==> r.truncated
    ensures r.Refused? ==> !idValid || !(1 <= limit <= 100) || !available
                           || (!tty && ((|wire| <= 524288 && PrefixEnd(wire) != |wire|) || !AllKnown(FramesOf(wire))))
  {
    got := [];
    if !idValid || limit < 1 || limit > 100 || !available {
      return Refused, got;
    }
    var cut := |wire| > MAX_WIRE;
    var raw := Delivered(wire);
    PrefixLabels(wire, raw);
    var c := new Collector();
    var limited;
    if tty {
      limited := CopyTerminal(c, raw, wire);
    } else {
      var feed := CopyFrames(c, raw, cut, wire);
      if feed == BadStream {
        assert AllKnown(FramesOf(wire)) ==> AllKnown(FramesOf(raw));
        return Refused, got;
      }
      limited := feed == Limited;
    }
    got := c.chunks;
    r := TrimToLimit(c.chunks, limit, cut || limited, Whole(tty, wire));
  }

  /** Each kept chunk is part of one frame's payload, in order, on stderr exactly where the header byte is 2. */
  ghost predicate FromFrames(kept: seq<Chunk>, fs: seq<Frame>, origin: seq<nat>) {
    && |origin| == |kept|
    && (forall i, j :: 0 <= i < j < |origin| ==> origin[i] < origin[j])
    && forall i :: 0 <= i < |kept| ==>
         && origin[i] < |fs| && (kept[i].stream == Stderr <==> fs[origin[i]].stream == 2)
         && PartOf(kept[i].text, fs[origin[i]].payload)
  }

  /** The whole answer: one chunk for each frame. */
  ghost predicate AllOf(chunks: seq<Chunk>, fs: seq<Frame>) {
    && |chunks| == |fs|
    && forall i :: 0 <= i < |fs| ==>
         (chunks[i].stream == Stderr <==> fs[i].stream == 2) && chunks[i].text == fs[i].payload
  }

  /** `Logs` of a container that wrote these frames; a log within every cap and the line limit comes back whole. */
  method ReadFrames(idValid: bool, limit: int, available: bool, fs: seq<Frame>) returns (r: Result)
    requires AllValid(fs)
    ensures r.Logs? ==> exists origin :: FromFrames(r.chunks, fs, origin)
    ensures r.Logs? && !r.truncated ==> AllOf(r.chunks, fs)
    ensures idValid && available && 1 <= limit <= 100 && (forall f :: f in fs ==> f.stream <= 2)
              && |Encode(fs)| <= 524288 && |fs| < 200 && |PayloadText(fs)| < 65536 && Lines(Labelled(fs)) <= limit
            ==> r.Logs? && !r.truncated
  {
    EncodingRoundTrip(fs);
    ghost var got;
    r, got := ReadLogs(idValid, limit, available, false, Encode(fs));
    if r.Logs? {
      PartsFromFrames(r.chunks, fs);
      SmallIsWhole(got, fs);
    }
  }

  lemma {:induction false} PartsFromFrames(kept: seq<Chunk>, fs: seq<Frame>)
    ensures Placed(kept, Labelled(fs)) ==> exists origin :: FromFrames(kept, fs, origin)
    ensures kept == Labelled(fs) ==> AllOf(kept, fs)
  {
    if Placed(kept, Labelled(fs)) {
      var origin :| PartsInOrder(kept, Labelled(fs), origin);
      PartsAt(kept, fs, origin);
    }
  }

  lemma {:induction false} PartsAt(kept: seq<Chunk>, fs: seq<Frame>, origin: seq<nat>)
    requires PartsInOrder(kept, Labelled(fs), origin)
    ensures FromFrames(kept, fs, origin)
  {
    forall i | 0 <= i < |kept|
      ensures && origin[i] < |fs| && (kept[i].stream == Stderr <==> fs[origin[i]].stream == 2)
              && PartOf(kept[i].text, fs[origin[i]].payload)
    {
      assert Labelled(fs)[origin[i]].text == fs[origin[i]].payload;
    }
  }

  /** A collector that stays below both caps has everything. */
  lemma {:induction false} SmallIsWhole(got: seq<Chunk>, fs: seq<Frame>)
    requires AllValid(fs) && FramesOf(Encode(fs)) == fs && Collected(got, false, Encode(fs))
    ensures |Encode(fs)| <= 524288 && |fs| < 200 && |PayloadText(fs)| < 65536 ==> got == Labelled(fs) && !Full(got)
  {
  }
}
