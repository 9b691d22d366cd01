/**
 `keepLatestLines` (internal/containers/docker.go): dropping the oldest lines of a
 chunk list, where lines may span chunks.
 */
module LatestLines {
  import opened DockerFrames
  import opened LogCollector

  const NEWLINE: Byte := 10

  function CountNewlines(t: Bytes): nat {
    if t == [] then 0 else CountNewlines(t[..|t| - 1]) + if t[|t| - 1] == NEWLINE then 1 else 0
  }

  lemma {:induction false} CountConcat(a: Bytes, b: Bytes)
    ensures CountNewlines(a + b) == CountNewlines(a) + CountNewlines(b)
  {
    if b == [] {
      assert a + b == a;
    } else {
      assert (a + b)[..|a + b| - 1] == a + b[..|b| - 1];
      CountConcat(a, b[..|b| - 1]);
    }
  }

  predicate EndsLine(t: Bytes) {
    t != [] && t[|t| - 1] == NEWLINE
  }

  /** The source's line count: newlines, plus one unless the last chunk ends a line. */
  function Lines(chunks: seq<Chunk>): nat {
    CountNewlines(TextOf(chunks)) + if chunks != [] && !EndsLine(chunks[|chunks| - 1].text) then 1 else 0
  }

  ghost function NewlineAt(t: Bytes): set<nat> {
    set i: nat | i < |t| && t[i] == 10
  }

  lemma {:induction false} NewlinesCounted(t: Bytes)
    ensures CountNewlines(t) == |NewlineAt(t)|
  {
    if t != [] {
      var n: nat := |t| - 1;
      NewlinesCounted(t[..n]);
      assert NewlineAt(t) == NewlineAt(t[..n]) + if t[n] == 10 then {n} else {};
    } else {
      assert NewlineAt(t) == {};
    }
  }

  /** Lines are the newline bytes of the text, and one more where the last chunk does not end in one. */
  lemma {:induction false} LinesCounted(chunks: seq<Chunk>)
    ensures Lines(chunks)
         == |set i: nat | i < |TextOf(chunks)| && TextOf(chunks)[i] == 10|
            + if chunks != []
                 && (chunks[|chunks| - 1].text == []
                     || chunks[|chunks| - 1].text[|chunks[|chunks| - 1].text| - 1] != 10) then 1 else 0
  {
    NewlinesCounted(TextOf(chunks));
    assert NewlineAt(TextOf(chunks)) == set i: nat | i < |TextOf(chunks)| && TextOf(chunks)[i] == 10;
  }

  function Left(t: Bytes, drop: nat): nat {
    if drop <= CountNewlines(t) then 0 else drop - CountNewlines(t)
  }

  /** Position just after the `drop`-th newline, or the end when there are fewer. */
  function AfterNewline(t: Bytes, drop: nat): (p: nat)
    ensures p <= |t|
  {
    if drop == 0 || t == [] then 0
    else 1 + AfterNewline(t[1..], if t[0] == NEWLINE then drop - 1 else drop)
  }

  /** `AfterNewline` is the position right behind the `drop`-th newline and nowhere else. */
  lemma {:induction false} AfterNewlineExact(t: Bytes, drop: nat)
    requires 0 < drop <= CountNewlines(t)
    ensures var p := AfterNewline(t, drop);
            p > 0 && t[p - 1] == NEWLINE && CountNewlines(t[..p]) == drop
              && CountNewlines(t[p..]) == CountNewlines(t) - drop
  {
    var p := AfterNewline(t, drop);
    CountHead(t);
    var less := if t[0] == NEWLINE then drop - 1 else drop;
    assert p == 1 + AfterNewline(t[1..], less);
    CountHead(t[..p]);
    assert t[..p][1..] == t[1..][..p - 1];
    if less > 0 {
      AfterNewlineExact(t[1..], less);
    }
    assert t == t[..p] + t[p..];
    CountConcat(t[..p], t[p..]);
  }

  lemma {:induction false} CountHead(t: Bytes)
    requires t != []
    ensures CountNewlines(t) == (if t[0] == NEWLINE then 1 else 0) + CountNewlines(t[1..])
  {
    assert t == [t[0]] + t[1..];
    CountConcat([t[0]], t[1..]);
    assert [t[0]][..0] == [];
  }

  lemma {:induction false} AfterNewlineShort(t: Bytes, drop: nat)
    requires CountNewlines(t) < drop
    ensures AfterNewline(t, drop) == |t|
  {
    if t != [] {
      assert t == [t[0]] + t[1..];
      CountConcat([t[0]], t[1..]);
      assert CountNewlines([t[0]]) == if t[0] == NEWLINE then 1 else 0 by { assert [t[0]][..0] == []; }
      AfterNewlineShort(t[1..], if t[0] == NEWLINE then drop - 1 else drop);
    }
  }

  /** Dropping across a boundary: the first part gives up what it has, the second the remainder. */
  lemma {:induction false} AfterNewlineConcat(a: Bytes, b: Bytes, drop: nat)
    ensures AfterNewline(a + b, drop) ==
            if drop <= CountNewlines(a) then AfterNewline(a, drop) else |a| + AfterNewline(b, drop - CountNewlines(a))
  {
    if a == [] {
      assert a + b == b;
    } else {
      assert a == [a[0]] + a[1..];
      CountConcat([a[0]], a[1..]);
      assert CountNewlines([a[0]]) == if a[0] == NEWLINE then 1 else 0 by { assert [a[0]][..0] == []; }
      if drop > 0 {
        assert (a + b)[1..] == a[1..] + b;
        AfterNewlineConcat(a[1..], b, if a[0] == NEWLINE then drop - 1 else drop);
      }
    }
  }

  /** Stepping past the first newline. */
  lemma {:induction false} PastFirstNewline(t: Bytes, at: nat, drop: nat)
    requires at < |t| && CountNewlines(t[..at]) == 0 && CountNewlines(t[..at + 1]) == 1 && drop > 0
    ensures AfterNewline(t, drop) == at + 1 + AfterNewline(t[at + 1..], drop - 1)
    ensures CountNewlines(t) == 1 + CountNewlines(t[at + 1..])
  {
    var head, tail := t[..at + 1], t[at + 1..];
    assert t == head + tail && head[..at] == t[..at];
    CountConcat(head, tail);
    AfterNewlineConcat(head, tail, drop);
    if drop == 1 {
      AfterNewlineExact(head, 1);
      HeadEndsOnlyAtNewline(head, AfterNewline(head, 1));
    }
  }

  /** `rest` and `left` are what remains of dropping `drop` lines of `text`, some steps in. */
  ghost predicate Dropping(text: Bytes, drop: nat, from: nat, left: nat) {
    && from <= |text|
    && AfterNewline(text, drop) == from + AfterNewline(text[from..], left)
    && CountNewlines(text) + left == drop + CountNewlines(text[from..])
  }

  lemma {:induction false} DroppingStep(text: Bytes, drop: nat, from: nat, left: nat, at: nat)
    requires Dropping(text, drop, from, left) && left > 0
    requires at < |text| - from && CountNewlines(text[from..][..at]) == 0 && CountNewlines(text[from..][..at + 1]) == 1
    ensures Dropping(text, drop, from + at + 1, left - 1) && text[from..][at + 1..] == text[from + at + 1..]
  {
    assert text[from..][at + 1..] == text[from + at + 1..];
    PastFirstNewline(text[from..], at, left);
  }

  lemma {:induction false} DroppingDone(text: Bytes, drop: nat, from: nat, left: nat)
    requires Dropping(text, drop, from, left)
    requires left == 0 || CountNewlines(text[from..]) == 0
    ensures left == Left(text, drop)
    ensures text[AfterNewline(text, drop)..] == if left == 0 then text[from..] else []
  {
    if left > 0 {
      AfterNewlineShort(text[from..], left);
      assert text[|text|..] == [];
    }
  }

  /** The inner loop over one chunk's text. */
  method DropFromChunk(text: Bytes, drop: nat) returns (rest: Bytes, left: nat)
    ensures rest == text[AfterNewline(text, drop)..] && left == Left(text, drop)
  {
    rest, left := text, drop;
    ghost var from: nat := 0;
    assert text[0..] == text;
    while left > 0 && rest != []
      invariant Dropping(text, drop, from, left) && rest == text[from..]
      decreases |rest|
    {
      var at := IndexNewline(rest);
      if at == |rest| {
        assert rest[..at] == rest;
        DroppingDone(text, drop, from, left);
        return [], left;
      }
      DroppingStep(text, drop, from, left, at);
      rest, left, from := rest[at + 1..], left - 1, from + at + 1;
    }
    DroppingDone(text, drop, from, left);
  }

  method IndexNewline(t: Bytes) returns (at: nat)
    ensures at <= |t| && CountNewlines(t[..at]) == 0
    ensures at < |t| ==> t[at] == NEWLINE && CountNewlines(t[..at + 1]) == 1
  {
    at := 0;
    while at < |t| && t[at] != NEWLINE
      invariant 0 <= at <= |t| && CountNewlines(t[..at]) == 0
    {
      assert t[..at + 1][..at] == t[..at];
      at := at + 1;
    }
    if at < |t| {
      assert t[..at + 1][..at] == t[..at];
    }
  }

  lemma {:induction false} HeadEndsOnlyAtNewline(head: Bytes, p: nat)
    requires head != [] && 0 < p <= |head| && head[p - 1] == NEWLINE && CountNewlines(head[..|head| - 1]) == 0
    ensures p == |head|
  {
    if p < |head| {
      var body := head[..|head| - 1];
      assert body == body[..p] + body[p..];
      CountConcat(body[..p], body[p..]);
    }
  }

  /** What one chunk contributes. */
  function TrimOne(c: Chunk, drop: nat): seq<Chunk> {
    var rest := c.text[AfterNewline(c.text, drop)..];
    if rest != [] then [c.(text := rest)] else []
  }

  /** The chunks that remain after dropping `drop` lines from the front; emptied chunks vanish. */
  function Trim(chunks: seq<Chunk>, drop: nat): seq<Chunk> {
    if chunks == [] then []
    else
      TrimOne(chunks[0], drop) + Trim(chunks[1..], Left(chunks[0].text, drop))
  }

  method CountLines(chunks: seq<Chunk>) returns (lines: nat)
    ensures lines == Lines(chunks)
  {
    lines := 0;
    var i := 0;
    while i < |chunks|
      invariant 0 <= i <= |chunks| && lines == CountNewlines(TextOf(chunks[..i]))
    {
      assert chunks[..i + 1][..i] == chunks[..i];
      CountConcat(TextOf(chunks[..i]), chunks[i].text);
      lines := lines + CountNewlines(chunks[i].text);
      i := i + 1;
    }
    assert chunks[..i] == chunks;
    if |chunks| > 0 && !EndsLine(chunks[|chunks| - 1].text) {
      lines := lines + 1;
    }
  }

  lemma {:induction false} TrimStep(chunks: seq<Chunk>, i: nat, drop: nat, kept: seq<Chunk>)
    requires i < |chunks|
    ensures kept + Trim(chunks[i..], drop) ==
            (kept + TrimOne(chunks[i], drop)) + Trim(chunks[i + 1..], Left(chunks[i].text, drop))
  {
    assert chunks[i..][0] == chunks[i] && chunks[i..][1..] == chunks[i + 1..];
    var one, later := TrimOne(chunks[i], drop), Trim(chunks[i + 1..], Left(chunks[i].text, drop));
    assert kept + (one + later) == (kept + one) + later;
  }

  /** One turn of the outer loop: what the inner loop left of a chunk is what trimming keeps of it. */
  lemma {:induction false} TrimTurn(chunks: seq<Chunk>, i: nat, drop: nat, kept: seq<Chunk>, rest: Bytes)
    requires i < |chunks| && rest == chunks[i].text[AfterNewline(chunks[i].text, drop)..]
    ensures kept + Trim(chunks[i..], drop)
         == (if rest != [] then kept + [chunks[i].(text := rest)] else kept)
           + Trim(chunks[i + 1..], Left(chunks[i].text, drop))
  {
    TrimStep(chunks, i, drop, kept);
    assert kept + [] == kept;
  }

  /** The outer loop: drop lines chunk by chunk. */
  method DropLines(chunks: seq<Chunk>, lines: nat) returns (kept: seq<Chunk>)
    ensures kept == Trim(chunks, lines)
  {
    var drop := lines;
    kept := [];
    var i := 0;
    assert chunks[0..] == chunks;
    while i < |chunks|
      invariant 0 <= i <= |chunks|
      invariant Trim(chunks, lines) == kept + Trim(chunks[i..], drop)
    {
      var rest, left := DropFromChunk(chunks[i].text, drop);
      TrimTurn(chunks, i, drop, kept, rest);
      if rest != [] {
        kept := kept + [chunks[i].(text := rest)];
      }
      drop, i := left, i + 1;
    }
  }

  method KeepLatestLines(chunks: seq<Chunk>, limit: nat) returns (kept: seq<Chunk>, dropped: bool)
    ensures dropped <==> Lines(chunks) > limit
    ensures dropped ==> kept == Trim(chunks, Lines(chunks) - limit)
    ensures !dropped ==> kept == chunks
  {
    var lines := CountLines(chunks);
    if lines <= limit {
      return chunks, false;
    }
    kept := DropLines(chunks, lines - limit);
    return kept, true;
  }

  lemma {:induction false} TextOfOne(c: Chunk, drop: nat)
    ensures TextOf([c]) == c.text && TextOf(TrimOne(c, drop)) == c.text[AfterNewline(c.text, drop)..]
  {
    assert [c][..0] == [];
    var one := TrimOne(c, drop);
    if one != [] {
      assert one[..0] == [];
    }
  }

  lemma {:induction false} SuffixInSecond(a: Bytes, b: Bytes, q: nat)
    requires q <= |b|
    ensures (a + b)[|a| + q..] == a[|a|..] + b[q..]
  {
  }

  /** Cutting a concatenation behind its `drop`-th newline. */
  lemma {:induction false} SuffixConcat(a: Bytes, b: Bytes, drop: nat)
    ensures (a + b)[AfterNewline(a + b, drop)..] == a[AfterNewline(a, drop)..] + b[AfterNewline(b, Left(a, drop))..]
  {
    AfterNewlineConcat(a, b, drop);
    if drop <= CountNewlines(a) {
      assert AfterNewline(b, 0) == 0 && b[0..] == b;
    } else {
      AfterNewlineShort(a, drop);
      SuffixInSecond(a, b, AfterNewline(b, drop - CountNewlines(a)));
    }
  }

  /** The kept text is exactly the concatenated text behind the `drop`-th newline. */
  lemma {:induction false} TrimText(chunks: seq<Chunk>, drop: nat)
    ensures TextOf(Trim(chunks, drop)) == TextOf(chunks)[AfterNewline(TextOf(chunks), drop)..]
  {
    if chunks != [] {
      var c, tail := chunks[0], chunks[1..];
      var left := Left(c.text, drop);
      TrimText(tail, left);
      TextOfConcat(TrimOne(c, drop), Trim(tail, left));
      assert chunks == [c] + tail;
      TextOfConcat([c], tail);
      TextOfOne(c, drop);
      SuffixConcat(c.text, TextOf(tail), drop);
    }
  }

  /** A non-empty suffix with the same stream. */
  ghost predicate SuffixOf(k: Chunk, c: Chunk) {
    k.stream == c.stream && k.text != [] && |k.text| <= |c.text| && k.text == c.text[|c.text| - |k.text|..]
  }

  /** Each kept chunk is a non-empty suffix of one original, with its stream, in order. */
  ghost predicate TrimmedFrom(kept: seq<Chunk>, chunks: seq<Chunk>, origin: seq<nat>) {
    && |origin| == |kept|
    && (forall i, j :: 0 <= i < j < |origin| ==> origin[i] < origin[j])
    && forall i :: 0 <= i < |kept| ==> origin[i] < |chunks| && SuffixOf(kept[i], chunks[origin[i]])
  }

  lemma {:induction false} TrimOrigin(chunks: seq<Chunk>, drop: nat) returns (origin: seq<nat>)
    ensures TrimmedFrom(Trim(chunks, drop), chunks, origin)
  {
    if chunks == [] {
      origin := [];
    } else {
      var c, left := chunks[0], Left(chunks[0].text, drop);
      var tail := TrimOrigin(chunks[1..], left);
      var one := TrimOne(c, drop);
      origin := seq(|one|, _ => 0) + seq(|tail|, i requires 0 <= i < |tail| => tail[i] + 1);
      TrimmedCons(c, drop, chunks[1..], Trim(chunks[1..], left), tail, origin);
      assert [c] + chunks[1..] == chunks;
    }
  }

  lemma {:induction false} TrimmedCons(
    c: Chunk, drop: nat, chunks: seq<Chunk>, kept: seq<Chunk>, tail: seq<nat>, origin: seq<nat>)
    requires TrimmedFrom(kept, chunks, tail)
    requires origin == seq(|TrimOne(c, drop)|, _ => 0) + seq(|tail|, i requires 0 <= i < |tail| => tail[i] + 1)
    ensures TrimmedFrom(TrimOne(c, drop) + kept, [c] + chunks, origin)
  {
    var skip, all := |TrimOne(c, drop)|, TrimOne(c, drop) + kept;
    forall i | 0 <= i < |all|
      ensures origin[i] < |[c] + chunks| && SuffixOf(all[i], ([c] + chunks)[origin[i]])
    {
      if i >= skip {
        assert all[i] == kept[i - skip] && origin[i] == tail[i - skip] + 1;
        assert ([c] + chunks)[origin[i]] == chunks[tail[i - skip]];
      }
    }
    forall i, j | 0 <= i < j < |origin|
      ensures origin[i] < origin[j]
    {
      if i >= skip {
        assert tail[i - skip] < tail[j - skip];
      }
    }
  }

  lemma {:induction false} LastByte(chunks: seq<Chunk>)
    requires chunks != [] && chunks[|chunks| - 1].text != []
    ensures TextOf(chunks) != [] && EndsLine(TextOf(chunks)) == EndsLine(chunks[|chunks| - 1].text)
  {
  }

  /**
   With a limit of at least one, trimming leaves at most `limit` lines, and exactly
   `limit` when the last chunk is not empty; the cut is right behind a newline.
   */
  lemma {:induction false} TrimLines(chunks: seq<Chunk>, limit: nat)
    requires 1 <= limit < Lines(chunks)
    ensures var kept, text, drop := Trim(chunks, Lines(chunks) - limit), TextOf(chunks), Lines(chunks) - limit;
            && 0 < AfterNewline(text, drop) && text[AfterNewline(text, drop) - 1] == NEWLINE
            && CountNewlines(text[..AfterNewline(text, drop)]) == drop
            && Lines(kept) <= limit
            && (chunks[|chunks| - 1].text != [] ==> Lines(kept) == limit)
  {
    var drop, text := Lines(chunks) - limit, TextOf(chunks);
    var kept := Trim(chunks, drop);
    AfterNewlineExact(text, drop);
    assert CountNewlines(TextOf(kept)) == CountNewlines(text) - drop by { TrimText(chunks, drop); }
    KeptEndsAlike(chunks, drop);
  }

  /** When something is kept, it ends a line exactly when the whole text does. */
  lemma {:induction false} KeptEndsAlike(chunks: seq<Chunk>, drop: nat)
    requires chunks != [] && 0 < drop <= CountNewlines(TextOf(chunks))
    ensures var kept := Trim(chunks, drop);
            && (kept != [] ==> TextOf(kept) != [] && kept[|kept| - 1].text != []
                               && EndsLine(kept[|kept| - 1].text) == EndsLine(TextOf(chunks)))
            && (kept == [] ==> EndsLine(TextOf(chunks)))
            && (chunks[|chunks| - 1].text != [] ==> EndsLine(chunks[|chunks| - 1].text) == EndsLine(TextOf(chunks)))
  {
    var kept, text := Trim(chunks, drop), TextOf(chunks);
    AfterNewlineExact(text, drop);
    TrimText(chunks, drop);
    assert kept == [] ==> AfterNewline(text, drop) == |text|;
    if kept != [] {
      KeptNonEmpty(chunks, drop);
      LastByte(kept);
      SuffixEndsAlike(text, AfterNewline(text, drop));
    }
    if chunks[|chunks| - 1].text != [] {
      LastByte(chunks);
    }
  }

  lemma {:induction false} KeptNonEmpty(chunks: seq<Chunk>, drop: nat)
    ensures forall k :: k in Trim(chunks, drop) ==> k.text != []
  {
    var origin := TrimOrigin(chunks, drop);
  }

  lemma {:induction false} SuffixEndsAlike(t: Bytes, p: nat)
    requires p <= |t| && t[p..] != []
    ensures EndsLine(t[p..]) == EndsLine(t)
  {
  }
}
