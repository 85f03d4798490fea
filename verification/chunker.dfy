/** `chunkText` of the ingestion function: the text is split on the exact blank-line
    separator, paragraphs are packed greedily into buffers, every pushed buffer is
    trimmed, and only chunks longer than 50 characters are kept.

    `Packer`, `Absorb` and `Pack` follow `chunkText`'s loop step for step. `Grouping` is
    an independent description of the same loop in terms of which paragraphs end up
    together; `PackMatchesGroups` connects the two, and the properties about
    paragraphs (never cut, kept in order, each in one chunk) are proved on groups. */
module Chunker {
  import opened Wrappers
  import opened JsString

  /** The separator `chunkText` splits on and rejoins with. */
  const ParagraphBreak: string := "\n\n"

  /** The default `maxChunkSize`, which the ingestion handler relies on. */
  const DefaultMaxChunkSize: int := 100

  /** Chunks of this length or shorter are dropped by the final filter. */
  const MinChunkLength: nat := 50

  // ---------------------------------------------------------------------------
  // `chunkText`'s loop

  /** The loop state: the chunks pushed so far (each already trimmed) and
      `currentChunk`. */
  datatype Packer = Packer(pushed: seq<string>, current: string)

  /** One iteration. The size test looks at `currentChunk + paragraph` without the
      separator that the append branch then inserts. */
  function Absorb(p: Packer, paragraph: string, maxChunkSize: int): Packer
  {
    if |p.current + paragraph| > maxChunkSize && p.current != "" then
      Packer(p.pushed + [Trim(p.current)], paragraph)
    else
      Packer(p.pushed, p.current + (if p.current != "" then ParagraphBreak else "") + paragraph)
  }

  function AbsorbAll(p: Packer, paragraphs: seq<string>, maxChunkSize: int): Packer
    decreases |paragraphs|
  {
    if |paragraphs| == 0 then p
    else AbsorbAll(Absorb(p, paragraphs[0], maxChunkSize), paragraphs[1..], maxChunkSize)
  }

  /** The chunks pushed by the loop and by the final flush of a non-empty buffer,
      before the length filter. */
  function Pack(paragraphs: seq<string>, maxChunkSize: int): seq<string>
  {
    var p := AbsorbAll(Packer([], ""), paragraphs, maxChunkSize);
    if p.current != "" then p.pushed + [Trim(p.current)] else p.pushed
  }

  /** The final filter: keeps, in order, the chunks longer than `MinChunkLength`. */
  function KeepLong(chunks: seq<string>): (r: seq<string>)
    ensures |r| <= |chunks|
    ensures forall k :: 0 <= k < |r| ==> |r[k]| > MinChunkLength
    ensures forall c :: c in r <==> c in chunks && |c| > MinChunkLength
    decreases |chunks|
  {
    if |chunks| == 0 then []
    else (if |chunks[0]| > MinChunkLength then [chunks[0]] else []) + KeepLong(chunks[1..])
  }

  /** The paragraphs of `text`: the pieces between exact `"\n\n"` separators. */
  function Paragraphs(text: string): seq<string>
  {
    Split(text, ParagraphBreak)
  }

  /** `chunkText(text, maxChunkSize)`. */
  function ChunkText(text: string, maxChunkSize: int): (chunks: seq<string>)
    ensures forall k :: 0 <= k < |chunks| ==> |chunks[k]| > MinChunkLength
  {
    KeepLong(Pack(Paragraphs(text), maxChunkSize))
  }

  // ---------------------------------------------------------------------------
  // Every chunk is trimmed

  lemma AbsorbPushesTrimmed(p: Packer, paragraph: string, maxChunkSize: int)
    requires forall c :: c in p.pushed ==> Trim(c) == c
    ensures forall c :: c in Absorb(p, paragraph, maxChunkSize).pushed ==> Trim(c) == c
  {
    var q := Absorb(p, paragraph, maxChunkSize);
    if |p.current + paragraph| > maxChunkSize && p.current != "" {
      var t := Trim(p.current);
      assert q.pushed == p.pushed + [t];
      TrimIdempotent(p.current);
      forall c | c in q.pushed
        ensures Trim(c) == c
      {
        if c !in p.pushed {
          assert c == t;
        }
      }
    } else {
      assert q.pushed == p.pushed;
    }
  }

  lemma {:induction false} AbsorbAllPushesTrimmed(p: Packer, paragraphs: seq<string>, maxChunkSize: int)
    requires forall c :: c in p.pushed ==> Trim(c) == c
    ensures forall c :: c in AbsorbAll(p, paragraphs, maxChunkSize).pushed ==> Trim(c) == c
    decreases |paragraphs|
  {
    if |paragraphs| > 0 {
      var q := Absorb(p, paragraphs[0], maxChunkSize);
      AbsorbPushesTrimmed(p, paragraphs[0], maxChunkSize);
      AbsorbAllPushesTrimmed(q, paragraphs[1..], maxChunkSize);
      assert AbsorbAll(p, paragraphs, maxChunkSize) == AbsorbAll(q, paragraphs[1..], maxChunkSize);
    }
  }

  /** Every chunk is trimmed and longer than 50 characters, so a chunk of exactly 50
      characters is dropped. */
  lemma ChunksTrimmedAndLong(text: string, maxChunkSize: int)
    ensures forall c :: c in ChunkText(text, maxChunkSize) ==> Trim(c) == c && |c| > MinChunkLength
  {
    var ps := Paragraphs(text);
    var p := AbsorbAll(Packer([], ""), ps, maxChunkSize);
    AbsorbAllPushesTrimmed(Packer([], ""), ps, maxChunkSize);
    TrimIdempotent(p.current);
  }

  // ---------------------------------------------------------------------------
  // Chunk size: a chunk is one trimmed paragraph or at most two over the limit

  /** The input paragraphs, each trimmed. */
  function TrimEach(paragraphs: seq<string>): (r: seq<string>)
    ensures |r| == |paragraphs|
    ensures forall k :: 0 <= k < |r| ==> r[k] == Trim(paragraphs[k])
  {
    seq(|paragraphs|, k requires 0 <= k < |paragraphs| => Trim(paragraphs[k]))
  }

  /** A buffer the loop can hold: empty, a single input paragraph, or no longer than
      the limit plus the two separator characters the size test does not count. */
  predicate BufferBound(b: string, paragraphs: seq<string>, maxChunkSize: int)
  {
    b == "" || b in paragraphs || |b| <= maxChunkSize + 2
  }

  predicate ChunkBound(c: string, paragraphs: seq<string>, maxChunkSize: int)
  {
    c in TrimEach(paragraphs) || |c| <= maxChunkSize + 2
  }

  lemma TrimBufferBound(b: string, paragraphs: seq<string>, maxChunkSize: int)
    requires b != "" && BufferBound(b, paragraphs, maxChunkSize)
    ensures ChunkBound(Trim(b), paragraphs, maxChunkSize)
  {
    if b in paragraphs {
      var k :| 0 <= k < |paragraphs| && paragraphs[k] == b;
      assert TrimEach(paragraphs)[k] == Trim(b);
    }
  }

  lemma {:induction false} AbsorbAllBound(p: Packer, rest: seq<string>, paragraphs: seq<string>, maxChunkSize: int)
    requires forall x :: x in rest ==> x in paragraphs
    requires BufferBound(p.current, paragraphs, maxChunkSize)
    requires forall c :: c in p.pushed ==> ChunkBound(c, paragraphs, maxChunkSize)
    ensures BufferBound(AbsorbAll(p, rest, maxChunkSize).current, paragraphs, maxChunkSize)
    ensures forall c :: c in AbsorbAll(p, rest, maxChunkSize).pushed ==> ChunkBound(c, paragraphs, maxChunkSize)
    decreases |rest|
  {
    if |rest| > 0 {
      var para := rest[0];
      var q := Absorb(p, para, maxChunkSize);
      if |p.current + para| > maxChunkSize && p.current != "" {
        TrimBufferBound(p.current, paragraphs, maxChunkSize);
      } else if p.current == "" {
        assert q.current == para;
      }
      assert BufferBound(q.current, paragraphs, maxChunkSize);
      AbsorbAllBound(q, rest[1..], paragraphs, maxChunkSize);
    }
  }

  /** Each chunk is a single trimmed input paragraph, which may be longer than the
      limit, or is at most `maxChunkSize + 2` long: the size test of the loop leaves
      out the separator the append adds. */
  lemma ChunkSizeBound(text: string, maxChunkSize: int)
    ensures forall c :: c in ChunkText(text, maxChunkSize) ==> ChunkBound(c, Paragraphs(text), maxChunkSize)
  {
    var ps := Paragraphs(text);
    AbsorbAllBound(Packer([], ""), ps, ps, maxChunkSize);
    var p := AbsorbAll(Packer([], ""), ps, maxChunkSize);
    if p.current != "" {
      TrimBufferBound(p.current, ps, maxChunkSize);
    }
  }

  /** The two-character overshoot happens: two 50-character paragraphs fit the size
      test at the default limit, and the chunk holding them is 102 characters long. */
  lemma ChunkMayExceedLimitByTwo()
    ensures var text := seq(50, _ => 'a') + ParagraphBreak + seq(50, _ => 'b');
            ChunkText(text, DefaultMaxChunkSize) == [text] && |text| == DefaultMaxChunkSize + 2
  {
    var a := seq(50, _ => 'a');
    var b := seq(50, _ => 'b');
    NoBreakInRun(a, 'a');
    NoBreakInRun(b, 'b');
    TwoParagraphsOneChunk(a, b, DefaultMaxChunkSize);
  }

  /** A run of one character other than a line break holds no blank line. */
  lemma NoBreakInRun(s: string, c: char)
    requires c != '\n' && forall k :: 0 <= k < |s| ==> s[k] == c
    ensures IndexOf(s, ParagraphBreak).None?
  {
    forall k
      ensures !OccursAt(s, ParagraphBreak, k)
    {
      if 0 <= k && k + 2 <= |s| {
        assert s[k..k + 2][0] == c;
      }
    }
  }

  /** Two paragraphs, trimmed at the outer edges and free of blank lines, whose
      lengths add up to at most the limit share one chunk, separator included.
      Single line breaks inside either paragraph are allowed. */
  lemma TwoParagraphsOneChunk(a: string, b: string, maxChunkSize: int)
    requires |a| > 0 && |b| > 0 && |a| + |b| <= maxChunkSize && |a| + |b| + 2 > MinChunkLength
    requires IndexOf(a, ParagraphBreak).None? && IndexOf(b, ParagraphBreak).None?
    requires !IsJsWhitespace(a[0]) && a[|a| - 1] != '\n' && !IsJsWhitespace(b[|b| - 1])
    ensures ChunkText(a + ParagraphBreak + b, maxChunkSize) == [a + ParagraphBreak + b]
  {
    var text := a + ParagraphBreak + b;
    TwoParagraphs(a, b);
    PackTwo(a, b, maxChunkSize);
    assert text[0] == a[0] && text[|text| - 1] == b[|b| - 1];
    assert TrimStart(text) == text;
    assert TrimEnd(text) == text;
    assert KeepLong([text]) == [text];
  }

  /** Two paragraphs whose lengths fit the size test end up in one buffer. */
  lemma PackTwo(a: string, b: string, maxChunkSize: int)
    requires |a| > 0 && |a| + |b| <= maxChunkSize
    ensures Pack([a, b], maxChunkSize) == [Trim(a + ParagraphBreak + b)]
  {
    var p1 := Absorb(Packer([], ""), a, maxChunkSize);
    assert p1 == Packer([], a);
    var p2 := Absorb(p1, b, maxChunkSize);
    assert p2 == Packer([], a + ParagraphBreak + b);
    assert [a, b][1..] == [b];
    assert [b][1..] == [];
    assert AbsorbAll(p1, [b], maxChunkSize) == AbsorbAll(p2, [], maxChunkSize);
    assert AbsorbAll(Packer([], ""), [a, b], maxChunkSize) == AbsorbAll(p1, [b], maxChunkSize);
  }

  /** Two paragraphs without a blank line inside, the first not ending in a line
      break, joined by one blank line, split back apart. */
  lemma TwoParagraphs(a: string, b: string)
    requires |a| > 0 && a[|a| - 1] != '\n'
    requires IndexOf(a, ParagraphBreak).None? && IndexOf(b, ParagraphBreak).None?
    ensures Paragraphs(a + ParagraphBreak + b) == [a, b]
  {
    var text := a + ParagraphBreak + b;
    forall k | 0 <= k < |a|
      ensures !OccursAt(text, ParagraphBreak, k)
    {
      if k + 2 <= |a| {
        assert text[k..k + 2] == a[k..k + 2];
        assert !OccursAt(a, ParagraphBreak, k);
      } else {
        assert text[k..k + 2][0] == a[|a| - 1];
      }
    }
    assert text[|a|..|a| + 2] == ParagraphBreak;
    assert OccursAt(text, ParagraphBreak, |a|);
    assert IndexOf(text, ParagraphBreak) == Some(|a|);
    assert text[|a| + 2..] == b && text[..|a|] == a;
    SplitStep(text, ParagraphBreak, |a|);
  }

  /** Text without a paragraph break, already trimmed and longer than 50 characters,
      is one chunk whatever the limit: a paragraph is never cut. */
  lemma SingleParagraphIsOneChunk(text: string, maxChunkSize: int)
    requires IndexOf(text, ParagraphBreak).None?
    requires Trim(text) == text && |text| > MinChunkLength
    ensures ChunkText(text, maxChunkSize) == [text]
  {
    assert Paragraphs(text) == [text];
    assert AbsorbAll(Packer([], ""), [text], maxChunkSize) == Packer([], text);
  }

  // ---------------------------------------------------------------------------
  // The same loop, described by the paragraphs each buffer holds

  /** The buffer that the append in `chunkText` accumulates from a run of paragraphs, starting from `''`:
      a paragraph is preceded by the separator only when the buffer is non-empty. */
  function Render(group: seq<string>): string
    decreases |group|
  {
    if |group| == 0 then ""
    else
      var r := Render(group[..|group| - 1]);
      r + (if r != "" then ParagraphBreak else "") + group[|group| - 1]
  }

  /** The paragraph groups closed so far, and the group being filled. */
  datatype Grouping = Grouping(closed: seq<seq<string>>, open: seq<string>)

  function GroupStep(g: Grouping, paragraph: string, maxChunkSize: int): Grouping
  {
    if |Render(g.open) + paragraph| > maxChunkSize && Render(g.open) != "" then
      Grouping(g.closed + [g.open], [paragraph])
    else
      Grouping(g.closed, g.open + [paragraph])
  }

  function GroupAll(g: Grouping, paragraphs: seq<string>, maxChunkSize: int): Grouping
    decreases |paragraphs|
  {
    if |paragraphs| == 0 then g
    else GroupAll(GroupStep(g, paragraphs[0], maxChunkSize), paragraphs[1..], maxChunkSize)
  }

  /** The groups whose buffers are pushed as chunks. */
  function Groups(paragraphs: seq<string>, maxChunkSize: int): seq<seq<string>>
  {
    var g := GroupAll(Grouping([], []), paragraphs, maxChunkSize);
    if Render(g.open) != "" then g.closed + [g.open] else g.closed
  }

  /** The concatenation of a list of groups. */
  function Flatten(groups: seq<seq<string>>): seq<string>
    decreases |groups|
  {
    if |groups| == 0 then []
    else Flatten(groups[..|groups| - 1]) + groups[|groups| - 1]
  }

  /** The trimmed buffer of each group, in order. */
  function TrimRenders(groups: seq<seq<string>>): (r: seq<string>)
    ensures |r| == |groups|
    decreases |groups|
  {
    if |groups| == 0 then []
    else TrimRenders(groups[..|groups| - 1]) + [Trim(Render(groups[|groups| - 1]))]
  }

  lemma {:induction false} TrimRendersAt(groups: seq<seq<string>>, k: nat)
    requires k < |groups|
    ensures TrimRenders(groups)[k] == Trim(Render(groups[k]))
    decreases |groups|
  {
    var init := groups[..|groups| - 1];
    assert TrimRenders(groups) == TrimRenders(init) + [Trim(Render(groups[|groups| - 1]))];
    if k < |groups| - 1 {
      TrimRendersAt(init, k);
      assert groups[k] == init[k];
    }
  }

  lemma RenderSingle(paragraph: string)
    ensures Render([paragraph]) == paragraph
  {
    assert [paragraph][..0] == [];
  }

  lemma RenderSnoc(group: seq<string>, paragraph: string)
    ensures var r := Render(group);
            Render(group + [paragraph]) == r + (if r != "" then ParagraphBreak else "") + paragraph
  {
    assert (group + [paragraph])[..|group|] == group;
  }

  lemma TrimRendersSnoc(groups: seq<seq<string>>, group: seq<string>)
    ensures TrimRenders(groups + [group]) == TrimRenders(groups) + [Trim(Render(group))]
  {
    assert (groups + [group])[..|groups|] == groups;
  }

  lemma {:induction false} AbsorbAllTracksGroups(p: Packer, g: Grouping, paragraphs: seq<string>, maxChunkSize: int)
    requires p.pushed == TrimRenders(g.closed) && p.current == Render(g.open)
    ensures AbsorbAll(p, paragraphs, maxChunkSize).pushed == TrimRenders(GroupAll(g, paragraphs, maxChunkSize).closed)
    ensures AbsorbAll(p, paragraphs, maxChunkSize).current == Render(GroupAll(g, paragraphs, maxChunkSize).open)
    decreases |paragraphs|
  {
    if |paragraphs| > 0 {
      var para := paragraphs[0];
      var p' := Absorb(p, para, maxChunkSize);
      var g' := GroupStep(g, para, maxChunkSize);
      if |p.current + para| > maxChunkSize && p.current != "" {
        RenderSingle(para);
        TrimRendersSnoc(g.closed, g.open);
      } else {
        RenderSnoc(g.open, para);
      }
      AbsorbAllTracksGroups(p', g', paragraphs[1..], maxChunkSize);
    }
  }

  /** `chunkText`'s loop pushes exactly the trimmed buffers of `Groups`, in order. */
  lemma PackMatchesGroups(paragraphs: seq<string>, maxChunkSize: int)
    ensures Pack(paragraphs, maxChunkSize) == TrimRenders(Groups(paragraphs, maxChunkSize))
  {
    AbsorbAllTracksGroups(Packer([], ""), Grouping([], []), paragraphs, maxChunkSize);
    var g := GroupAll(Grouping([], []), paragraphs, maxChunkSize);
    var p := AbsorbAll(Packer([], ""), paragraphs, maxChunkSize);
    if Render(g.open) != "" {
      assert Pack(paragraphs, maxChunkSize) == p.pushed + [Trim(p.current)];
      assert Groups(paragraphs, maxChunkSize) == g.closed + [g.open];
      TrimRendersSnoc(g.closed, g.open);
    } else {
      assert Pack(paragraphs, maxChunkSize) == p.pushed;
      assert Groups(paragraphs, maxChunkSize) == g.closed;
    }
  }

  lemma FlattenSnoc(groups: seq<seq<string>>, group: seq<string>)
    ensures Flatten(groups + [group]) == Flatten(groups) + group
  {
    assert (groups + [group])[..|groups|] == groups;
  }

  lemma {:induction false} GroupAllKeepsParagraphs(g: Grouping, paragraphs: seq<string>, maxChunkSize: int)
    ensures var h := GroupAll(g, paragraphs, maxChunkSize);
            Flatten(h.closed) + h.open == Flatten(g.closed) + g.open + paragraphs
    decreases |paragraphs|
  {
    if |paragraphs| > 0 {
      var para := paragraphs[0];
      var g' := GroupStep(g, para, maxChunkSize);
      if |Render(g.open) + para| > maxChunkSize && Render(g.open) != "" {
        FlattenSnoc(g.closed, g.open);
        assert Flatten(g'.closed) + g'.open == Flatten(g.closed) + g.open + [para];
      } else {
        assert Flatten(g'.closed) + g'.open == Flatten(g.closed) + g.open + [para];
      }
      GroupAllKeepsParagraphs(g', paragraphs[1..], maxChunkSize);
      assert [para] + paragraphs[1..] == paragraphs;
    }
  }

  lemma {:induction false} GroupAllClosesNonEmpty(g: Grouping, paragraphs: seq<string>, maxChunkSize: int)
    requires forall k :: 0 <= k < |g.closed| ==> Render(g.closed[k]) != ""
    ensures var h := GroupAll(g, paragraphs, maxChunkSize);
            forall k :: 0 <= k < |h.closed| ==> Render(h.closed[k]) != ""
    decreases |paragraphs|
  {
    if |paragraphs| > 0 {
      var g' := GroupStep(g, paragraphs[0], maxChunkSize);
      forall k | 0 <= k < |g'.closed|
        ensures Render(g'.closed[k]) != ""
      {
        if k < |g.closed| {
          assert g'.closed[k] == g.closed[k];
        }
      }
      GroupAllClosesNonEmpty(g', paragraphs[1..], maxChunkSize);
      assert GroupAll(g, paragraphs, maxChunkSize) == GroupAll(g', paragraphs[1..], maxChunkSize);
    }
  }

  /** A run of paragraphs renders to `''` exactly when every paragraph in it is empty. */
  lemma {:induction false} RenderEmptyIff(group: seq<string>)
    ensures Render(group) == "" <==> forall k :: 0 <= k < |group| ==> group[k] == ""
    decreases |group|
  {
    if |group| > 0 {
      var init := group[..|group| - 1];
      var last := group[|group| - 1];
      RenderEmptyIff(init);
      assert group == init + [last];
      if Render(group) == "" {
        assert Render(init) == "" && last == "";
        forall k | 0 <= k < |group|
          ensures group[k] == ""
        {
          if k < |init| {
            assert group[k] == init[k];
          }
        }
      } else if Render(init) != "" {
        var j :| 0 <= j < |init| && init[j] != "";
        assert group[j] == init[j];
      } else {
        assert group[|group| - 1] != "";
      }
    }
  }

  /** The groups partition the paragraphs: concatenated, in order, they are the
      input paragraphs, except for trailing empty paragraphs that never reached a
      flushed buffer. Every group is non-empty and renders to a non-empty buffer. */
  lemma GroupsPartitionParagraphs(paragraphs: seq<string>, maxChunkSize: int)
    ensures var gs := Groups(paragraphs, maxChunkSize);
            |Flatten(gs)| <= |paragraphs| && paragraphs[..|Flatten(gs)|] == Flatten(gs)
    ensures var gs := Groups(paragraphs, maxChunkSize);
            forall k :: |Flatten(gs)| <= k < |paragraphs| ==> paragraphs[k] == ""
    ensures var gs := Groups(paragraphs, maxChunkSize);
            forall k :: 0 <= k < |gs| ==> |gs[k]| > 0 && Render(gs[k]) != ""
  {
    var h := GroupAll(Grouping([], []), paragraphs, maxChunkSize);
    GroupAllKeepsParagraphs(Grouping([], []), paragraphs, maxChunkSize);
    GroupAllClosesNonEmpty(Grouping([], []), paragraphs, maxChunkSize);
    assert Flatten(h.closed) + h.open == paragraphs;
    var gs := Groups(paragraphs, maxChunkSize);
    if Render(h.open) != "" {
      FlattenSnoc(h.closed, h.open);
      assert Flatten(gs) == paragraphs;
    } else {
      RenderEmptyIff(h.open);
      assert Flatten(gs) == Flatten(h.closed);
      forall k | |Flatten(gs)| <= k < |paragraphs|
        ensures paragraphs[k] == ""
      {
        assert paragraphs[k] == h.open[k - |Flatten(gs)|];
      }
    }
  }

  // ---------------------------------------------------------------------------
  // A buffer is its paragraphs joined by blank lines

  /** The run with its leading empty paragraphs removed: the buffer append in `chunkText` adds no separator
      while the buffer is still empty. */
  function DropLeadingEmpty(group: seq<string>): (r: seq<string>)
    ensures |r| <= |group|
    ensures r == group[|group| - |r|..]
    ensures r == [] || r[0] != ""
    decreases |group|
  {
    if |group| > 0 && group[0] == "" then DropLeadingEmpty(group[1..]) else group
  }

  lemma {:induction false} DropLeadingEmptySnoc(group: seq<string>, paragraph: string)
    ensures DropLeadingEmpty(group + [paragraph]) ==
            if DropLeadingEmpty(group) == [] then (if paragraph == "" then [] else [paragraph])
            else DropLeadingEmpty(group) + [paragraph]
    decreases |group|
  {
    if |group| > 0 && group[0] == "" {
      assert (group + [paragraph])[1..] == group[1..] + [paragraph];
      DropLeadingEmptySnoc(group[1..], paragraph);
    } else if |group| == 0 {
      assert [] + [paragraph] == [paragraph];
    }
  }

  lemma JoinStartsWithHead(parts: seq<string>, sep: string)
    requires |parts| > 0
    ensures |Join(parts, sep)| >= |parts[0]| && Join(parts, sep)[..|parts[0]|] == parts[0]
  {
  }

  /** The buffer of a group is its paragraphs, leading empty ones dropped, joined by
      the blank-line separator: each non-empty paragraph appears whole, in order. */
  lemma {:induction false} RenderIsJoin(group: seq<string>)
    ensures Render(group) == Join(DropLeadingEmpty(group), ParagraphBreak)
    decreases |group|
  {
    if |group| > 0 {
      var init := group[..|group| - 1];
      var last := group[|group| - 1];
      assert group == init + [last];
      RenderIsJoin(init);
      RenderSnoc(init, last);
      DropLeadingEmptySnoc(init, last);
      var d := DropLeadingEmpty(init);
      if d != [] {
        JoinStartsWithHead(d, ParagraphBreak);
        JoinAppend(d, [last], ParagraphBreak);
      }
    }
  }

  // ---------------------------------------------------------------------------
  // Every chunk is a passage of the text

  lemma {:induction false} RenderIsSuffixOfJoin(group: seq<string>)
    ensures EndsWith(Join(group, ParagraphBreak), Render(group))
    decreases |group|
  {
    if |group| == 1 {
      RenderSingle(group[0]);
    } else if |group| > 1 {
      var init := group[..|group| - 1];
      var last := group[|group| - 1];
      assert group == init + [last];
      RenderIsSuffixOfJoin(init);
      JoinAppend(init, [last], ParagraphBreak);
      RenderSnoc(init, last);
      SuffixStep(Join(init, ParagraphBreak), Render(init), last);
    }
  }

  /** Appending a separator and a paragraph to a joined list keeps the buffer built
      alongside it a suffix. */
  lemma SuffixStep(j: string, r: string, last: string)
    requires EndsWith(j, r)
    ensures EndsWith(j + ParagraphBreak + last, r + (if r != "" then ParagraphBreak else "") + last)
  {
    var s := j + ParagraphBreak + last;
    if r != "" {
      assert s == j + (ParagraphBreak + last);
      assert r + ParagraphBreak + last == r + (ParagraphBreak + last);
      EndsWithExtend(j, r, ParagraphBreak + last);
    } else {
      assert r + "" + last == last;
      SuffixEndsWith(j + ParagraphBreak, last);
    }
  }

  lemma EndsWithExtend(s: string, x: string, tail: string)
    requires EndsWith(s, x)
    ensures EndsWith(s + tail, x + tail)
  {
    assert (s + tail)[|s| - |x|..] == s[|s| - |x|..] + tail;
  }

  lemma SuffixEndsWith(s: string, x: string)
    ensures EndsWith(s + x, x)
  {
    assert (s + x)[|s|..] == x;
  }

  lemma SuffixIsSubstring(x: string, s: string)
    requires EndsWith(s, x)
    ensures IsSubstring(x, s)
  {
    assert s[|s| - |x|..|s|] == x;
  }

  lemma {:induction false} JoinOfBlockIsSubstring(before: seq<string>, block: seq<string>, after: seq<string>)
    requires |block| > 0
    ensures IsSubstring(Join(block, ParagraphBreak), Join(before + block + after, ParagraphBreak))
  {
    var jb := Join(block, ParagraphBreak);
    var withAfter := Join(block + after, ParagraphBreak);
    assert IsSubstring(jb, withAfter) by {
      if |after| > 0 {
        JoinAppend(block, after, ParagraphBreak);
        assert withAfter[0..|jb|] == jb;
      } else {
        assert block + after == block;
        assert withAfter[0..|jb|] == jb;
      }
    }
    var whole := Join(before + block + after, ParagraphBreak);
    assert IsSubstring(withAfter, whole) by {
      assert before + block + after == before + (block + after);
      if |before| > 0 {
        JoinAppend(before, block + after, ParagraphBreak);
        var prefix := Join(before, ParagraphBreak) + ParagraphBreak;
        assert whole == prefix + withAfter;
        assert whole[|prefix|..|whole|] == withAfter;
      } else {
        assert before + block + after == block + after;
        assert whole == withAfter;
        assert whole[0..|whole|] == whole;
      }
    }
    SubstringTransitive(jb, withAfter, whole);
  }

  /** Flattening distributes over concatenation of group lists. */
  lemma {:induction false} FlattenAppend(xs: seq<seq<string>>, ys: seq<seq<string>>)
    ensures Flatten(xs + ys) == Flatten(xs) + Flatten(ys)
    decreases |ys|
  {
    if |ys| == 0 {
      assert xs + ys == xs;
    } else {
      var init := ys[..|ys| - 1];
      var y := ys[|ys| - 1];
      assert xs + ys == (xs + init) + [y];
      FlattenSnoc(xs + init, y);
      FlattenAppend(xs, init);
      assert ys == init + [y];
      FlattenSnoc(init, y);
    }
  }

  lemma FlattenAround(groups: seq<seq<string>>, k: nat)
    requires k < |groups|
    ensures Flatten(groups) == Flatten(groups[..k]) + (groups[k] + Flatten(groups[k + 1..]))
  {
    var before, g, rest := groups[..k], groups[k], groups[k + 1..];
    assert groups == before + ([g] + rest);
    FlattenAppend(before, [g] + rest);
    FlattenAppend([g], rest);
    FlattenSingle(g);
  }

  lemma FlattenSingle(group: seq<string>)
    ensures Flatten([group]) == group
  {
    assert [group][..0] == [];
  }

  lemma TrimIsSubstring(s: string)
    ensures IsSubstring(Trim(s), s)
  {
    var lead := LeadingWhitespace(s);
    assert s[lead..lead + |Trim(s)|] == Trim(s);
  }

  /** The buffer of any group lies in the joined paragraphs. */
  lemma GroupBufferIsPassage(paragraphs: seq<string>, groups: seq<seq<string>>, k: nat)
    requires |Flatten(groups)| <= |paragraphs| && paragraphs[..|Flatten(groups)|] == Flatten(groups)
    requires k < |groups| && |groups[k]| > 0
    ensures IsSubstring(Render(groups[k]), Join(paragraphs, ParagraphBreak))
  {
    var flat := Flatten(groups);
    FlattenAround(groups, k);
    var before := Flatten(groups[..k]);
    var after := Flatten(groups[k + 1..]) + paragraphs[|flat|..];
    assert paragraphs == flat + paragraphs[|flat|..];
    assert paragraphs == before + groups[k] + after by {
      assert flat == before + (groups[k] + Flatten(groups[k + 1..]));
    }
    JoinOfBlockIsSubstring(before, groups[k], after);
    RenderIsSuffixOfJoin(groups[k]);
    SuffixIsSubstring(Render(groups[k]), Join(groups[k], ParagraphBreak));
    SubstringTransitive(Render(groups[k]), Join(groups[k], ParagraphBreak), Join(paragraphs, ParagraphBreak));
  }

  /** Every chunk is a contiguous passage of the input text. */
  lemma ChunksArePassages(text: string, maxChunkSize: int)
    ensures forall c :: c in ChunkText(text, maxChunkSize) ==> IsSubstring(c, text)
  {
    var ps := Paragraphs(text);
    var gs := Groups(ps, maxChunkSize);
    var packed := Pack(ps, maxChunkSize);
    PackMatchesGroups(ps, maxChunkSize);
    GroupsPartitionParagraphs(ps, maxChunkSize);
    JoinSplit(text, ParagraphBreak);
    forall c | c in ChunkText(text, maxChunkSize)
      ensures IsSubstring(c, text)
    {
      assert c in packed;
      var k :| 0 <= k < |packed| && packed[k] == c;
      TrimRendersAt(gs, k);
      GroupBufferIsPassage(ps, gs, k);
      TrimIsSubstring(Render(gs[k]));
      SubstringTransitive(c, Render(gs[k]), text);
    }
  }

  /** Empty text, or any text of at most 50 characters, yields no chunks. */
  lemma ShortTextHasNoChunks(text: string, maxChunkSize: int)
    requires |text| <= MinChunkLength
    ensures ChunkText(text, maxChunkSize) == []
  {
    var chunks := ChunkText(text, maxChunkSize);
    ChunksArePassages(text, maxChunkSize);
    if |chunks| > 0 {
      SubstringLength(chunks[0], text);
    }
  }

  /** Paragraph atomicity in full: the chunks before filtering are the trimmed
      buffers of the groups; a group's buffer is its paragraphs joined by blank
      lines; and the groups, in order, are the input paragraphs. */
  lemma ParagraphsNeverCut(text: string, maxChunkSize: int)
    ensures var ps := Paragraphs(text);
            var gs := Groups(ps, maxChunkSize);
            && Pack(ps, maxChunkSize) == TrimRenders(gs)
            && (forall k :: 0 <= k < |gs| ==> Render(gs[k]) == Join(DropLeadingEmpty(gs[k]), ParagraphBreak))
            && |Flatten(gs)| <= |ps| && ps[..|Flatten(gs)|] == Flatten(gs)
            && (forall k :: |Flatten(gs)| <= k < |ps| ==> ps[k] == "")
  {
    var ps := Paragraphs(text);
    var gs := Groups(ps, maxChunkSize);
    PackMatchesGroups(ps, maxChunkSize);
    GroupsPartitionParagraphs(ps, maxChunkSize);
    forall k | 0 <= k < |gs|
      ensures Render(gs[k]) == Join(DropLeadingEmpty(gs[k]), ParagraphBreak)
    {
      RenderIsJoin(gs[k]);
    }
  }
}
