/** The chunk splitter of src/format.js: cuts a (text, entities) pair into
    length-bounded chunks, ending a chunk before an entity that starts inside
    it and crosses its candidate end where it can, and renumbering every
    chunk's entities. */
module ChunkSplitter {
  import opened Entities
  import opened Text

  /** One outbound message: a slice of the text and its entities, with
      offsets relative to the slice. */
  datatype Chunk = Chunk(text: string, entities: seq<Entity>)

  /** The default chunk length of both splitters. */
  const TelegramMaxLen := 3500

  // ---------------------------------------------------------------------
  // sliceEntitiesForRange

  /** The part of `e` inside [start, end), renumbered from `start`; nothing
      when the overlap is empty. Kind and extra data are kept. */
  function Clip(e: Entity, start: int, end: int): Option<Entity> {
    var lo := Max(start, e.offset);
    var hi := Min(end, e.offset + e.length);
    if lo >= hi then None else Some(e.(offset := lo - start, length := hi - lo))
  }

  function ClipList(e: Entity, start: int, end: int): seq<Entity> {
    match Clip(e, start, end)
    case None => []
    case Some(c) => [c]
  }

  /** The entities clipped to [start, end), in input order. */
  function Sliced(entities: seq<Entity>, start: int, end: int): seq<Entity> {
    if entities == [] then []
    else Sliced(entities[..|entities| - 1], start, end) + ClipList(entities[|entities| - 1], start, end)
  }

  /** An entity survives exactly when it overlaps the range, keeps its kind
      and extra data, and is cut to the overlap. */
  lemma ClipMeaning(e: Entity, start: int, end: int)
    ensures Clip(e, start, end).Some?
        <==> Max(start, e.offset) < Min(end, e.offset + e.length)
    ensures Clip(e, start, end).Some? ==>
      var c := Clip(e, start, end).value;
      c.kind == e.kind && c.extra == e.extra
      && start + c.offset == Max(start, e.offset)
      && start + c.offset + c.length == Min(end, e.offset + e.length)
  {}

  /** Every entity lies inside a chunk of length n and is non-empty. */
  predicate ValidInChunk(es: seq<Entity>, n: int) {
    forall k :: 0 <= k < |es| ==> 0 <= es[k].offset && 0 < es[k].length && es[k].offset + es[k].length <= n
  }

  /** Every sliced entity lies inside the chunk and is non-empty. */
  lemma {:induction false} SlicedValid(entities: seq<Entity>, start: int, end: int)
    requires start <= end
    ensures ValidInChunk(Sliced(entities, start, end), end - start)
  {
    if entities != [] {
      SlicedValid(entities[..|entities| - 1], start, end);
    }
  }

  /** Slicing works entity by entity: it distributes over concatenation,
      so the input order is kept. */
  lemma {:induction false} SlicedAppend(a: seq<Entity>, b: seq<Entity>, start: int, end: int)
    ensures Sliced(a + b, start, end) == Sliced(a, start, end) + Sliced(b, start, end)
  {
    if b == [] {
      assert a + b == a;
    } else {
      var b' := b[..|b| - 1];
      assert (a + b)[..|a + b| - 1] == a + b';
      SlicedAppend(a, b', start, end);
    }
  }

  /** Entities already inside [0, end) with positive length come out unchanged. */
  lemma {:induction false} SlicedInside(entities: seq<Entity>, end: int)
    requires forall k :: 0 <= k < |entities| ==> WithinText(entities[k], end) && entities[k].length > 0
    ensures Sliced(entities, 0, end) == entities
  {
    if entities != [] {
      var init, last := entities[..|entities| - 1], entities[|entities| - 1];
      assert forall k :: 0 <= k < |init| ==> init[k] == entities[k];
      SlicedInside(init, end);
      assert Clip(last, 0, end) == Some(last) by {
        assert WithinText(last, end) && last.length > 0;
      }
      assert init + [last] == entities;
    }
  }

  /** sliceEntitiesForRange. */
  method SliceEntitiesForRange(entities: seq<Entity>, start: int, end: int) returns (sliced: seq<Entity>)
    ensures sliced == Sliced(entities, start, end)
  {
    sliced := [];
    for i := 0 to |entities|
      invariant sliced == Sliced(entities[..i], start, end)
    {
      assert entities[..i + 1][..i] == entities[..i];
      var entity := entities[i];
      var entityStart := entity.offset;
      var entityEnd := entity.offset + entity.length;
      var overlapStart := Max(start, entityStart);
      var overlapEnd := Min(end, entityEnd);
      if overlapStart >= overlapEnd {
        continue;
      }
      sliced := sliced + [entity.(offset := overlapStart - start, length := overlapEnd - overlapStart)];
    }
    assert entities[..|entities|] == entities;
  }

  // ---------------------------------------------------------------------
  // splitTelegramWithEntities

  /** The single pass over the entities that lowers the candidate end to the
      start of each entity that crosses it and starts after `pos`. The result
      depends on the order of the entities. */
  function Shrink(entities: seq<Entity>, pos: int, safeEnd: int): (r: int)
    ensures r <= safeEnd
    ensures pos < safeEnd ==> pos < r
  {
    if entities == [] then safeEnd
    else
      var e := entities[0];
      var crossesEnd := e.offset < safeEnd && e.offset + e.length > safeEnd;
      Shrink(entities[1..], pos, if crossesEnd && e.offset > pos then Min(safeEnd, e.offset) else safeEnd)
  }

  /** Where the chunk that starts at `pos` ends. */
  function ChunkEnd(text: string, entities: seq<Entity>, max: int, pos: nat): (r: nat)
    requires max >= 1 && pos < |text|
    ensures pos < r <= Min(pos + max, |text|)
  {
    var targetEnd: nat := Min(pos + max, |text|);
    var safeEnd := Shrink(entities, pos, targetEnd);
    if safeEnd == pos then targetEnd else safeEnd
  }

  /** The chunks from `pos` on. */
  function SplitFrom(text: string, entities: seq<Entity>, max: int, pos: nat): seq<Chunk>
    requires max >= 1 && pos <= |text|
    decreases |text| - pos
  {
    if pos == |text| then []
    else
      var end := ChunkEnd(text, entities, max, pos);
      [Chunk(text[pos..end], Sliced(entities, pos, end))] + SplitFrom(text, entities, max, end)
  }

  /** One step of the splitter. */
  lemma SplitFromStep(text: string, entities: seq<Entity>, max: int, pos: nat)
    requires max >= 1 && pos < |text|
    ensures var end := ChunkEnd(text, entities, max, pos);
      SplitFrom(text, entities, max, pos)
        == [Chunk(text[pos..end], Sliced(entities, pos, end))] + SplitFrom(text, entities, max, end)
  {}

  function Split(text: string, entities: seq<Entity>, max: int): seq<Chunk>
    requires max >= 1
  {
    SplitFrom(text, entities, max, 0)
  }

  function Concat(ss: seq<string>): string {
    if ss == [] then "" else ss[0] + Concat(ss[1..])
  }

  function Texts(chunks: seq<Chunk>): seq<string> {
    seq(|chunks|, k requires 0 <= k < |chunks| => chunks[k].text)
  }

  /** splitTelegramWithEntities. `max` must be positive: with 0 the source
      loops forever. */
  method SplitTelegramWithEntities(text: string, entities: seq<Entity>, max: int) returns (parts: seq<Chunk>)
    requires max >= 1
    ensures parts == Split(text, entities, max)
  {
    parts := [];
    var pos: nat := 0;
    while pos < |text|
      invariant pos <= |text|
      invariant parts + SplitFrom(text, entities, max, pos) == Split(text, entities, max)
      decreases |text| - pos
    {
      var targetEnd := Min(pos + max, |text|);
      var safeEnd := targetEnd;
      for i := 0 to |entities|
        invariant Shrink(entities[i..], pos, safeEnd) == Shrink(entities, pos, targetEnd)
      {
        assert entities[i..][1..] == entities[i + 1..];
        var entity := entities[i];
        var entityStart := entity.offset;
        var entityEnd := entity.offset + entity.length;
        var crossesEnd := entityStart < safeEnd && entityEnd > safeEnd;
        if crossesEnd && entityStart > pos {
          safeEnd := Min(safeEnd, entityStart);
        }
      }
      assert entities[|entities|..] == [];
      if safeEnd == pos {
        safeEnd := targetEnd;
      }
      assert safeEnd == ChunkEnd(text, entities, max, pos);
      var chunkText := text[pos..safeEnd];
      var chunkEntities := SliceEntitiesForRange(entities, pos, safeEnd);
      SplitFromStep(text, entities, max, pos);
      parts := parts + [Chunk(chunkText, chunkEntities)];
      pos := safeEnd;
    }
    assert parts + [] == parts;
  }

  /** Concatenating the chunk texts gives back the text. */
  lemma {:induction false} SplitFromConcat(text: string, entities: seq<Entity>, max: int, pos: nat)
    requires max >= 1 && pos <= |text|
    ensures Concat(Texts(SplitFrom(text, entities, max, pos))) == text[pos..]
    decreases |text| - pos
  {
    if pos < |text| {
      var end := ChunkEnd(text, entities, max, pos);
      var parts := SplitFrom(text, entities, max, pos);
      SplitFromConcat(text, entities, max, end);
      assert Texts(parts)[1..] == Texts(SplitFrom(text, entities, max, end));
      assert text[pos..] == text[pos..end] + text[end..];
    }
  }

  /** Every chunk is non-empty and at most `max` long, and its entities lie
      inside it with positive length. */
  lemma {:induction false} SplitFromChunks(text: string, entities: seq<Entity>, max: int, pos: nat)
    requires max >= 1 && pos <= |text|
    ensures var parts := SplitFrom(text, entities, max, pos);
      forall k :: 0 <= k < |parts| ==>
        0 < |parts[k].text| <= max && ValidInChunk(parts[k].entities, |parts[k].text|)
    decreases |text| - pos
  {
    if pos < |text| {
      var end := ChunkEnd(text, entities, max, pos);
      SlicedValid(entities, pos, end);
      SplitFromChunks(text, entities, max, end);
      SplitFromStep(text, entities, max, pos);
      var parts := SplitFrom(text, entities, max, pos);
      var rest := SplitFrom(text, entities, max, end);
      assert forall k :: 1 <= k < |parts| ==> parts[k] == rest[k - 1];
    }
  }

  /** The whole splitter: the chunks rebuild the text, each is non-empty and
      within `max`, each chunk's entities are valid in the chunk, and an empty
      text gives no chunks. */
  lemma SplitContract(text: string, entities: seq<Entity>, max: int)
    requires max >= 1
    ensures var parts := Split(text, entities, max);
      Concat(Texts(parts)) == text
      && (|text| == 0 <==> parts == [])
      && forall k :: 0 <= k < |parts| ==>
        0 < |parts[k].text| <= max && ValidInChunk(parts[k].entities, |parts[k].text|)
  {
    SplitFromConcat(text, entities, max, 0);
    SplitFromChunks(text, entities, max, 0);
  }

  /** A text that fits is one chunk, and entities already valid in it are
      passed on unchanged. */
  lemma SplitFits(text: string, entities: seq<Entity>, max: int)
    requires max >= 1 && 0 < |text| <= max
    requires forall k :: 0 <= k < |entities| ==> WithinText(entities[k], |text|) && entities[k].length > 0
    ensures Split(text, entities, max) == [Chunk(text, entities)]
  {
    ShrinkWithoutCrossing(entities, 0, |text|);
    SplitFromStep(text, entities, max, 0);
    assert ChunkEnd(text, entities, max, 0) == |text|;
    SlicedInside(entities, |text|);
    assert text[0..|text|] == text;
  }

  /** When no entity reaches past the candidate end, nothing is lowered. */
  lemma {:induction false} ShrinkWithoutCrossing(entities: seq<Entity>, pos: int, safeEnd: int)
    requires forall k :: 0 <= k < |entities| ==> entities[k].offset + entities[k].length <= safeEnd
    ensures Shrink(entities, pos, safeEnd) == safeEnd
  {
    if entities != [] {
      ShrinkWithoutCrossing(entities[1..], pos, safeEnd);
    }
  }

  /** An entity that starts after `pos`, before the candidate end, and reaches
      past it keeps the chunk from ending after its start, whatever the order
      of the entities. */
  lemma {:induction false} ShrinkStopsBefore(entities: seq<Entity>, pos: int, safeEnd: int, e: Entity)
    requires e in entities
    requires pos < e.offset < safeEnd < e.offset + e.length
    ensures Shrink(entities, pos, safeEnd) <= e.offset
  {
    var first := entities[0];
    var crossesEnd := first.offset < safeEnd && first.offset + first.length > safeEnd;
    var next := if crossesEnd && first.offset > pos then Min(safeEnd, first.offset) else safeEnd;
    if first == e {
      assert next <= e.offset;
    } else {
      assert e in entities[1..];
      if next > e.offset {
        ShrinkStopsBefore(entities[1..], pos, next, e);
      }
    }
  }

  /** Such an entity is kept out of the chunk at `pos`: the chunk ends at or
      before its start and carries no part of it. Later chunks may still cut
      it; an entity that starts at or before `pos` is clipped instead
      (CrossingEntityClipped). */
  lemma CrossingEntityDeferred(text: string, entities: seq<Entity>, max: int, pos: nat, e: Entity)
    requires max >= 1 && pos < |text| && e in entities
    requires pos < e.offset < Min(pos + max, |text|) < e.offset + e.length
    ensures ChunkEnd(text, entities, max, pos) <= e.offset
    ensures Clip(e, pos, ChunkEnd(text, entities, max, pos)).None?
  {
    ShrinkStopsBefore(entities, pos, Min(pos + max, |text|), e);
  }

  /** The fallback to the unshrunk end never applies: the shrunk end always
      lies after `pos`. */
  lemma FallbackNeverTaken(text: string, entities: seq<Entity>, max: int, pos: nat)
    requires max >= 1 && pos < |text|
    ensures Shrink(entities, pos, Min(pos + max, |text|)) > pos
    ensures ChunkEnd(text, entities, max, pos) == Shrink(entities, pos, Min(pos + max, |text|))
  {}

  /** "hello world" with "world" bold, at most 7 per chunk: the bold word
      moves whole into the second chunk. */
  lemma HelloWorldScenario()
    ensures Split("hello world", [Entity(Bold, 6, 5, NoExtra)], 7)
         == [Chunk("hello ", []), Chunk("world", [Entity(Bold, 0, 5, NoExtra)])]
  {
    var text := "hello world";
    var es := [Entity(Bold, 6, 5, NoExtra)];
    assert ChunkEnd(text, es, 7, 0) == 6;
    assert Sliced(es, 0, 6) == [] by {
      assert es[..0] == [];
    }
    assert ChunkEnd(text, es, 7, 6) == 11 by {
      assert es[1..] == [];
    }
    assert Sliced(es, 6, 11) == [Entity(Bold, 0, 5, NoExtra)] by {
      assert es[..0] == [];
    }
    assert SplitFrom(text, es, 7, 11) == [];
    assert text[0..6] == "hello " && text[6..11] == "world";
  }

  /** The shrink is one pass in entity order, so a short entity checked before
      the end was lowered can still be cut: with a 4-long bold span at 2 and an
      italic span from 5 to 20, max 10, the first chunk is [0, 5) and the
      second [5, 15), and the bold span is split 3 + 1 across them. Listed the
      other way round, the first chunk ends at 2. */
  lemma OrderDependence()
    ensures var text := Repeat('a', 20);
      var bold := Entity(Bold, 2, 4, NoExtra);
      var italic := Entity(Italic, 5, 15, NoExtra);
      var chunks := Split(text, [bold, italic], 10);
      && |chunks| >= 2
      && chunks[0] == Chunk(text[0..5], [Entity(Bold, 2, 3, NoExtra)])
      && chunks[1] == Chunk(text[5..15], [Entity(Bold, 0, 1, NoExtra), Entity(Italic, 0, 10, NoExtra)])
      && ChunkEnd(text, [italic, bold], 10, 0) == 2
  {
    var text := Repeat('a', 20);
    var bold := Entity(Bold, 2, 4, NoExtra);
    var italic := Entity(Italic, 5, 15, NoExtra);
    var es := [bold, italic];
    assert es[1..][1..] == [];
    assert [italic, bold][1..][1..] == [];
    assert es[..1] == [bold] && es[..1][..0] == [];
    assert |text| == 20;
    assert Shrink(es[1..], 0, 10) == Shrink(es[1..][1..], 0, 5) == 5;
    assert ChunkEnd(text, es, 10, 0) == 5;
    assert Shrink(es[1..], 5, 15) == Shrink(es[1..][1..], 5, 15) == 15;
    assert ChunkEnd(text, es, 10, 5) == 15;
    SplitFromStep(text, es, 10, 0);
    SplitFromStep(text, es, 10, 5);
  }

  /** An entity that starts at or before `pos` and runs past the chunk end
      is clipped: the chunk at `pos` carries its part from `pos` to the end. */
  lemma CrossingEntityClipped(text: string, entities: seq<Entity>, max: int, pos: nat, k: nat)
    requires max >= 1 && pos < |text| && k < |entities|
    requires entities[k].offset <= pos && ChunkEnd(text, entities, max, pos) < entities[k].End()
    ensures var e := entities[k];
      var end := ChunkEnd(text, entities, max, pos);
      && Clip(e, pos, end) == Some(e.(offset := 0, length := end - pos))
      && e.(offset := 0, length := end - pos) in Sliced(entities, pos, end)
  {
    SlicedHas(entities, pos, ChunkEnd(text, entities, max, pos), k);
  }

  /** Every entity that overlaps the range shows up, clipped, in the slice. */
  lemma {:induction false} SlicedHas(entities: seq<Entity>, start: int, end: int, k: nat)
    requires k < |entities| && Clip(entities[k], start, end).Some?
    ensures Clip(entities[k], start, end).value in Sliced(entities, start, end)
  {
    var init := entities[..|entities| - 1];
    if k < |init| {
      assert init[k] == entities[k];
      SlicedHas(init, start, end, k);
    }
  }

  // ---------------------------------------------------------------------
  // splitTelegram (no entities)

  /** The plain chunks from `i` on: slices of `max` characters, the last one
      shorter. */
  function PlainFrom(text: string, max: int, i: nat): seq<string>
    requires max >= 1
    decreases |text| - i
  {
    if i >= |text| then [] else [text[i..Min(i + max, |text|)]] + PlainFrom(text, max, i + max)
  }

  function SplitPlain(text: string, max: int): seq<string>
    requires max >= 1
  {
    PlainFrom(text, max, 0)
  }

  /** splitTelegram. `max` must be positive: with 0 the source loops forever. */
  method SplitTelegram(text: string, max: int) returns (parts: seq<string>)
    requires max >= 1
    ensures parts == SplitPlain(text, max)
  {
    parts := [];
    var i: nat := 0;
    while i < |text|
      invariant parts + PlainFrom(text, max, i) == SplitPlain(text, max)
      decreases |text| - i
    {
      parts := parts + [text[i..Min(i + max, |text|)]];
      i := i + max;
    }
    assert parts + [] == parts;
  }

  /** Without entities the two splitters cut the same chunks. */
  lemma {:induction false} NoEntitiesIsPlain(text: string, max: int, pos: nat)
    requires max >= 1 && pos <= |text|
    ensures Texts(SplitFrom(text, [], max, pos)) == PlainFrom(text, max, pos)
    ensures forall k :: 0 <= k < |SplitFrom(text, [], max, pos)| ==> SplitFrom(text, [], max, pos)[k].entities == []
    decreases |text| - pos
  {
    if pos < |text| {
      var end := ChunkEnd(text, [], max, pos);
      assert end == Min(pos + max, |text|);
      NoEntitiesIsPlain(text, max, end);
      var parts := SplitFrom(text, [], max, pos);
      assert Texts(parts)[1..] == Texts(SplitFrom(text, [], max, end));
    }
  }

  /** The plain chunks rebuild the text, and all but the last are exactly
      `max` long. */
  lemma {:induction false} PlainFromShape(text: string, max: int, i: nat)
    requires max >= 1 && i <= |text|
    ensures var parts := PlainFrom(text, max, i);
      Concat(parts) == text[i..]
      && (forall k :: 0 <= k < |parts| ==> 0 < |parts[k]| <= max)
      && (forall k :: 0 <= k < |parts| - 1 ==> |parts[k]| == max)
    decreases |text| - i
  {
    if i < |text| {
      var end := Min(i + max, |text|);
      if end < |text| {
        PlainFromShape(text, max, end);
      }
      assert text[i..] == text[i..end] + text[end..];
    }
  }

  /** 7001 characters at the default length give chunks of 3500, 3500 and 1. */
  lemma SevenThousandOneScenario()
    ensures var parts := SplitPlain(Repeat('a', 7001), TelegramMaxLen);
      |parts| == 3 && |parts[0]| == 3500 && |parts[1]| == 3500 && |parts[2]| == 1
  {
    var text := Repeat('a', 7001);
    assert PlainFrom(text, 3500, 10500) == [];
    assert |PlainFrom(text, 3500, 7000)| == 1;
  }
}
