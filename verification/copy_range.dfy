/**
  `read_games` of the workflows crate: the corpus bytes from the start of game `startIndex` up
  to the start of game `endIndex`, copied in reads of at most 1024 bytes.
*/
module CopyRange {
  import opened Wrappers
  import opened Corpus

  /** The largest single read. */
  const ReadLimit: nat := 1024

  /** Why the copy fails: an index entry is missing, or the file ends before `end_offset`. */
  datatype CopyError = StartIndexOutOfBounds | EndIndexOutOfBounds | UnexpectedEof

  function Min(a: nat, b: nat): nat
  {
    if a <= b then a else b
  }

  function Sum(s: seq<nat>): nat
    decreases |s|
  {
    if |s| == 0 then 0 else s[0] + Sum(s[1..])
  }

  /**
    The sizes of the successive reads the copy loop issues from stream position `pos` to `end`:
    each between 1 and 1024 bytes, none passing `end`, together covering the range exactly.
  */
  function ReadSizes(pos: nat, end: nat): (sizes: seq<nat>)
    ensures forall size :: size in sizes ==> 1 <= size <= ReadLimit
    ensures Sum(sizes) == if pos < end then end - pos else 0
    decreases end - pos
  {
    if pos >= end then []
    else
      var size := Min(end - pos, ReadLimit);
      [size] + ReadSizes(pos + size, end)
  }

  /** There are `ceil((end - pos) / 1024)` reads, and none when `end <= pos`. */
  lemma {:induction false} ReadCount(pos: nat, end: nat)
    ensures |ReadSizes(pos, end)| == if pos < end then (end - pos + ReadLimit - 1) / ReadLimit else 0
    decreases end - pos
  {
    if pos < end {
      ReadCount(pos + Min(end - pos, ReadLimit), end);
    }
  }

  /**
    The copy itself: the two index lookups, then `ReadRange`. `issued` are the sizes of the reads
    issued, in order: on success exactly the pattern `ReadSizes` describes, and in any case a
    prefix of it.
  */
  method ReadGames(corpus: seq<Byte>, index: seq<nat>, startIndex: nat, endIndex: nat)
    returns (r: Result<seq<Byte>, CopyError>, ghost issued: seq<nat>)
    ensures startIndex >= |index| ==> r == Err(StartIndexOutOfBounds)
    ensures startIndex < |index| && endIndex >= |index| ==> r == Err(EndIndexOutOfBounds)
    ensures startIndex < |index| && endIndex < |index| ==>
              var start, end := index[startIndex], index[endIndex];
              && (end <= start ==> r == Ok([]))
              && (start < end <= |corpus| ==> r == Ok(corpus[start..end]))
              && (start < end && |corpus| < end ==> r == Err(UnexpectedEof))
              && issued <= ReadSizes(start, end)
              && (r.Ok? ==> issued == ReadSizes(start, end))
  {
    issued := [];
    var startOffset :- Lookup(index, startIndex).ToResult(StartIndexOutOfBounds);
    var endOffset :- Lookup(index, endIndex).ToResult(EndIndexOutOfBounds);
    r, issued := ReadRange(corpus, startOffset, endOffset);
  }

  /**
    The seek and the read loop. A seek past the end of the file succeeds; the first read that
    would cross the end of the file fails, and so does the whole copy.
  */
  method ReadRange(corpus: seq<Byte>, startOffset: nat, endOffset: nat)
    returns (r: Result<seq<Byte>, CopyError>, ghost issued: seq<nat>)
    ensures endOffset <= startOffset ==> r == Ok([])
    ensures startOffset < endOffset <= |corpus| ==> r == Ok(corpus[startOffset..endOffset])
    ensures startOffset < endOffset && |corpus| < endOffset ==> r == Err(UnexpectedEof)
    ensures issued <= ReadSizes(startOffset, endOffset)
    ensures r.Ok? ==> issued == ReadSizes(startOffset, endOffset)
  {
    issued := [];
    var pos := startOffset;
    var content: seq<Byte> := [];
    ghost var whole := ReadSizes(startOffset, endOffset);
    while pos < endOffset
      invariant startOffset <= pos
      invariant startOffset < endOffset ==> pos <= endOffset
      invariant endOffset <= startOffset ==> pos == startOffset
      invariant Copied(corpus, content, startOffset, pos)
      invariant Traced(issued, pos, endOffset, whole)
      decreases endOffset - pos
    {
      var size := Min(endOffset - pos, ReadLimit);
      NextRead(issued, pos, endOffset, whole);
      if pos + size > |corpus| {
        return Err(UnexpectedEof), issued;
      }
      SliceExtend(corpus, content, startOffset, pos, pos + size);
      content := content + corpus[pos..pos + size];
      issued := issued + [size];
      pos := pos + size;
    }
    TraceDone(issued, pos, endOffset, whole);
    return Ok(content), issued;
  }

  /** `content` holds the bytes of `corpus` from `start` up to `pos`, none before the first read. */
  ghost predicate Copied(corpus: seq<Byte>, content: seq<Byte>, start: nat, pos: nat)
  {
    if pos <= start then content == [] else pos <= |corpus| && content == corpus[start..pos]
  }

  /** Appending the next read to the bytes copied so far gives the range up to the new position. */
  lemma SliceExtend(corpus: seq<Byte>, content: seq<Byte>, start: nat, pos: nat, next: nat)
    requires start <= pos < next <= |corpus|
    requires Copied(corpus, content, start, pos)
    ensures Copied(corpus, content + corpus[pos..next], start, next)
  {
    assert content == corpus[start..pos];
    assert content + corpus[pos..next] == corpus[start..next];
  }

  /** `issued` followed by the reads still to come from `pos` is the whole pattern `whole`. */
  ghost predicate Traced(issued: seq<nat>, pos: nat, end: nat, whole: seq<nat>)
  {
    issued + ReadSizes(pos, end) == whole
  }

  /**
    While the position is before `end`, the next read is the first size still to come: issuing
    it keeps the trace, and what was issued before it is a prefix of the pattern.
  */
  lemma NextRead(issued: seq<nat>, pos: nat, end: nat, whole: seq<nat>)
    requires pos < end
    requires Traced(issued, pos, end, whole)
    ensures issued <= whole
    ensures Traced(issued + [Min(end - pos, ReadLimit)], pos + Min(end - pos, ReadLimit), end, whole)
  {
    var size := Min(end - pos, ReadLimit);
    assert ReadSizes(pos, end) == [size] + ReadSizes(pos + size, end);
    assert issued + [size] + ReadSizes(pos + size, end) == issued + ([size] + ReadSizes(pos + size, end));
  }

  /** Once the position reaches `end`, the reads issued are the whole pattern. */
  lemma TraceDone(issued: seq<nat>, pos: nat, end: nat, whole: seq<nat>)
    requires pos >= end
    requires Traced(issued, pos, end, whole)
    ensures issued == whole
  {
    assert ReadSizes(pos, end) == [];
    assert issued + [] == issued;
  }
}
