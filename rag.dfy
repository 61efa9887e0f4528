/**
  The retrieval service's document indexing: the text is cut into chunks
  (paragraphs, long paragraphs broken into word groups, greedy merging
  under a size guard, then each chunk prefixed with the tail of the one
  before it), and one record per chunk is inserted into the vector
  collection.
 */
module Rag {
  import opened Base
  import opened Json
  import opened Text

  const ParagraphBreak := "\n\n"
  const LineBreak := "\n"
  const DefaultChunkSize := 1000
  const DefaultOverlap := 200

  /** `range()` with a step of zero raises `ValueError`. */
  datatype ChunkError = ZeroStep

  /** The two accumulators of the merge loop: the finished chunks and the chunk being filled. */
  datatype Acc = Acc(chunks: seq<string>, current: string)

  /**
    One piece offered to the merge: if the current chunk, the piece and one
    separator character would exceed the size, the current chunk is closed
    (even when empty) and the piece starts the next one; otherwise the piece
    is appended, after the separator when the current chunk is non-empty.
   */
  function Offer(a: Acc, piece: string, sep: string, size: int): Acc {
    if |a.current| + |piece| + 1 > size then Acc(a.chunks + [a.current], piece)
    else Acc(a.chunks, a.current + (if a.current != "" then sep else "") + piece)
  }

  function OfferAll(a: Acc, pieces: seq<string>, sep: string, size: int): Acc
    decreases |pieces|
  {
    if pieces == [] then a else OfferAll(Offer(a, pieces[0], sep, size), pieces[1..], sep, size)
  }

  /** The groups of `step` consecutive words, each joined by single spaces; the last may be shorter. */
  function Groups(words: seq<string>, step: nat): seq<string>
    requires step > 0
    decreases |words|
  {
    if words == [] then []
    else if |words| <= step then [Join(words, " ")]
    else [Join(words[..step], " ")] + Groups(words[step..], step)
  }

  /**
    What one paragraph does to the accumulators. A paragraph longer than
    the size is broken into groups of `size // 10` words merged with "\n"
    (a negative step gives no groups at all); any other paragraph is merged
    whole with "\n\n".
   */
  function AddParagraph(a: Acc, para: string, size: int): Acc {
    if |para| > size then
      if size / 10 > 0 then OfferAll(a, Groups(Words(para), size / 10), LineBreak, size) else a
    else Offer(a, para, ParagraphBreak, size)
  }

  function AddParagraphs(a: Acc, paras: seq<string>, size: int): Acc
    decreases |paras|
  {
    if paras == [] then a else AddParagraphs(AddParagraph(a, paras[0], size), paras[1..], size)
  }

  /** The final append, which alone skips an empty current chunk. */
  function Flush(a: Acc): seq<string> {
    if a.current != "" then a.chunks + [a.current] else a.chunks
  }

  /**
    `s[-n:] if len(s) > n else s`, the last min(n, |s|) characters, for a
    positive `n`: the overlap pass calls it only then. (For `n == 0` Python's
    `s[-0:]` is all of `s`, whereas this gives "".)
   */
  function Tail(s: string, n: nat): (r: string)
    ensures |r| == (if |s| > n then n else |s|)
    ensures r == s[|s| - |r|..]
  {
    if |s| > n then s[|s| - n..] else s
  }

  /** Each chunk of `rest` prefixed with the tail of the chunk before it. */
  function Overlapped(prev: string, rest: seq<string>, n: nat): seq<string>
    decreases |rest|
  {
    if rest == [] then [] else [Tail(prev, n) + rest[0]] + Overlapped(rest[0], rest[1..], n)
  }

  /** The overlap pass, which runs only for a positive overlap and at least two chunks. */
  function Overlap(chunks: seq<string>, overlap: int): seq<string> {
    if overlap > 0 && |chunks| > 1 then [chunks[0]] + Overlapped(chunks[0], chunks[1..], overlap)
    else chunks
  }

  /** `range(0, len(words), 0)` is reached: some paragraph is long and the step is zero. */
  predicate Fails(paras: seq<string>, size: int) {
    size / 10 == 0 && exists k :: 0 <= k < |paras| && |paras[k]| > size
  }

  /** `_split_text(text, chunk_size, overlap)` as a value. */
  function Chunked(text: string, size: int, overlap: int): (r: Result<seq<string>, ChunkError>)
    ensures text == "" ==> r == Ok([])
    ensures r.Err? ==> size < 10
  {
    if text == "" then Ok([])
    else
      var paras := Split(text, ParagraphBreak);
      if Fails(paras, size) then Err(ZeroStep)
      else Ok(Overlap(Flush(AddParagraphs(Acc([], ""), paras, size)), overlap))
  }

  lemma OfferAllCons(a: Acc, piece: string, rest: seq<string>, sep: string, size: int)
    ensures OfferAll(a, [piece] + rest, sep, size) == OfferAll(Offer(a, piece, sep, size), rest, sep, size)
  {
    assert ([piece] + rest)[1..] == rest;
  }

  /** The words of each group, before they are joined. */
  function WordGroups(words: seq<string>, step: nat): seq<seq<string>>
    requires step > 0
    decreases |words|
  {
    if words == [] then []
    else if |words| <= step then [words]
    else [words[..step]] + WordGroups(words[step..], step)
  }

  function Flatten<T>(parts: seq<seq<T>>): seq<T>
    decreases |parts|
  {
    if parts == [] then [] else parts[0] + Flatten(parts[1..])
  }

  /**
    The groups partition the words in order: each group is its words joined
    by spaces, all groups but the last hold exactly `step` words and the last
    holds between one and `step`.
   */
  lemma {:induction false} GroupsPartition(words: seq<string>, step: nat)
    requires step > 0
    ensures var g := WordGroups(words, step);
            && |Groups(words, step)| == |g|
            && (forall k :: 0 <= k < |g| ==> Groups(words, step)[k] == Join(g[k], " "))
            && Flatten(g) == words
            && (forall k :: 0 <= k < |g| ==> 1 <= |g[k]| <= step)
            && (forall k :: 0 <= k < |g| - 1 ==> |g[k]| == step)
    decreases |words|
  {
    if |words| > step {
      GroupsPartition(words[step..], step);
      assert words[..step] + words[step..] == words;
    } else if words != [] {
      assert words + [] == words;
    }
  }

  /** Joining the groups with spaces gives back the paragraph's words joined with spaces. */
  lemma {:induction false} GroupsJoin(words: seq<string>, step: nat)
    requires step > 0
    ensures Join(Groups(words, step), " ") == Join(words, " ")
    decreases |words|
  {
    if |words| > step {
      var rest := words[step..];
      GroupsJoin(rest, step);
      assert Groups(rest, step) != [];
      JoinCons(Join(words[..step], " "), Groups(rest, step), " ");
      JoinAppend(words[..step], rest, " ");
      assert words[..step] + rest == words;
    }
  }

  /** Breaking the words from position i on: the group at i, then the groups from the next position. */
  lemma GroupsFrom(words: seq<string>, step: nat, i: nat)
    requires step > 0 && i < |words|
    ensures var stop := if i + step <= |words| then i + step else |words|;
            Groups(words[i..], step) == [Join(words[i..stop], " ")] + Groups(words[stop..], step)
  {
    var rest := words[i..];
    if |rest| > step {
      assert rest[..step] == words[i..i + step];
      assert rest[step..] == words[i + step..];
    } else {
      assert words[i..|words|] == rest;
      assert words[|words|..] == [];
    }
  }

  lemma AddParagraphsCons(a: Acc, paras: seq<string>, p: nat, size: int)
    requires p < |paras|
    ensures AddParagraphs(a, paras[p..], size) == AddParagraphs(AddParagraph(a, paras[p], size), paras[p + 1..], size)
  {
    assert paras[p..][1..] == paras[p + 1..];
  }

  /** The inner loop: the word groups of a long paragraph offered one by one, with "\n". */
  method MergeGroups(chunks0: seq<string>, current0: string, words: seq<string>, step: nat, size: int)
    returns (chunks: seq<string>, current: string)
    requires step > 0
    ensures Acc(chunks, current) == OfferAll(Acc(chunks0, current0), Groups(words, step), LineBreak, size)
  {
    chunks, current := chunks0, current0;
    var i := 0;
    while i < |words|
      invariant 0 <= i <= |words|
      invariant OfferAll(Acc(chunks, current), Groups(words[i..], step), LineBreak, size)
                == OfferAll(Acc(chunks0, current0), Groups(words, step), LineBreak, size)
    {
      var stop := if i + step <= |words| then i + step else |words|;
      var piece := Join(words[i..stop], " ");
      GroupsFrom(words, step, i);
      OfferAllCons(Acc(chunks, current), piece, Groups(words[stop..], step), LineBreak, size);
      if |current| + |piece| + 1 > size {
        chunks := chunks + [current];
        current := piece;
      } else {
        current := current + (if current != "" then LineBreak else "") + piece;
      }
      i := stop;
    }
  }

  /** The overlap loop, run when the overlap is positive and there are at least two chunks. */
  method OverlapChunks(chunks: seq<string>, overlap: int) returns (out: seq<string>)
    requires overlap > 0 && |chunks| > 1
    ensures out == Overlap(chunks, overlap)
  {
    ghost var o := Overlap(chunks, overlap);
    OverlapAt(chunks, overlap, 0);
    out := [];
    var i := 0;
    while i < |chunks|
      invariant 0 <= i <= |chunks| && out == o[..i]
    {
      OverlapAt(chunks, overlap, i);
      var piece := if i == 0 then chunks[i] else Tail(chunks[i - 1], overlap) + chunks[i];
      PrefixStep(o, i);
      out := out + [piece];
      i := i + 1;
    }
    assert o[..|chunks|] == o;
  }

  /** One chunk of the overlap pass: the first is kept, any other gets its predecessor's tail. */
  lemma OverlapAt(chunks: seq<string>, overlap: int, i: nat)
    requires overlap > 0 && |chunks| > 1 && i < |chunks|
    ensures var o := Overlap(chunks, overlap);
            |o| == |chunks| && o[i] == (if i == 0 then chunks[0] else Tail(chunks[i - 1], overlap) + chunks[i])
  {
    OverlapShape(chunks, overlap);
  }

  lemma PrefixStep<T>(o: seq<T>, i: nat)
    requires i < |o|
    ensures o[..i + 1] == o[..i] + [o[i]]
  {
  }

  /**
    The chunker's loops: the merge over paragraphs and word groups, the
    final flush, and the overlap pass. The result is the one `Chunked`
    defines, including the `ValueError` of a zero step.
   */
  method SplitText(text: string, size: int, overlap: int) returns (r: Result<seq<string>, ChunkError>)
    ensures r == Chunked(text, size, overlap)
  {
    if text == "" {
      return Ok([]);
    }
    var paras := Split(text, ParagraphBreak);
    var chunks: seq<string> := [];
    var current := "";
    var p := 0;
    while p < |paras|
      invariant 0 <= p <= |paras|
      invariant AddParagraphs(Acc(chunks, current), paras[p..], size) == AddParagraphs(Acc([], ""), paras, size)
      invariant size / 10 == 0 ==> forall k :: 0 <= k < p ==> |paras[k]| <= size
    {
      var para := paras[p];
      ghost var entry := Acc(chunks, current);
      if |para| > size {
        var step := size / 10;
        if step == 0 {
          assert Fails(paras, size);
          return Err(ZeroStep);
        }
        if step > 0 {
          chunks, current := MergeGroups(chunks, current, Words(para), step, size);
        }
      } else {
        if |current| + |para| + 1 > size {
          chunks := chunks + [current];
          current := para;
        } else {
          current := current + (if current != "" then ParagraphBreak else "") + para;
        }
      }
      assert Acc(chunks, current) == AddParagraph(entry, para, size);
      AddParagraphsCons(entry, paras, p, size);
      p := p + 1;
    }
    assert !Fails(paras, size);
    if current != "" {
      chunks := chunks + [current];
    }
    if overlap > 0 && |chunks| > 1 {
      chunks := OverlapChunks(chunks, overlap);
    }
    return Ok(chunks);
  }

  lemma {:induction false} OverlappedShape(prev: string, rest: seq<string>, n: nat)
    ensures |Overlapped(prev, rest, n)| == |rest|
    ensures rest != [] ==> Overlapped(prev, rest, n)[0] == Tail(prev, n) + rest[0]
    ensures forall j :: 1 <= j < |rest| ==> Overlapped(prev, rest, n)[j] == Tail(rest[j - 1], n) + rest[j]
    decreases |rest|
  {
    if rest != [] {
      OverlappedShape(rest[0], rest[1..], n);
      var o := Overlapped(prev, rest, n);
      var t := Overlapped(rest[0], rest[1..], n);
      assert o == [Tail(prev, n) + rest[0]] + t;
      forall j | 1 <= j < |rest|
        ensures o[j] == Tail(rest[j - 1], n) + rest[j]
      {
        assert o[j] == t[j - 1];
        assert rest[1..][j - 1] == rest[j];
        if j > 1 {
          assert rest[1..][j - 2] == rest[j - 1];
        }
      }
    }
  }

  /**
    The overlap pass keeps the number of chunks and the first chunk, and
    makes every later chunk the last min(overlap, length) characters of the
    chunk before it, followed by that chunk.
   */
  lemma OverlapShape(chunks: seq<string>, overlap: int)
    requires overlap > 0 && |chunks| > 1
    ensures var o := Overlap(chunks, overlap);
            && |o| == |chunks|
            && o[0] == chunks[0]
            && forall i :: 1 <= i < |chunks| ==> o[i] == Tail(chunks[i - 1], overlap) + chunks[i]
  {
    OverlappedShape(chunks[0], chunks[1..], overlap);
    var o := Overlap(chunks, overlap);
    forall i | 1 <= i < |chunks|
      ensures o[i] == Tail(chunks[i - 1], overlap) + chunks[i]
    {
      assert chunks[1..][i - 1] == chunks[i];
      if i > 1 {
        assert chunks[1..][i - 2] == chunks[i - 1];
      }
    }
  }

  /** Removing the overlap again: each chunk loses as many leading characters as the tail it was given. */
  function Unlap(out: seq<string>, prev: string, n: nat): seq<string>
    decreases |out|
  {
    if out == [] then []
    else
      var k := |Tail(prev, n)|;
      var c := if k <= |out[0]| then out[0][k..] else out[0];
      [c] + Unlap(out[1..], c, n)
  }

  function RemoveOverlap(out: seq<string>, overlap: int): seq<string> {
    if overlap > 0 && |out| > 1 then [out[0]] + Unlap(out[1..], out[0], overlap) else out
  }

  lemma {:induction false} UnlapOverlapped(prev: string, rest: seq<string>, n: nat)
    ensures Unlap(Overlapped(prev, rest, n), prev, n) == rest
    decreases |rest|
  {
    if rest != [] {
      var o := Overlapped(prev, rest, n);
      var t := Tail(prev, n);
      assert o[0] == t + rest[0];
      assert (t + rest[0])[|t|..] == rest[0];
      assert o[1..] == Overlapped(rest[0], rest[1..], n);
      UnlapOverlapped(rest[0], rest[1..], n);
    }
  }

  /** The overlap loses nothing: the chunks before the pass can be recovered from the chunks after it. */
  lemma OverlapRoundTrip(chunks: seq<string>, overlap: int)
    ensures RemoveOverlap(Overlap(chunks, overlap), overlap) == chunks
  {
    if overlap > 0 && |chunks| > 1 {
      var o := Overlap(chunks, overlap);
      OverlappedShape(chunks[0], chunks[1..], overlap);
      assert o[1..] == Overlapped(chunks[0], chunks[1..], overlap);
      UnlapOverlapped(chunks[0], chunks[1..], overlap);
    }
  }

  /** Every chunk, finished or current, is at most one character over the size. */
  predicate Bounded(a: Acc, size: int) {
    |a.current| <= size + 1 && forall k :: 0 <= k < |a.chunks| ==> |a.chunks[k]| <= size + 1
  }

  lemma {:induction false} ShortParagraphsStayBounded(a: Acc, paras: seq<string>, size: int)
    requires Bounded(a, size)
    requires forall k :: 0 <= k < |paras| ==> |paras[k]| <= size
    ensures Bounded(AddParagraphs(a, paras, size), size)
    decreases |paras|
  {
    if paras != [] {
      var b := AddParagraph(a, paras[0], size);
      assert b == Offer(a, paras[0], ParagraphBreak, size);
      assert Bounded(b, size);
      forall k | 0 <= k < |paras[1..]|
        ensures |paras[1..][k]| <= size
      {
        assert paras[1..][k] == paras[k + 1];
      }
      ShortParagraphsStayBounded(b, paras[1..], size);
    }
  }

  /**
    When no paragraph is longer than the size, no chunk of the merge is
    longer than the size plus one: the guard counts one separator character
    where "\n\n" inserts two.
   */
  lemma MergeBound(paras: seq<string>, size: int)
    requires size >= 0
    requires forall k :: 0 <= k < |paras| ==> |paras[k]| <= size
    ensures forall k :: 0 <= k < |Flush(AddParagraphs(Acc([], ""), paras, size))| ==>
              |Flush(AddParagraphs(Acc([], ""), paras, size))[k]| <= size + 1
  {
    ShortParagraphsStayBounded(Acc([], ""), paras, size);
  }

  /** Text without a newline. */
  predicate SingleLine(s: string) {
    forall k :: 0 <= k < |s| ==> s[k] != '\n'
  }

  /** A single line holds no paragraph break. */
  lemma SingleLineNoBreak(b: string)
    requires SingleLine(b)
    ensures !Contains(b, ParagraphBreak)
  {
    MissingFirstCharNotContained(b, ParagraphBreak);
  }

  /** The first break in two joined single lines is the joining one. */
  lemma BreakFirstAt(a: string, b: string)
    requires SingleLine(a)
    ensures Find(a + ParagraphBreak + b, ParagraphBreak) == Some(|a|)
  {
    var s := a + ParagraphBreak + b;
    assert OccursAt(s, ParagraphBreak, |a|);
    assert forall k :: 0 <= k < |a| ==> s[k] == a[k];
    FindFirstAt(s, ParagraphBreak, |a|);
  }

  lemma SplitTwoParagraphs(a: string, b: string)
    requires SingleLine(a) && SingleLine(b)
    ensures Split(a + ParagraphBreak + b, ParagraphBreak) == [a, b]
  {
    var s := a + ParagraphBreak + b;
    BreakFirstAt(a, b);
    SingleLineNoBreak(b);
    assert s[..|a|] == a;
    assert s[|a| + 2..] == b;
  }

  /**
    The bound is reached: two single-line paragraphs whose lengths add up
    to one less than the size are merged into one chunk of the size plus one.
   */
  lemma MergedChunkExceedsSize(a: string, b: string, size: int, overlap: int)
    requires SingleLine(a) && SingleLine(b) && a != ""
    requires |a| + |b| + 1 == size
    ensures Chunked(a + ParagraphBreak + b, size, overlap) == Ok([a + ParagraphBreak + b])
    ensures |a + ParagraphBreak + b| == size + 1
  {
    SplitTwoParagraphs(a, b);
    var paras := [a, b];
    assert !Fails(paras, size);
    var a1 := AddParagraph(Acc([], ""), a, size);
    assert a1 == Acc([], a);
    var a2 := AddParagraph(a1, b, size);
    assert a2 == Acc([], a + ParagraphBreak + b);
    assert paras[1..] == [b] && [b][1..] == [];
    assert AddParagraphs(a1, [b], size) == a2;
    assert AddParagraphs(Acc([], ""), paras, size) == a2;
    assert Flush(a2) == [a + ParagraphBreak + b];
  }

  lemma {:induction false} OfferAllKeepsChunks(a: Acc, pieces: seq<string>, sep: string, size: int)
    ensures var c := OfferAll(a, pieces, sep, size).chunks;
            |a.chunks| <= |c| && c[..|a.chunks|] == a.chunks
    decreases |pieces|
  {
    if pieces != [] {
      var b := Offer(a, pieces[0], sep, size);
      assert b.chunks[..|a.chunks|] == a.chunks;
      OfferAllKeepsChunks(b, pieces[1..], sep, size);
    }
  }

  lemma {:induction false} AddParagraphsKeepChunks(a: Acc, paras: seq<string>, size: int)
    ensures var c := AddParagraphs(a, paras, size).chunks;
            |a.chunks| <= |c| && c[..|a.chunks|] == a.chunks
    decreases |paras|
  {
    if paras != [] {
      var b := AddParagraph(a, paras[0], size);
      if |paras[0]| > size && size / 10 > 0 {
        OfferAllKeepsChunks(a, Groups(Words(paras[0]), size / 10), LineBreak, size);
      } else {
        assert b.chunks[..|a.chunks|] == a.chunks;
      }
      AddParagraphsKeepChunks(b, paras[1..], size);
    }
  }

  /**
    A first paragraph exactly as long as the size fails the guard against
    the empty current chunk, so an empty chunk is emitted first.
   */
  lemma LeadingEmptyMerge(paras: seq<string>, size: int)
    requires |paras| >= 1 && size >= 0 && |paras[0]| == size
    ensures var cs := Flush(AddParagraphs(Acc([], ""), paras, size)); |cs| >= 1 && cs[0] == ""
  {
    var a1 := AddParagraph(Acc([], ""), paras[0], size);
    assert a1 == Acc([""], paras[0]);
    AddParagraphsKeepChunks(a1, paras[1..], size);
  }

  /** The same for the whole chunker, overlap included, at any size with a non-zero step. */
  lemma LeadingEmptyChunk(text: string, size: int, overlap: int)
    requires size >= 10 && text != ""
    requires |Split(text, ParagraphBreak)[0]| == size
    ensures Chunked(text, size, overlap).Ok?
    ensures var cs := Chunked(text, size, overlap).value; |cs| >= 1 && cs[0] == ""
  {
    var paras := Split(text, ParagraphBreak);
    LeadingEmptyMerge(paras, size);
    var chunks := Flush(AddParagraphs(Acc([], ""), paras, size));
    assert Chunked(text, size, overlap) == Ok(Overlap(chunks, overlap));
    if overlap > 0 && |chunks| > 1 {
      OverlapShape(chunks, overlap);
    }
  }

  /** With the default sizes the step is 100, so chunking never fails. */
  lemma DefaultsNeverFail(text: string)
    ensures Chunked(text, DefaultChunkSize, DefaultOverlap).Ok?
  {
  }

  /** An embedding vector; its values come from the embedding service. */
  type Embedding = seq<real>

  /** The embedding service: one call for the list of chunks. It may return fewer or more vectors. */
  /** `get_embeddings`: the embeddings of the chunks, or the message of the exception it raises. */
  type Embedder = seq<string> -> Result<seq<Embedding>, string>

  /** One record of the vector collection; the metadata is kept as the value `json.dumps` would encode. */
  datatype Record = Record(documentId: string, text: string, metadata: Value, embedding: Embedding)

  /** The vector collection records are inserted into. */
  class Collection {
    var records: seq<Record>

    constructor ()
      ensures records == []
    {
      records := [];
    }

    method Insert(data: seq<Record>)
      modifies this
      ensures records == old(records) + data
    {
      records := records + data;
    }
  }

  /** The summary `index_document` returns. */
  datatype Indexed = Indexed(documentId: string, chunksCount: nat, indexed: bool)

  function ChunkId(documentId: string, i: nat): string {
    documentId + "_chunk_" + Decimal(i)
  }

  /** Metadata that is falsy (None or an empty dict) is stored as the empty dict. */
  function StoredMetadata(metadata: Value): Value {
    if Truthy(metadata) then metadata else Object([])
  }

  /** The records of `enumerate(zip(chunks, embeddings))`, numbered from `start`. */
  function Records(documentId: string, chunks: seq<string>, embeddings: seq<Embedding>, metadata: Value, start: nat)
    : seq<Record>
    decreases |chunks|
  {
    if chunks == [] || embeddings == [] then []
    else [Record(ChunkId(documentId, start), chunks[0], StoredMetadata(metadata), embeddings[0])]
         + Records(documentId, chunks[1..], embeddings[1..], metadata, start + 1)
  }

  /**
    One record per pair of chunk and embedding, as many as the shorter of
    the two lists: record i holds chunk i, embedding i, the stored metadata
    and the id "<document_id>_chunk_<i>".
   */
  lemma {:induction false} RecordsShape(documentId: string, chunks: seq<string>, embeddings: seq<Embedding>, metadata: Value, start: nat)
    ensures var rs := Records(documentId, chunks, embeddings, metadata, start);
            && |rs| == (if |chunks| <= |embeddings| then |chunks| else |embeddings|)
            && forall i :: 0 <= i < |rs| ==>
                 rs[i] == Record(ChunkId(documentId, start + i), chunks[i], StoredMetadata(metadata), embeddings[i])
    decreases |chunks|
  {
    if chunks != [] && embeddings != [] {
      RecordsShape(documentId, chunks[1..], embeddings[1..], metadata, start + 1);
      var rs := Records(documentId, chunks, embeddings, metadata, start);
      var tl := Records(documentId, chunks[1..], embeddings[1..], metadata, start + 1);
      assert rs == [rs[0]] + tl;
      forall i | 1 <= i < |rs|
        ensures rs[i] == Record(ChunkId(documentId, start + i), chunks[i], StoredMetadata(metadata), embeddings[i])
      {
        assert rs[i] == tl[i - 1];
        assert chunks[1..][i - 1] == chunks[i] && embeddings[1..][i - 1] == embeddings[i];
      }
    }
  }

  /** Different chunk numbers give different record ids. */
  lemma ChunkIdsDistinct(documentId: string, i: nat, j: nat)
    requires i != j
    ensures ChunkId(documentId, i) != ChunkId(documentId, j)
  {
    var p := documentId + "_chunk_";
    if ChunkId(documentId, i) == ChunkId(documentId, j) {
      assert (p + Decimal(i))[|p|..] == Decimal(i);
      assert (p + Decimal(j))[|p|..] == Decimal(j);
      DecimalInjective(i, j);
    }
  }

  /** No two records of one document share an id. */
  lemma RecordIdsUnique(documentId: string, chunks: seq<string>, embeddings: seq<Embedding>, metadata: Value)
    ensures var rs := Records(documentId, chunks, embeddings, metadata, 0);
            forall i, j :: 0 <= i < j < |rs| ==> rs[i].documentId != rs[j].documentId
  {
    RecordsShape(documentId, chunks, embeddings, metadata, 0);
    var rs := Records(documentId, chunks, embeddings, metadata, 0);
    forall i, j | 0 <= i < j < |rs|
      ensures rs[i].documentId != rs[j].documentId
    {
      ChunkIdsDistinct(documentId, i, j);
    }
  }

  lemma RecordsFrom(documentId: string, chunks: seq<string>, embeddings: seq<Embedding>, metadata: Value, i: nat)
    requires i < |chunks| && i < |embeddings|
    ensures Records(documentId, chunks[i..], embeddings[i..], metadata, i)
            == [Record(ChunkId(documentId, i), chunks[i], StoredMetadata(metadata), embeddings[i])]
               + Records(documentId, chunks[i + 1..], embeddings[i + 1..], metadata, i + 1)
  {
    assert chunks[i..][1..] == chunks[i + 1..] && embeddings[i..][1..] == embeddings[i + 1..];
  }

  /** The loop over `enumerate(zip(chunks, embeddings))` that builds the records. */
  method BuildRecords(documentId: string, chunks: seq<string>, embeddings: seq<Embedding>, metadata: Value)
    returns (data: seq<Record>)
    ensures data == Records(documentId, chunks, embeddings, metadata, 0)
  {
    data := [];
    var i := 0;
    while i < |chunks| && i < |embeddings|
      invariant 0 <= i <= |chunks| && i <= |embeddings|
      invariant data + Records(documentId, chunks[i..], embeddings[i..], metadata, i)
                == Records(documentId, chunks, embeddings, metadata, 0)
    {
      var record := Record(ChunkId(documentId, i), chunks[i], StoredMetadata(metadata), embeddings[i]);
      RecordsFrom(documentId, chunks, embeddings, metadata, i);
      AppendAssoc(data, [record], Records(documentId, chunks[i + 1..], embeddings[i + 1..], metadata, i + 1));
      data := data + [record];
      i := i + 1;
    }
    assert chunks[i..] == [] || embeddings[i..] == [];
    assert Records(documentId, chunks[i..], embeddings[i..], metadata, i) == [];
    assert data + [] == data;
  }

  lemma AppendAssoc<T>(a: seq<T>, b: seq<T>, c: seq<T>)
    ensures a + (b + c) == (a + b) + c
  {
  }

  /**
    `index_document`: chunk the text with the default sizes, embed the
    chunks, insert one record per chunk and embedding pair, and report the
    number of chunks (not of records). An exception from the embedding
    service propagates before the insert, so the collection is then left
    as it was.
   */
  method IndexDocument(collection: Collection, documentId: string, text: string, metadata: Value, embed: Embedder)
    returns (r: Result<Indexed, string>)
    modifies collection
    ensures var chunks := Chunked(text, DefaultChunkSize, DefaultOverlap).value;
            && (embed(chunks).Err? ==> r == Err(embed(chunks).error) && collection.records == old(collection.records))
            && (embed(chunks).Ok? ==>
                  && r == Ok(Indexed(documentId, |chunks|, true))
                  && collection.records == old(collection.records) + Records(documentId, chunks, embed(chunks).value, metadata, 0))
  {
    DefaultsNeverFail(text);
    var split := SplitText(text, DefaultChunkSize, DefaultOverlap);
    var chunks := split.value;
    var embeddings := embed(chunks);
    if embeddings.Err? {
      return Err(embeddings.error);
    }
    var data := BuildRecords(documentId, chunks, embeddings.value, metadata);
    collection.Insert(data);
    return Ok(Indexed(documentId, |chunks|, true));
  }

}
