/** The retrieval store of vectorStore.js: a flat vector index, the document
    contents by id (`metadata`) and the owning document of every index
    position (`docIdByVectorIdx`), kept aligned by `upsert` and
    `removeDocument`. Embedding and the nearest-neighbour search itself are
    outside the model: embeddings are supplied by a function parameter and a
    search receives the index positions (labels) the index returned. */
module Retrieval {
  import opened JsLib

  /** An embedding vector; its coordinates are never inspected. */
  type Vector = seq<real>

  /** One search result: a document id and the document's full content. */
  datatype Hit = Hit(docId: string, content: string)

  /** The defaults of `chunkText`. */
  const MaxTokens: nat := 500
  const Overlap: int := 100

  function Min(a: int, b: int): int {
    if a <= b then a else b
  }

  // ---------------------------------------------------------------------------
  // Chunking

  /** The chunks `chunkText` emits from word `start` on: the words
      [start, min(start + maxTokens, |words|)) joined by single spaces, then
      the chunks from `start + step`, until `start` passes the last word. */
  function ChunksFrom(words: seq<string>, start: nat, maxTokens: nat, step: nat): seq<string>
    requires step > 0
    decreases |words| - start
  {
    if start >= |words| then []
    else [Join(WindowWords(words, start, maxTokens), " ")]
         + ChunksFrom(words, start + step, maxTokens, step)
  }

  /** The words [start, min(start + maxTokens, |words|)). */
  function WindowWords(words: seq<string>, start: nat, maxTokens: nat): seq<string>
    requires start <= |words|
  {
    words[start..Min(start + maxTokens, |words|)]
  }

  /** The chunks of `text`: windows of `maxTokens` words advancing by
      `maxTokens - overlap` words. */
  function Chunks(text: string, maxTokens: nat, overlap: int): seq<string>
    requires overlap < maxTokens
  {
    ChunksFrom(Words(text), 0, maxTokens, (maxTokens - overlap) as nat)
  }

  /** The first word of window `i` when windows advance by `step` words:
      `i * step`, written as repeated addition as the loop computes it. */
  function WindowStart(i: int, step: nat): nat
    decreases i
  {
    if i <= 0 then 0 else WindowStart(i - 1, step) + step
  }

  lemma {:induction false} WindowStartIsProduct(i: nat, step: nat)
    ensures WindowStart(i, step) == i * step
  {
    if i > 0 {
      WindowStartIsProduct(i - 1, step);
    }
  }

  /** One past the last word of window `i` over `n` words. */
  function WindowEnd(i: int, step: nat, maxTokens: int, n: int): int {
    Min(WindowStart(i, step) + maxTokens, n)
  }

  /** Word `j` lies in window `i`. */
  predicate InWindow(j: int, i: int, step: nat, maxTokens: int, n: int) {
    WindowStart(i, step) <= j < WindowEnd(i, step, maxTokens, n)
  }

  /** Word `j` lies in one of the first `c` windows. */
  predicate Covered(j: int, c: int, step: nat, maxTokens: int, n: int) {
    exists i :: 0 <= i < c && InWindow(j, i, step, maxTokens, n)
  }

  lemma {:induction false} WindowStartMono(a: int, b: int, step: nat)
    requires a <= b
    ensures WindowStart(a, step) <= WindowStart(b, step)
    decreases b - a
  {
    if a < b {
      WindowStartMono(a, b - 1, step);
    }
  }

  /** The window whose step-sized stride holds word `j`. */
  lemma {:induction false} StrideOf(j: nat, step: nat) returns (i: nat)
    requires step > 0
    ensures WindowStart(i, step) <= j < WindowStart(i, step) + step
    decreases j
  {
    if j < step {
      i := 0;
    } else {
      i := StrideOf(j - step, step);
      i := i + 1;
    }
  }

  lemma MulMono(i: int, j: int, s: int)
    requires s > 0 && i <= j
    ensures i * s <= j * s
  {
  }

  lemma DivideExact(q: int, s: int, r: int)
    requires s > 0 && 0 <= r < s
    ensures (q * s + r) / s == q
  {
    var x := q * s + r;
    var k := x / s;
    assert k * s <= x < k * s + s;
    if k > q { MulMono(q + 1, k, s); }
    if k < q { MulMono(k + 1, q, s); }
  }

  /** There are just enough chunks for the last one to start before word n. */
  lemma {:induction false} ChunksFromCount(words: seq<string>, start: nat, maxTokens: nat, step: nat)
    requires step > 0
    ensures var c := |ChunksFrom(words, start, maxTokens, step)|;
      && (start >= |words| ==> c == 0)
      && (start < |words| ==> start + WindowStart(c - 1, step) < |words| <= start + WindowStart(c, step))
    decreases |words| - start
  {
    if start < |words| {
      var c := |ChunksFrom(words, start, maxTokens, step)|;
      var r := |ChunksFrom(words, start + step, maxTokens, step)|;
      ChunksFromCount(words, start + step, maxTokens, step);
      assert c == r + 1;
    }
  }

  /** Chunk `i` (counted from `start`) is the words
      [start + i*step, min(start + i*step + maxTokens, n)) joined by spaces. */
  lemma {:induction false} ChunksFromAt(words: seq<string>, start: nat, maxTokens: nat, step: nat, i: nat)
    requires step > 0 && i < |ChunksFrom(words, start, maxTokens, step)|
    ensures var lo := start + WindowStart(i, step);
      lo < |words|
      && ChunksFrom(words, start, maxTokens, step)[i] == Join(WindowWords(words, lo, maxTokens), " ")
    decreases i
  {
    if i > 0 {
      ChunksFromAt(words, start + step, maxTokens, step, i - 1);
    }
  }

  /** For n words and step s = maxTokens - overlap there are ceil(n / s) chunks. */
  lemma ChunkCount(words: seq<string>, maxTokens: nat, step: nat)
    requires 0 < step
    ensures var n := |words|;
      |ChunksFrom(words, 0, maxTokens, step)| == (n + step - 1) / step
  {
    var n := |words|;
    var q := |ChunksFrom(words, 0, maxTokens, step)|;
    ChunksFromCount(words, 0, maxTokens, step);
    if n > 0 {
      WindowStartIsProduct(q, step);
      WindowStartIsProduct(q - 1, step);
      DivideExact(q, step, n + step - 1 - q * step);
    } else {
      DivideExact(0, step, step - 1);
    }
  }

  /** Chunk i is the words of window i joined by spaces; no chunk holds more
      than maxTokens words. */
  lemma ChunkWindow(words: seq<string>, maxTokens: nat, step: nat, i: nat)
    requires 0 < step && i < |ChunksFrom(words, 0, maxTokens, step)|
    ensures var lo, hi := WindowStart(i, step), WindowEnd(i, step, maxTokens, |words|);
      0 <= lo <= hi <= |words| && hi - lo <= maxTokens
      && ChunksFrom(words, 0, maxTokens, step)[i] == Join(words[lo..hi], " ")
  {
    ChunksFromAt(words, 0, maxTokens, step, i);
    var lo := WindowStart(i, step);
    assert 0 + lo == lo;
    assert WindowWords(words, lo, maxTokens) == words[lo..WindowEnd(i, step, maxTokens, |words|)];
  }

  /** With a step no larger than maxTokens (overlap >= 0) the windows leave no
      word out, and the last window ends at the last word. */
  lemma ChunksCoverAllWords(words: seq<string>, maxTokens: nat, step: nat)
    requires 0 < step <= maxTokens && |words| > 0
    ensures var n, c := |words|, |ChunksFrom(words, 0, maxTokens, step)|;
      c >= 1
      && WindowEnd(c - 1, step, maxTokens, n) == n
      && forall j :: 0 <= j < n ==> Covered(j, c, step, maxTokens, n)
  {
    var n, c := |words|, |ChunksFrom(words, 0, maxTokens, step)|;
    ChunksFromCount(words, 0, maxTokens, step);
    forall j | 0 <= j < n
      ensures Covered(j, c, step, maxTokens, n)
    {
      var i := StrideOf(j, step);
      if i >= c {
        WindowStartMono(c, i, step);
      }
      assert InWindow(j, i, step, maxTokens, n);
    }
  }

  /** Consecutive chunks overlap: chunk i is the words [lo, hi) and chunk
      i+1 the words [mid, hi2) with mid = lo + step, so the words [mid, hi)
      end the one and begin the other; there are `overlap` = maxTokens - step
      of them, fewer only when the text ends first. */
  lemma ConsecutiveChunksOverlap(words: seq<string>, maxTokens: nat, step: nat, i: nat)
    requires 0 < step <= maxTokens && i + 1 < |ChunksFrom(words, 0, maxTokens, step)|
    ensures var c := ChunksFrom(words, 0, maxTokens, step);
      var lo, mid := WindowStart(i, step), WindowStart(i + 1, step);
      var hi, hi2 := WindowEnd(i, step, maxTokens, |words|), WindowEnd(i + 1, step, maxTokens, |words|);
      && lo <= mid <= hi <= hi2 <= |words| && mid == lo + step
      && c[i] == Join(words[lo..hi], " ") && c[i + 1] == Join(words[mid..hi2], " ")
      && hi - mid == Min(maxTokens - step, |words| - mid)
  {
    ChunkWindow(words, maxTokens, step, i);
    ChunkWindow(words, maxTokens, step, i + 1);
  }

  /** 1200 words with the defaults give the windows [0,500), [400,900), [800,1200). */
  lemma TwelveHundredWords(words: seq<string>)
    requires |words| == 1200
    ensures ChunksFrom(words, 0, MaxTokens, (MaxTokens - Overlap) as nat)
      == [Join(words[0..500], " "), Join(words[400..900], " "), Join(words[800..1200], " ")]
  {
    var c := ChunksFrom(words, 0, 500, 400);
    ChunksFromCount(words, 0, 500, 400);
    WindowStartIsProduct(|c|, 400);
    WindowStartIsProduct(|c| - 1, 400);
    assert |c| == 3;
    ChunksFromAt(words, 0, 500, 400, 0);
    ChunksFromAt(words, 0, 500, 400, 1);
    ChunksFromAt(words, 0, 500, 400, 2);
  }

  /** The empty text is one empty word, so it yields one empty chunk. */
  lemma EmptyTextOneChunk()
    ensures Chunks("", MaxTokens, Overlap) == [""]
  {
    assert Words("") == [""];
    assert [""][0..1] == [""];
  }

  // ---------------------------------------------------------------------------
  // Search

  /** The hit that index position `pos` resolves to: none when it is
      not a position of the map (FAISS pads with -1), when its document id is
      the empty string (falsy in JavaScript) or has no metadata entry. */
  function ResolveLabel(pos: int, docIdByVectorIdx: seq<string>, metadata: map<string, string>): Option<Hit> {
    if 0 <= pos < |docIdByVectorIdx| && docIdByVectorIdx[pos] != ""
       && docIdByVectorIdx[pos] in metadata
    then Some(Hit(docIdByVectorIdx[pos], metadata[docIdByVectorIdx[pos]]))
    else None
  }

  /** The hits of a label list, in label order, skipping unresolved labels. */
  function Hits(labels: seq<int>, docIdByVectorIdx: seq<string>, metadata: map<string, string>): seq<Hit> {
    if labels == [] then []
    else
      var last := labels[|labels| - 1];
      Hits(labels[..|labels| - 1], docIdByVectorIdx, metadata)
      + (match ResolveLabel(last, docIdByVectorIdx, metadata)
         case Some(h) => [h]
         case None => [])
  }

  /** Hits are taken label by label: the hits of a concatenation are the
      concatenation of the hits. */
  lemma {:induction false} HitsConcat(a: seq<int>, b: seq<int>, docIdByVectorIdx: seq<string>, metadata: map<string, string>)
    ensures Hits(a + b, docIdByVectorIdx, metadata)
         == Hits(a, docIdByVectorIdx, metadata) + Hits(b, docIdByVectorIdx, metadata)
    decreases |b|
  {
    if b == [] {
      assert a + b == a;
    } else {
      var b' := b[..|b| - 1];
      assert (a + b)[..|a + b| - 1] == a + b';
      HitsConcat(a, b', docIdByVectorIdx, metadata);
    }
  }

  /** At most one hit per label; exactly one per label when every label resolves. */
  lemma {:induction false} HitsBound(labels: seq<int>, docIdByVectorIdx: seq<string>, metadata: map<string, string>)
    ensures |Hits(labels, docIdByVectorIdx, metadata)| <= |labels|
    ensures (forall i :: 0 <= i < |labels| ==> ResolveLabel(labels[i], docIdByVectorIdx, metadata).Some?)
            ==> |Hits(labels, docIdByVectorIdx, metadata)| == |labels|
  {
    if labels != [] {
      HitsBound(labels[..|labels| - 1], docIdByVectorIdx, metadata);
    }
  }

  /** Every hit resolves through the position map and the metadata: its id
      is a non-empty id that owns a position, and its content is that
      document's stored content. A document absent from the metadata is never
      returned. */
  lemma {:induction false} HitsSound(labels: seq<int>, docIdByVectorIdx: seq<string>, metadata: map<string, string>)
    ensures forall h :: h in Hits(labels, docIdByVectorIdx, metadata) ==>
      h.docId != "" && h.docId in docIdByVectorIdx
      && h.docId in metadata && h.content == metadata[h.docId]
  {
    if labels != [] {
      HitsSound(labels[..|labels| - 1], docIdByVectorIdx, metadata);
    }
  }

  // ---------------------------------------------------------------------------
  // Removal by positions

  /** The elements of `s` whose positions are not in `drop`, in order: FAISS
      `removeIds` on a flat index, and the `filter` on the position map. */
  function Keep<T>(s: seq<T>, drop: set<nat>): seq<T> {
    if s == [] then []
    else Keep(s[..|s| - 1], drop) + (if |s| - 1 in drop then [] else [s[|s| - 1]])
  }

  /** The positions of `s` that hold `d`. */
  function Positions(s: seq<string>, d: string): set<nat> {
    set i: nat | i < |s| && s[i] == d
  }

  /** `s.filter(x => x !== d)`. */
  function FilterOut(s: seq<string>, d: string): seq<string> {
    if s == [] then []
    else FilterOut(s[..|s| - 1], d) + (if s[|s| - 1] == d then [] else [s[|s| - 1]])
  }

  /** Removing the same positions from two aligned sequences leaves them aligned. */
  lemma {:induction false} KeepAligned<A, B>(a: seq<A>, b: seq<B>, drop: set<nat>)
    requires |a| == |b|
    ensures |Keep(a, drop)| == |Keep(b, drop)|
    decreases |a|
  {
    if a != [] {
      KeepAligned(a[..|a| - 1], b[..|b| - 1], drop);
    }
  }

  /** Removing no position changes nothing. */
  lemma {:induction false} KeepNothing<T>(s: seq<T>)
    ensures Keep(s, {}) == s
    decreases |s|
  {
    if s != [] {
      KeepNothing(s[..|s| - 1]);
    }
  }

  /** Keep only looks at the positions of `s`. */
  lemma {:induction false} KeepWithin<T>(s: seq<T>, p: set<nat>, q: set<nat>)
    requires forall i: nat :: i < |s| ==> (i in p <==> i in q)
    ensures Keep(s, p) == Keep(s, q)
    decreases |s|
  {
    if s != [] {
      KeepWithin(s[..|s| - 1], p, q);
    }
  }

  /** Dropping the positions that hold `d` is filtering `d` out. */
  lemma {:induction false} KeepPositionsIsFilter(s: seq<string>, d: string)
    ensures Keep(s, Positions(s, d)) == FilterOut(s, d)
    decreases |s|
  {
    if s != [] {
      var s' := s[..|s| - 1];
      KeepWithin(s', Positions(s, d), Positions(s', d));
      KeepPositionsIsFilter(s', d);
    }
  }

  /** Filtering `d` out removes every `d`, keeps every other entry as many
      times as before, and keeps the others in their relative order. */
  lemma {:induction false} FilterOutSpec(s: seq<string>, d: string)
    ensures d !in FilterOut(s, d)
    ensures forall x :: x != d ==> multiset(FilterOut(s, d))[x] == multiset(s)[x]
    ensures |s| - |FilterOut(s, d)| == |Positions(s, d)|
    decreases |s|
  {
    if s != [] {
      var s' := s[..|s| - 1];
      FilterOutSpec(s', d);
      assert s == s' + [s[|s| - 1]];
      if s[|s| - 1] == d {
        assert Positions(s, d) == Positions(s', d) + {|s| - 1};
      } else {
        assert Positions(s, d) == Positions(s', d);
      }
    }
  }

  /** Filtering keeps a subsequence: every remaining entry was an entry before. */
  lemma {:induction false} FilterOutSubset(s: seq<string>, d: string)
    ensures forall x :: x in FilterOut(s, d) ==> x in s && x != d
    decreases |s|
  {
    if s != [] {
      FilterOutSubset(s[..|s| - 1], d);
    }
  }

  /** What removing the positions of `d` does to a store's three structures:
      the map loses exactly `d`, index and map stay aligned, the remaining
      entries still have metadata once `d` is deleted, and when `d` owns no
      position nothing but the metadata changes. */
  lemma RemovalKeepsStore(index: seq<Vector>, ids: seq<string>, metadata: map<string, string>, d: string)
    ensures Keep(ids, Positions(ids, d)) == FilterOut(ids, d)
    ensures d !in Keep(ids, Positions(ids, d))
    ensures |index| == |ids| ==> |Keep(index, Positions(ids, d))| == |Keep(ids, Positions(ids, d))|
    ensures (forall i :: 0 <= i < |ids| ==> ids[i] in metadata) ==>
      forall i :: 0 <= i < |Keep(ids, Positions(ids, d))| ==> Keep(ids, Positions(ids, d))[i] in metadata - {d}
    ensures Positions(ids, d) == {} ==> Keep(index, Positions(ids, d)) == index && FilterOut(ids, d) == ids
  {
    var p := Positions(ids, d);
    var kept := Keep(ids, p);
    FilterOutSpec(ids, d);
    FilterOutSubset(ids, d);
    KeepPositionsIsFilter(ids, d);
    if |index| == |ids| {
      KeepAligned(index, ids, p);
    }
    if forall i :: 0 <= i < |ids| ==> ids[i] in metadata {
      forall i | 0 <= i < |kept|
        ensures kept[i] in metadata - {d}
      {
        assert kept[i] in FilterOut(ids, d);
        var k :| 0 <= k < |ids| && ids[k] == kept[i];
      }
    }
    if p == {} {
      KeepNothing(index);
      KeepNothing(ids);
    }
  }

  /** The indices the removal loop collects are the positions of `d`. */
  lemma CollectedPositions(ids: seq<string>, d: string, found: seq<nat>)
    requires forall k :: k in found <==> 0 <= k < |ids| && ids[k] == d
    ensures (set k | k in found) == Positions(ids, d)
    ensures |found| == 0 <==> Positions(ids, d) == {}
  {
    if |found| > 0 {
      assert found[0] in found;
      assert found[0] in Positions(ids, d);
    }
  }

  // ---------------------------------------------------------------------------
  // The store

  /** The store's three structures as a value: the index, the metadata and
      the position map. */
  datatype Store = Store(index: seq<Vector>, metadata: map<string, string>, ids: seq<string>)

  /** What `removeDocument(docId)` leaves: an unknown id changes nothing; a
      known id loses its metadata entry and its positions leave the index and
      the position map alike (none when it owns no position). */
  function Removed(s: Store, docId: string): Store {
    if docId !in s.metadata then s
    else Store(Keep(s.index, Positions(s.ids, docId)), s.metadata - {docId}, FilterOut(s.ids, docId))
  }

  /** Removing a document twice is removing it once: the second call finds
      no metadata entry and changes nothing. */
  lemma RemoveTwice(s: Store, docId: string)
    ensures Removed(Removed(s, docId), docId) == Removed(s, docId)
    ensures docId !in Removed(s, docId).metadata
  {
  }

  /** What `upsert(docId, content)` leaves: when the chunks' embedding fails
      nothing; otherwise the vectors are appended, one position owned by
      `docId` per vector, and the metadata maps `docId` to `content`. */
  function Upserted(s: Store, docId: string, content: string, embed: seq<string> -> Option<seq<Vector>>): Store {
    match embed(Chunks(content, MaxTokens, Overlap))
    case None => s
    case Some(vectors) =>
      Store(s.index + vectors, s.metadata[docId := content], s.ids + seq(|vectors|, _ => docId))
  }

  class VectorStore {
    /** The FAISS flat index: one vector per position. */
    var index: seq<Vector>
    /** Document id to full content (`metadata[docId] = {content}`). */
    var metadata: map<string, string>
    /** The owning document of every index position. */
    var docIdByVectorIdx: seq<string>

    /** The store's invariant: index and position map are aligned, and every
        position belongs to a document that has an entry in the metadata. */
    predicate Valid()
      reads this
    {
      && |index| == |docIdByVectorIdx|
      && forall i :: 0 <= i < |docIdByVectorIdx| ==> docIdByVectorIdx[i] in metadata
    }

    /** The three structures as a value. */
    function State(): Store
      reads this
    {
      Store(index, metadata, docIdByVectorIdx)
    }

    /** Loads each of the three persisted structures if its file exists
        (None: no file), and starts empty otherwise. */
    constructor (savedIndex: Option<seq<Vector>>, savedMetadata: Option<map<string, string>>,
                 savedDocIds: Option<seq<string>>)
      ensures index == (if savedIndex.Some? then savedIndex.value else [])
      ensures metadata == (if savedMetadata.Some? then savedMetadata.value else map[])
      ensures docIdByVectorIdx == (if savedDocIds.Some? then savedDocIds.value else [])
      ensures savedIndex.None? && savedMetadata.None? && savedDocIds.None? ==> Valid()
    {
      index := if savedIndex.Some? then savedIndex.value else [];
      metadata := if savedMetadata.Some? then savedMetadata.value else map[];
      docIdByVectorIdx := if savedDocIds.Some? then savedDocIds.value else [];
    }

    /** `chunkText`: a sliding window of `maxTokens` words that advances by
        `maxTokens - overlap` words while it starts inside the text. */
    static method ChunkText(text: string, maxTokens: nat, overlap: int) returns (chunks: seq<string>)
      requires overlap < maxTokens
      ensures chunks == Chunks(text, maxTokens, overlap)
    {
      var words := Words(text);
      var step: nat := (maxTokens - overlap) as nat;
      chunks := [];
      var start: nat := 0;
      while start < |words|
        invariant chunks + ChunksFrom(words, start, maxTokens, step) == ChunksFrom(words, 0, maxTokens, step)
        decreases |words| - start
      {
        var end := Min(start + maxTokens, |words|);
        var chunk := Join(words[start..end], " ");
        var rest := ChunksFrom(words, start + step, maxTokens, step);
        assert WindowWords(words, start, maxTokens) == words[start..end];
        assert ChunksFrom(words, start, maxTokens, step) == [chunk] + rest;
        assert chunks + [chunk] + rest == chunks + ([chunk] + rest);
        chunks := chunks + [chunk];
        start := start + step;
      }
    }

    /** `upsert`: chunk the content with the defaults, embed the chunks in one
        call, append the vectors to the index and one position entry per
        vector, all owned by `docId`, then record the content. Earlier
        positions, including earlier vectors of the same document, stay. If
        the embedding call fails (None) nothing changes. */
    method Upsert(docId: string, content: string, embed: seq<string> -> Option<seq<Vector>>) returns (ok: bool)
      modifies this
      ensures ok == embed(Chunks(content, MaxTokens, Overlap)).Some?
      ensures State() == Upserted(old(State()), docId, content, embed)
      ensures old(Valid()) ==> Valid()
    {
      var chunks := ChunkText(content, MaxTokens, Overlap);
      var embeddings := embed(chunks);
      if embeddings.None? {
        return false;
      }
      var vectors := embeddings.value;
      index := index + vectors;
      var i := 0;
      while i < |vectors|
        invariant 0 <= i <= |vectors|
        invariant index == old(index) + vectors && metadata == old(metadata)
        invariant docIdByVectorIdx == old(docIdByVectorIdx) + seq(i, _ => docId)
      {
        docIdByVectorIdx := docIdByVectorIdx + [docId];
        i := i + 1;
      }
      metadata := metadata[docId := content];
      ok := true;
    }

    /** `search` on the labels the index returned for the embedded query. */
    method Search(labels: seq<int>) returns (hits: seq<Hit>)
      ensures hits == Hits(labels, docIdByVectorIdx, metadata)
    {
      hits := [];
      var i := 0;
      while i < |labels|
        invariant 0 <= i <= |labels|
        invariant hits == Hits(labels[..i], docIdByVectorIdx, metadata)
      {
        var idx := labels[i];
        assert labels[..i + 1][..i] == labels[..i];
        if 0 <= idx < |docIdByVectorIdx| {
          var docId := docIdByVectorIdx[idx];
          if docId != "" && docId in metadata {
            hits := hits + [Hit(docId, metadata[docId])];
          }
        }
        i := i + 1;
      }
      assert labels[..|labels|] == labels;
    }

    /** `removeDocument`: an unknown id changes nothing. A known id loses its
        metadata entry; if it owns positions they are removed from the index
        and the position map alike, the other entries keeping their order. */
    method RemoveDocument(docId: string)
      modifies this
      ensures State() == Removed(old(State()), docId)
      ensures docId !in metadata
      ensures docId in old(metadata) ==> docId !in docIdByVectorIdx
      ensures old(Valid()) ==> Valid()
    {
      if docId !in metadata {
        return;
      }
      var indicesToRemove: seq<nat> := [];
      var i := 0;
      while i < |docIdByVectorIdx|
        invariant 0 <= i <= |docIdByVectorIdx|
        invariant forall k :: k in indicesToRemove <==> 0 <= k < i && docIdByVectorIdx[k] == docId
        invariant index == old(index) && metadata == old(metadata) && docIdByVectorIdx == old(docIdByVectorIdx)
      {
        if docIdByVectorIdx[i] == docId {
          indicesToRemove := indicesToRemove + [i];
        }
        i := i + 1;
      }
      RemovalKeepsStore(index, docIdByVectorIdx, metadata, docId);
      CollectedPositions(docIdByVectorIdx, docId, indicesToRemove);
      if |indicesToRemove| == 0 {
        metadata := metadata - {docId};
        return;
      }
      var removalSet := set k | k in indicesToRemove;
      assert removalSet == Positions(docIdByVectorIdx, docId);
      index := Keep(index, removalSet);
      metadata := metadata - {docId};
      docIdByVectorIdx := Keep(docIdByVectorIdx, removalSet);
    }
  }
}
