/**
 * The retrieval half of question answering: turning the nearest-neighbour
 * ids of a vector search into chunk metadata, rendering de-duplicated
 * citations, and the offline answer that pastes the retrieved snippets.
 */
module Rag {
  import opened Strings
  import opened Seqs
  import opened Indexer

  /** The id a vector search reports for an empty result slot. */
  const Sentinel: int := -1

  /** How many characters of each chunk the offline answer shows. */
  const SnippetChars: nat := 1200

  const SnippetSeparator: string := "\n\n---\n\n"

  /** Every id the search reports is the sentinel or a position in `metas`. */
  predicate IdsInRange(ids: seq<int>, metas: seq<ChunkMeta>)
  {
    forall i :: 0 <= i < |ids| ==> ids[i] == Sentinel || 0 <= ids[i] < |metas|
  }

  /** The ids of the search result that are not the sentinel, in search order. */
  function LiveIds(ids: seq<int>): (r: seq<int>)
    ensures |r| <= |ids|
    ensures forall x :: x in r <==> x in ids && x != Sentinel
  {
    if ids == [] then []
    else
      var init := ids[..|ids| - 1];
      var last := ids[|ids| - 1];
      assert ids == init + [last];
      if last == Sentinel then LiveIds(init) else LiveIds(init) + [last]
  }

  /** Filtering the sentinel keeps search order and repeats: it distributes over concatenation. */
  lemma {:induction false} LiveIdsAppend(a: seq<int>, b: seq<int>)
    ensures LiveIds(a + b) == LiveIds(a) + LiveIds(b)
    decreases |b|
  {
    if b == [] {
      assert a + b == a;
    } else {
      var init := b[..|b| - 1];
      assert (a + b)[..|a + b| - 1] == a + init;
      assert (a + b)[|a + b| - 1] == b[|b| - 1];
      LiveIdsAppend(a, init);
    }
  }

  /** A live id is kept in place, a sentinel is dropped. */
  lemma LiveIdsSingle(x: int)
    ensures LiveIds([x]) == if x == Sentinel then [] else [x]
  {
    assert [x][..0] == [];
  }

  /** What `retrieve` returns for the search ids `ids`: `metas[id]` for each live id. */
  function Retrieved(ids: seq<int>, metas: seq<ChunkMeta>): (r: seq<ChunkMeta>)
    requires IdsInRange(ids, metas)
    ensures |r| == |LiveIds(ids)|
    ensures forall k :: 0 <= k < |r| ==> 0 <= LiveIds(ids)[k] < |metas| && r[k] == metas[LiveIds(ids)[k]]
  {
    if ids == [] then []
    else
      var init := ids[..|ids| - 1];
      var last := ids[|ids| - 1];
      var r := Retrieved(init, metas);
      if last == Sentinel then r else r + [metas[last]]
  }

  /** `retrieve` after the search: skip the sentinel, look every other id up by position. */
  method Retrieve(ids: seq<int>, metas: seq<ChunkMeta>) returns (results: seq<ChunkMeta>)
    requires IdsInRange(ids, metas)
    ensures results == Retrieved(ids, metas)
  {
    results := [];
    for i := 0 to |ids|
      invariant results == Retrieved(ids[..i], metas)
    {
      assert ids[..i + 1][..i] == ids[..i];
      var idx := ids[i];
      if idx == Sentinel {
        continue;
      }
      results := results + [metas[idx]];
    }
    assert ids[..|ids|] == ids;
  }

  /**
   * At most one result per id, so at most `top_k` when the search returns
   * `top_k` ids; and every result is the chunk some live id names.
   */
  lemma RetrievedBounds(ids: seq<int>, metas: seq<ChunkMeta>, topK: nat)
    requires IdsInRange(ids, metas) && |ids| == topK
    ensures |Retrieved(ids, metas)| <= topK
    ensures forall m :: m in Retrieved(ids, metas) ==> exists i :: 0 <= i < |ids| && ids[i] != Sentinel && ids[i] < |metas| && m == metas[ids[i]]
  {
    var r := Retrieved(ids, metas);
    forall m | m in r
      ensures exists i :: 0 <= i < |ids| && ids[i] != Sentinel && ids[i] < |metas| && m == metas[ids[i]]
    {
      var k :| 0 <= k < |r| && r[k] == m;
      var live := LiveIds(ids);
      assert live[k] in live;
      var i :| 0 <= i < |ids| && ids[i] == live[k];
    }
  }

  /** A search that found nothing (every slot the sentinel) retrieves nothing. */
  lemma {:induction false} AllSentinelRetrievesNothing(ids: seq<int>, metas: seq<ChunkMeta>)
    requires forall i :: 0 <= i < |ids| ==> ids[i] == Sentinel
    ensures IdsInRange(ids, metas)
    ensures Retrieved(ids, metas) == []
  {
    if ids != [] {
      AllSentinelRetrievesNothing(ids[..|ids| - 1], metas);
    }
  }

  /** A search without sentinels retrieves exactly `metas[ids[k]]` at position `k`. */
  lemma {:induction false} NoSentinelRetrievesAll(ids: seq<int>, metas: seq<ChunkMeta>)
    requires forall i :: 0 <= i < |ids| ==> 0 <= ids[i] < |metas|
    ensures IdsInRange(ids, metas)
    ensures LiveIds(ids) == ids
  {
    if ids != [] {
      var init := ids[..|ids| - 1];
      NoSentinelRetrievesAll(init, metas);
      assert ids == init + [ids[|ids| - 1]];
    }
  }

  // ---------------------------------------------------------------------------
  // Citations
  // ---------------------------------------------------------------------------

  /** The `-{end_line})` tail of a citation. */
  function EndText(endLine: nat): string
  {
    "-" + NatToString(endLine) + ")"
  }

  /** The `{start_line}-{end_line})` tail of a citation. */
  function RangeText(startLine: nat, endLine: nat): string
  {
    NatToString(startLine) + EndText(endLine)
  }

  /** `f"{rel} (lines {start_line}-{end_line})"`. */
  function CitationText(rel: string, startLine: nat, endLine: nat): string
  {
    rel + " (lines " + RangeText(startLine, endLine)
  }

  /**
   * The citations of `chunks` before de-duplication, one per chunk, with
   * `relOf` standing for `os.path.relpath(_, repo_root)`.
   */
  function Citations(chunks: seq<ChunkMeta>, relOf: string -> string): (r: seq<string>)
    ensures |r| == |chunks|
    ensures forall i :: 0 <= i < |chunks| ==>
              r[i] == CitationText(relOf(chunks[i].filePath), chunks[i].startLine, chunks[i].endLine)
  {
    if chunks == [] then []
    else
      var c := chunks[|chunks| - 1];
      Citations(chunks[..|chunks| - 1], relOf) + [CitationText(relOf(c.filePath), c.startLine, c.endLine)]
  }

  /** `s` is the citation of one of `chunks`. */
  predicate Cites(s: string, chunks: seq<ChunkMeta>, relOf: string -> string)
  {
    exists i :: 0 <= i < |chunks| &&
      s == CitationText(relOf(chunks[i].filePath), chunks[i].startLine, chunks[i].endLine)
  }

  /**
   * `format_citations`: render every chunk, then keep each citation the first
   * time it occurs.
   */
  method FormatCitations(chunks: seq<ChunkMeta>, relOf: string -> string) returns (unique: seq<string>)
    ensures unique == Distinct(Citations(chunks, relOf))
    ensures NoDup(unique) && |unique| <= |chunks|
    ensures forall s :: s in unique <==> Cites(s, chunks, relOf)
  {
    var citations: seq<string> := [];
    for i := 0 to |chunks|
      invariant citations == Citations(chunks[..i], relOf)
    {
      assert chunks[..i + 1][..i] == chunks[..i];
      var c := chunks[i];
      citations := citations + [CitationText(relOf(c.filePath), c.startLine, c.endLine)];
    }
    assert chunks[..|chunks|] == chunks;
    unique := Dedupe(citations);
    forall s | s in citations ensures Cites(s, chunks, relOf) {
      var i :| 0 <= i < |citations| && citations[i] == s;
    }
  }

  /** Decimal digits followed by a non-digit: the digits are fixed by the string. */
  lemma NumberThenMark(a: nat, b: nat, ta: string, tb: string)
    requires ta != [] && tb != [] && !('0' <= ta[0] <= '9') && !('0' <= tb[0] <= '9')
    requires NatToString(a) + ta == NatToString(b) + tb
    ensures a == b && ta == tb
  {
    var na, nb := NatToString(a), NatToString(b);
    var s := na + ta;
    assert !('0' <= s[|na|] <= '9') && !('0' <= s[|nb|] <= '9');
    assert forall m :: 0 <= m < |na| ==> '0' <= s[m] <= '9';
    assert forall m :: 0 <= m < |nb| ==> '0' <= s[m] <= '9';
    assert na == s[..|na|] == nb;
    assert ta == s[|na|..] == tb;
    DecimalRoundTrip(a);
    DecimalRoundTrip(b);
  }

  lemma RangeTextInjective(s1: nat, e1: nat, s2: nat, e2: nat)
    requires RangeText(s1, e1) == RangeText(s2, e2)
    ensures s1 == s2 && e1 == e2
  {
    NumberThenMark(s1, s2, EndText(e1), EndText(e2));
    assert EndText(e1)[1..] == NatToString(e1) + ")";
    assert EndText(e2)[1..] == NatToString(e2) + ")";
    NumberThenMark(e1, e2, ")", ")");
  }

  /**
   * A citation pins down its line range: two chunks of the same file get the
   * same citation exactly when they span the same lines, so de-duplication
   * merges repeated hits on one window and nothing else.
   */
  lemma CitationDeterminesLines(rel: string, s1: nat, e1: nat, s2: nat, e2: nat)
    ensures CitationText(rel, s1, e1) == CitationText(rel, s2, e2) <==> s1 == s2 && e1 == e2
  {
    var head := rel + " (lines ";
    var t1, t2 := RangeText(s1, e1), RangeText(s2, e2);
    if head + t1 == head + t2 {
      assert t1 == (head + t1)[|head|..];
      assert t2 == (head + t2)[|head|..];
      RangeTextInjective(s1, e1, s2, e2);
    }
  }

  // ---------------------------------------------------------------------------
  // The offline answer
  // ---------------------------------------------------------------------------

  /** `[c.text[:1200] for c in chunks]`. */
  function Snippets(chunks: seq<ChunkMeta>): (r: seq<string>)
    ensures |r| == |chunks|
    ensures forall i :: 0 <= i < |chunks| ==>
              |r[i]| <= SnippetChars && |r[i]| <= |chunks[i].text| && r[i] == chunks[i].text[..|r[i]|] &&
              (|chunks[i].text| <= SnippetChars ==> r[i] == chunks[i].text)
  {
    if chunks == [] then []
    else Snippets(chunks[..|chunks| - 1]) + [Take(chunks[|chunks| - 1].text, SnippetChars)]
  }

  function AnswerContext(chunks: seq<ChunkMeta>): string
  {
    Join(SnippetSeparator, Snippets(chunks))
  }

  /** `basic_answer`: a fixed header, the question, then the joined snippets. */
  function BasicAnswer(question: string, chunks: seq<ChunkMeta>): (r: string)
    ensures StartsWith(r, "\nMVP LOCAL ANSWER (no external LLM):\n\nQuestion: " + question)
    ensures EndsWith(r, AnswerContext(chunks) + "\n")
  {
    var head := "\nMVP LOCAL ANSWER (no external LLM):\n\nQuestion: " + question;
    var tail := AnswerContext(chunks) + "\n";
    var r := head + "\n\nRelevant code snippets:\n\n" + tail;
    assert r[..|head|] == head;
    assert r[|r| - |tail|..] == tail;
    r
  }

  /** Snippets come in chunk order: one more chunk adds the separator and its snippet at the end. */
  lemma AnswerContextSnoc(chunks: seq<ChunkMeta>, c: ChunkMeta)
    ensures AnswerContext(chunks + [c]) ==
            if chunks == [] then Take(c.text, SnippetChars)
            else AnswerContext(chunks) + SnippetSeparator + Take(c.text, SnippetChars)
  {
    assert (chunks + [c])[..|chunks|] == chunks;
    JoinSnoc(SnippetSeparator, Snippets(chunks), Take(c.text, SnippetChars));
  }

  lemma {:induction false} SnippetsTotal(chunks: seq<ChunkMeta>)
    ensures TotalLength(Snippets(chunks)) <= SnippetChars * |chunks|
  {
    if chunks != [] {
      SnippetsTotal(chunks[..|chunks| - 1]);
    }
  }

  /**
   * However long the retrieved chunks are, the pasted context holds at most
   * 1200 characters per chunk plus one separator between neighbours.
   */
  lemma AnswerContextLength(chunks: seq<ChunkMeta>)
    requires chunks != []
    ensures |AnswerContext(chunks)| <= SnippetChars * |chunks| + |SnippetSeparator| * (|chunks| - 1)
  {
    JoinLength(SnippetSeparator, Snippets(chunks));
    SnippetsTotal(chunks);
  }
}
