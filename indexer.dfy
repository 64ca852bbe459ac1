/**
 * The build phase of retrieval: select the indexable files of a repository,
 * cut each file into overlapping line windows, and assemble the chunk
 * metadata and texts in lockstep (position is the only link between an
 * embedding and its `ChunkMeta`).
 */
module Indexer {
  import opened Wrappers
  import opened Strings
  import opened FileFilter

  /** Where a chunk comes from and what it says; `startLine`/`endLine` are 1-indexed and inclusive. */
  datatype ChunkMeta = ChunkMeta(filePath: string, startLine: nat, endLine: nat, text: string)

  /** One `(start, end, text)` triple produced by the chunker. */
  datatype Chunk = Chunk(startLine: nat, endLine: nat, text: string)

  const MaxChars: nat := 200000
  const LinesPerChunk: int := 200
  const Overlap: int := 30
  const MaxFileBytes: nat := 2000000
  const EmptyCorpusMessage: string :=
    "No indexable text found in repo (maybe only binaries or ignored files)."

  // ---------------------------------------------------------------------------
  // Reading a file
  // ---------------------------------------------------------------------------

  /**
   * The text `read_text_file` hands on: the file's contents cut to `maxChars`
   * characters, or `""` when the file cannot be opened or decoded (`None`).
   */
  function ReadTextFile(contents: Option<string>, maxChars: nat): (r: string)
    ensures |r| <= maxChars
    ensures contents.None? ==> r == ""
    ensures contents.Some? ==> |r| <= |contents.value| && r == contents.value[..|r|]
    ensures contents.Some? && |contents.value| <= maxChars ==> r == contents.value
    ensures contents.Some? && |contents.value| > maxChars ==> |r| == maxChars
  {
    match contents
    case None => ""
    case Some(data) => Take(data, maxChars)
  }

  // ---------------------------------------------------------------------------
  // Line windows
  // ---------------------------------------------------------------------------

  /**
   * The cursor loop stops: with at least one line per window it either moves
   * forward (the overlap is smaller than the window) or ends after the first
   * window (the text fits in one window).
   */
  predicate CursorAdvances(n: nat, linesPerChunk: int, overlap: int)
  {
    linesPerChunk >= 1 && (overlap < linesPerChunk || n <= linesPerChunk)
  }

  /** `min(i + lines_per_chunk, n)`. */
  function WindowEnd(i: nat, n: nat, linesPerChunk: int): nat
    requires linesPerChunk >= 1
  {
    if i + linesPerChunk < n then i + linesPerChunk else n
  }

  /** `end - overlap`, clamped at 0. */
  function NextCursor(end: nat, overlap: int): nat
  {
    if end - overlap < 0 then 0 else end - overlap
  }

  /**
   * Every window the loop visits from cursor `i` on, as the `(start, end)`
   * slice bounds of `lines[start:end]`.
   */
  function WindowsFrom(n: nat, linesPerChunk: int, overlap: int, i: nat): (ws: seq<(nat, nat)>)
    requires CursorAdvances(n, linesPerChunk, overlap)
    ensures forall k :: 0 <= k < |ws| ==> i <= ws[k].0 < ws[k].1 <= n
    ensures ws != [] <==> i < n
    ensures ws != [] ==> ws[0].0 == i
    ensures ws != [] && 0 <= overlap ==> ws[|ws| - 1].1 == n
    decreases n - i
  {
    if i >= n then []
    else
      var end := WindowEnd(i, n, linesPerChunk);
      if end == n then [(i, end)]
      else
        var next := NextCursor(end, overlap);
        assert i < next;
        var rest := WindowsFrom(n, linesPerChunk, overlap, next);
        assert forall k :: 0 <= k < |rest| ==> ([(i, end)] + rest)[k + 1] == rest[k];
        [(i, end)] + rest
  }

  /** One step of the cursor loop: the window at cursor `i`, then the windows from the next cursor. */
  lemma WindowsFromStep(n: nat, linesPerChunk: int, overlap: int, i: nat)
    requires CursorAdvances(n, linesPerChunk, overlap) && i < n
    ensures WindowsFrom(n, linesPerChunk, overlap, i)[0] == (i, WindowEnd(i, n, linesPerChunk))
    ensures WindowEnd(i, n, linesPerChunk) == n ==> |WindowsFrom(n, linesPerChunk, overlap, i)| == 1
    ensures WindowEnd(i, n, linesPerChunk) < n ==>
              WindowsFrom(n, linesPerChunk, overlap, i)[1..] ==
              WindowsFrom(n, linesPerChunk, overlap, NextCursor(WindowEnd(i, n, linesPerChunk), overlap))
  {
  }

  function Windows(n: nat, linesPerChunk: int, overlap: int): seq<(nat, nat)>
    requires CursorAdvances(n, linesPerChunk, overlap)
  {
    WindowsFrom(n, linesPerChunk, overlap, 0)
  }

  /**
   * Each window ends at `min(start + lines_per_chunk, n)`, and the next one
   * starts at the cursor `end - overlap` (clamped at 0).
   */
  predicate Linked(ws: seq<(nat, nat)>, n: nat, linesPerChunk: int, overlap: int)
    requires linesPerChunk >= 1
  {
    && (forall k :: 0 <= k < |ws| ==> ws[k].1 == WindowEnd(ws[k].0, n, linesPerChunk))
    && (forall k :: 0 <= k < |ws| - 1 ==> ws[k].1 < n && ws[k + 1].0 == NextCursor(ws[k].1, overlap))
  }

  lemma {:induction false} WindowsLinked(n: nat, linesPerChunk: int, overlap: int, i: nat)
    requires CursorAdvances(n, linesPerChunk, overlap)
    ensures Linked(WindowsFrom(n, linesPerChunk, overlap, i), n, linesPerChunk, overlap)
    decreases n - i
  {
    if i < n {
      var end := WindowEnd(i, n, linesPerChunk);
      if end < n {
        var next := NextCursor(end, overlap);
        WindowsLinked(n, linesPerChunk, overlap, next);
        var ws := WindowsFrom(n, linesPerChunk, overlap, i);
        var rest := WindowsFrom(n, linesPerChunk, overlap, next);
        assert ws == [(i, end)] + rest;
        forall k | 0 <= k < |ws| ensures ws[k].1 == WindowEnd(ws[k].0, n, linesPerChunk) {
          if k > 0 {
            assert ws[k] == rest[k - 1];
          }
        }
        forall k | 0 <= k < |ws| - 1 ensures ws[k].1 < n && ws[k + 1].0 == NextCursor(ws[k].1, overlap) {
          assert ws[k + 1] == rest[k];
          if k > 0 {
            assert ws[k] == rest[k - 1];
          }
        }
      }
    }
  }

  /**
   * The shape of the windows over `n` lines: none for an empty text; the
   * first starts at line 0; every window but the last spans exactly
   * `lines_per_chunk` lines and none spans more; starts strictly increase;
   * and, for a non-negative overlap, the last window ends at line `n` and each
   * window starts `overlap` lines before the previous one ends.
   */
  lemma WindowsShape(n: nat, linesPerChunk: int, overlap: int, ws: seq<(nat, nat)>)
    requires CursorAdvances(n, linesPerChunk, overlap) && ws == Windows(n, linesPerChunk, overlap)
    ensures ws == [] <==> n == 0
    ensures ws != [] ==> ws[0].0 == 0
    ensures ws != [] && 0 <= overlap ==> ws[|ws| - 1].1 == n
    ensures forall k :: 0 <= k < |ws| ==> ws[k].0 < ws[k].1 <= n
    ensures forall k :: 0 <= k < |ws| ==> ws[k].1 - ws[k].0 <= linesPerChunk
    ensures forall k :: 0 <= k < |ws| - 1 ==> ws[k].1 - ws[k].0 == linesPerChunk
    ensures forall k :: 0 <= k < |ws| - 1 ==> ws[k].0 < ws[k + 1].0
    ensures 0 <= overlap ==> forall k :: 0 <= k < |ws| - 1 ==> ws[k + 1].0 == ws[k].1 - overlap
  {
    WindowsLinked(n, linesPerChunk, overlap, 0);
    forall k | 0 <= k < |ws| - 1
      ensures ws[k].1 - ws[k].0 == linesPerChunk && ws[k].0 < ws[k + 1].0
      ensures 0 <= overlap ==> ws[k + 1].0 == ws[k].1 - overlap
    {
      assert ws[k].1 < n && ws[k + 1].0 == NextCursor(ws[k].1, overlap);
      assert ws[k].1 == ws[k].0 + linesPerChunk;
      assert overlap < linesPerChunk;
    }
  }

  /** With a non-negative overlap, every line from cursor `i` on lies in some window. */
  lemma {:induction false} WindowsCoverFrom(n: nat, linesPerChunk: int, overlap: int, i: nat, line: nat)
    requires CursorAdvances(n, linesPerChunk, overlap) && 0 <= overlap
    requires i <= line < n
    ensures exists k :: 0 <= k < |WindowsFrom(n, linesPerChunk, overlap, i)| &&
              WindowsFrom(n, linesPerChunk, overlap, i)[k].0 <= line < WindowsFrom(n, linesPerChunk, overlap, i)[k].1
    decreases n - i
  {
    var ws := WindowsFrom(n, linesPerChunk, overlap, i);
    var end := WindowEnd(i, n, linesPerChunk);
    if line >= end {
      var next := NextCursor(end, overlap);
      WindowsCoverFrom(n, linesPerChunk, overlap, next, line);
      var rest := WindowsFrom(n, linesPerChunk, overlap, next);
      assert ws == [(i, end)] + rest;
      var k :| 0 <= k < |rest| && rest[k].0 <= line < rest[k].1;
      assert ws[k + 1] == rest[k];
    } else {
      assert ws[0].0 <= line < ws[0].1;
    }
  }

  lemma WindowsCover(n: nat, linesPerChunk: int, overlap: int, ws: seq<(nat, nat)>, line: nat)
    requires CursorAdvances(n, linesPerChunk, overlap) && 0 <= overlap && ws == Windows(n, linesPerChunk, overlap)
    requires line < n
    ensures exists k :: 0 <= k < |ws| && ws[k].0 <= line < ws[k].1
  {
    WindowsCoverFrom(n, linesPerChunk, overlap, 0, line);
  }

  /**
   * With `lines_per_chunk <= overlap` and more lines than one window, the first
   * window does not reach the last line and the cursor falls back to 0: the
   * loop repeats the same window forever.
   */
  lemma CursorStalls(n: nat, linesPerChunk: int, overlap: int)
    requires 0 <= linesPerChunk <= overlap && linesPerChunk < n
    ensures var end := if linesPerChunk < n then linesPerChunk else n;
            end != n && NextCursor(end, overlap) == 0
  {
  }

  /** 250 lines with windows of 200 and an overlap of 30: `lines[0:200]`, then `lines[170:250]`. */
  lemma TwoHundredFiftyLines()
    ensures Windows(250, 200, 30) == [(0, 200), (170, 250)]
  {
    assert WindowsFrom(250, 200, 30, 170) == [(170, 250)];
  }

  /** A text that fits in one window is one window, whatever the overlap. */
  lemma ShortTextOneWindow(n: nat, linesPerChunk: int, overlap: int)
    requires 1 <= n <= linesPerChunk
    ensures CursorAdvances(n, linesPerChunk, overlap)
    ensures Windows(n, linesPerChunk, overlap) == [(0, n)]
  {
  }

  // ---------------------------------------------------------------------------
  // Chunks
  // ---------------------------------------------------------------------------

  predicate WindowsWithin(n: nat, ws: seq<(nat, nat)>)
  {
    forall k :: 0 <= k < |ws| ==> ws[k].0 < ws[k].1 <= n
  }

  /** `"\n".join(lines[start:end]).strip()`. */
  function WindowText(lines: seq<string>, start: nat, end: nat): string
    requires start <= end <= |lines|
  {
    Strip(Join("\n", lines[start..end]))
  }

  /** A window's text is empty exactly when every one of its lines is blank. */
  lemma WindowTextEmpty(lines: seq<string>, start: nat, end: nat)
    requires start <= end <= |lines|
    ensures WindowText(lines, start, end) == "" <==> forall j :: start <= j < end ==> IsBlank(lines[j])
  {
    var slice := lines[start..end];
    JoinBlank("\n", slice);
    assert forall j :: start <= j < end ==> lines[j] == slice[j - start];
  }

  /** The chunk a window contributes: its 1-indexed line range and stripped text, unless that is empty. */
  function Emit(lines: seq<string>, start: nat, end: nat): seq<Chunk>
    requires start <= end <= |lines|
  {
    var t := WindowText(lines, start, end);
    if t != "" then [Chunk(start + 1, end, t)] else []
  }

  /** The chunks of the windows `ws`, in window order. */
  function KeptChunks(lines: seq<string>, ws: seq<(nat, nat)>): seq<Chunk>
    requires WindowsWithin(|lines|, ws)
  {
    if ws == [] then [] else Emit(lines, ws[0].0, ws[0].1) + KeptChunks(lines, ws[1..])
  }

  /** What `chunk_by_lines` returns, stated over its windows. */
  function ChunksOf(lines: seq<string>, linesPerChunk: int, overlap: int): seq<Chunk>
    requires CursorAdvances(|lines|, linesPerChunk, overlap)
  {
    KeptChunks(lines, Windows(|lines|, linesPerChunk, overlap))
  }

  /** Every kept chunk is one of the windows, with its (non-empty) stripped text. */
  lemma {:induction false} KeptChunksSound(lines: seq<string>, ws: seq<(nat, nat)>)
    requires WindowsWithin(|lines|, ws)
    ensures forall c :: c in KeptChunks(lines, ws) ==>
              && (c.startLine - 1, c.endLine) in ws
              && 1 <= c.startLine <= c.endLine <= |lines|
              && c.text == WindowText(lines, c.startLine - 1, c.endLine)
              && c.text != ""
  {
    if ws != [] {
      KeptChunksSound(lines, ws[1..]);
    }
  }

  /** Every window with some non-blank line is kept. */
  lemma {:induction false} KeptChunksComplete(lines: seq<string>, ws: seq<(nat, nat)>, k: nat)
    requires WindowsWithin(|lines|, ws) && k < |ws|
    requires WindowText(lines, ws[k].0, ws[k].1) != ""
    ensures Chunk(ws[k].0 + 1, ws[k].1, WindowText(lines, ws[k].0, ws[k].1)) in KeptChunks(lines, ws)
  {
    if k > 0 {
      KeptChunksComplete(lines, ws[1..], k - 1);
    }
  }

  predicate Ascending(cs: seq<Chunk>)
  {
    forall k :: 0 <= k < |cs| - 1 ==> cs[k].startLine < cs[k + 1].startLine
  }

  /** Kept chunks come in strictly increasing start order when the windows do. */
  lemma {:induction false} KeptChunksOrdered(lines: seq<string>, ws: seq<(nat, nat)>)
    requires WindowsWithin(|lines|, ws)
    requires forall k :: 0 <= k < |ws| - 1 ==> ws[k].0 < ws[k + 1].0
    ensures Ascending(KeptChunks(lines, ws))
  {
    if ws != [] {
      var rest := ws[1..];
      KeptChunksOrdered(lines, rest);
      var e := Emit(lines, ws[0].0, ws[0].1);
      var tail := KeptChunks(lines, rest);
      assert KeptChunks(lines, ws) == e + tail;
      if e != [] {
        assert e == [e[0]] && e[0].startLine == ws[0].0 + 1;
        KeptChunksSound(lines, rest);
        forall c | c in tail ensures e[0].startLine < c.startLine {
          var m :| 0 <= m < |rest| && rest[m] == (c.startLine - 1, c.endLine);
          StartsIncrease(ws, 0, m + 1);
        }
        AscendingCons(e[0], tail);
      }
    }
  }

  /** A chunk before every chunk of an ascending list keeps it ascending. */
  lemma AscendingCons(c: Chunk, tail: seq<Chunk>)
    requires Ascending(tail)
    requires forall d :: d in tail ==> c.startLine < d.startLine
    ensures Ascending([c] + tail)
  {
    var cs := [c] + tail;
    forall k | 0 <= k < |cs| - 1 ensures cs[k].startLine < cs[k + 1].startLine {
      assert cs[k + 1] == tail[k] && tail[k] in tail;
      if k > 0 {
        assert cs[k] == tail[k - 1];
      }
    }
  }

  lemma {:induction false} StartsIncrease(ws: seq<(nat, nat)>, a: nat, b: nat)
    requires forall k :: 0 <= k < |ws| - 1 ==> ws[k].0 < ws[k + 1].0
    requires a < b < |ws|
    ensures ws[a].0 < ws[b].0
    decreases b - a
  {
    if a + 1 < b {
      StartsIncrease(ws, a + 1, b);
    }
  }

  /**
   * The properties `chunk_by_lines` promises: every chunk lies within the
   * text (1-indexed, inclusive), spans at most `lines_per_chunk` lines,
   * carries the stripped join of its lines and is never empty, and the
   * chunks come in strictly increasing start order.
   */
  lemma ChunksWellFormed(lines: seq<string>, linesPerChunk: int, overlap: int, cs: seq<Chunk>)
    requires CursorAdvances(|lines|, linesPerChunk, overlap) && cs == ChunksOf(lines, linesPerChunk, overlap)
    ensures forall k :: 0 <= k < |cs| ==>
              && 1 <= cs[k].startLine <= cs[k].endLine <= |lines|
              && cs[k].endLine - cs[k].startLine + 1 <= linesPerChunk
              && cs[k].text == WindowText(lines, cs[k].startLine - 1, cs[k].endLine)
              && cs[k].text != ""
    ensures Ascending(cs)
  {
    var ws := Windows(|lines|, linesPerChunk, overlap);
    WindowsShape(|lines|, linesPerChunk, overlap, ws);
    KeptChunksSound(lines, ws);
    KeptChunksOrdered(lines, ws);
    forall k | 0 <= k < |cs| ensures cs[k].endLine - cs[k].startLine + 1 <= linesPerChunk {
      assert cs[k] in cs;
      var m :| 0 <= m < |ws| && ws[m] == (cs[k].startLine - 1, cs[k].endLine);
    }
  }

  /** No chunk is kept exactly when every window's text is empty. */
  lemma {:induction false} KeptChunksEmpty(lines: seq<string>, ws: seq<(nat, nat)>)
    requires WindowsWithin(|lines|, ws)
    ensures KeptChunks(lines, ws) == [] <==> forall k :: 0 <= k < |ws| ==> WindowText(lines, ws[k].0, ws[k].1) == ""
  {
    if ws != [] {
      KeptChunksEmpty(lines, ws[1..]);
      assert forall k :: 1 <= k < |ws| ==> ws[k] == ws[1..][k - 1];
    }
  }

  /**
   * A text yields no chunk at all exactly when every line is blank (for a
   * non-negative overlap, since then the windows cover every line).
   */
  lemma NoChunksIffBlank(lines: seq<string>, linesPerChunk: int, overlap: int)
    requires CursorAdvances(|lines|, linesPerChunk, overlap) && 0 <= overlap
    ensures ChunksOf(lines, linesPerChunk, overlap) == [] <==> forall j :: 0 <= j < |lines| ==> IsBlank(lines[j])
  {
    var ws := Windows(|lines|, linesPerChunk, overlap);
    KeptChunksEmpty(lines, ws);
    if forall j :: 0 <= j < |lines| ==> IsBlank(lines[j]) {
      forall k | 0 <= k < |ws| ensures WindowText(lines, ws[k].0, ws[k].1) == "" {
        WindowTextEmpty(lines, ws[k].0, ws[k].1);
      }
    } else {
      var j :| 0 <= j < |lines| && !IsBlank(lines[j]);
      WindowsCover(|lines|, linesPerChunk, overlap, ws, j);
      var k :| 0 <= k < |ws| && ws[k].0 <= j < ws[k].1;
      WindowTextEmpty(lines, ws[k].0, ws[k].1);
    }
  }

  /** A non-blank text of at most one window's lines is exactly one chunk, lines 1 to n. */
  lemma ShortTextOneChunk(lines: seq<string>, linesPerChunk: int, overlap: int)
    requires 1 <= |lines| <= linesPerChunk
    requires exists j :: 0 <= j < |lines| && !IsBlank(lines[j])
    ensures CursorAdvances(|lines|, linesPerChunk, overlap)
    ensures ChunksOf(lines, linesPerChunk, overlap) == [Chunk(1, |lines|, Strip(Join("\n", lines)))]
  {
    ShortTextOneWindow(|lines|, linesPerChunk, overlap);
    KeptChunksSingle(lines, (0, |lines|));
    var t := WindowText(lines, 0, |lines|);
    assert t != "" by {
      WindowTextEmpty(lines, 0, |lines|);
    }
    assert t == Strip(Join("\n", lines)) by {
      assert lines[0..|lines|] == lines;
    }
    assert Emit(lines, 0, |lines|) == [Chunk(1, |lines|, t)];
  }

  /** One window keeps what it emits. */
  lemma KeptChunksSingle(lines: seq<string>, w: (nat, nat))
    requires w.0 < w.1 <= |lines|
    ensures KeptChunks(lines, [w]) == Emit(lines, w.0, w.1)
  {
    assert [w][1..] == [];
  }

  /** An empty text gives no chunk. */
  lemma EmptyTextNoChunks(linesPerChunk: int, overlap: int)
    requires linesPerChunk >= 1
    ensures ChunksOf([], linesPerChunk, overlap) == []
  {
  }

  /**
   * `chunk_by_lines`: the cursor loop over the lines. It terminates under
   * `CursorAdvances` (see `CursorStalls` for what happens otherwise) and
   * returns the chunks of the non-blank windows, in order.
   */
  method ChunkByLines(lines: seq<string>, linesPerChunk: int, overlap: int) returns (chunks: seq<Chunk>)
    requires CursorAdvances(|lines|, linesPerChunk, overlap)
    ensures chunks == ChunksOf(lines, linesPerChunk, overlap)
  {
    chunks := [];
    var i: int := 0;
    var n := |lines|;
    while i < n
      invariant 0 <= i
      invariant chunks + KeptChunks(lines, WindowsFrom(n, linesPerChunk, overlap, i))
                == ChunksOf(lines, linesPerChunk, overlap)
      decreases n - i
    {
      var start := i;
      var end := WindowEnd(i, n, linesPerChunk);
      var chunkText := Strip(Join("\n", lines[start..end]));
      ghost var before := chunks;
      if chunkText != "" {
        chunks := chunks + [Chunk(start + 1, end, chunkText)];
      }
      assert chunks == before + Emit(lines, start, end);
      ChunkLoopStep(lines, linesPerChunk, overlap, start, before, chunks);
      i := NextCursor(end, overlap);
      if end == n {
        assert chunks + [] == chunks;
        break;
      }
    }
    if i >= n {
      NoWindowsPastEnd(lines, linesPerChunk, overlap, i);
      assert chunks + [] == chunks;
    }
  }

  /** Past the last line there is no window left. */
  lemma NoWindowsPastEnd(lines: seq<string>, linesPerChunk: int, overlap: int, i: nat)
    requires CursorAdvances(|lines|, linesPerChunk, overlap) && i >= |lines|
    ensures KeptChunks(lines, WindowsFrom(|lines|, linesPerChunk, overlap, i)) == []
  {
  }

  /** The chunks of the windows after the one ending at `end`. */
  function Remaining(lines: seq<string>, linesPerChunk: int, overlap: int, end: nat): seq<Chunk>
    requires CursorAdvances(|lines|, linesPerChunk, overlap) && end <= |lines|
  {
    if end == |lines| then [] else KeptChunks(lines, WindowsFrom(|lines|, linesPerChunk, overlap, NextCursor(end, overlap)))
  }

  /** One turn of the cursor loop: the window at `i` is emitted, then the windows after it. */
  lemma ChunkLoopStep(lines: seq<string>, linesPerChunk: int, overlap: int, i: nat, before: seq<Chunk>, after: seq<Chunk>)
    requires CursorAdvances(|lines|, linesPerChunk, overlap) && i < |lines|
    requires before + KeptChunks(lines, WindowsFrom(|lines|, linesPerChunk, overlap, i)) == ChunksOf(lines, linesPerChunk, overlap)
    requires after == before + Emit(lines, i, WindowEnd(i, |lines|, linesPerChunk))
    ensures after + Remaining(lines, linesPerChunk, overlap, WindowEnd(i, |lines|, linesPerChunk))
            == ChunksOf(lines, linesPerChunk, overlap)
  {
    var end := WindowEnd(i, |lines|, linesPerChunk);
    KeptFromStep(lines, linesPerChunk, overlap, i);
    Regroup(before, Emit(lines, i, end), Remaining(lines, linesPerChunk, overlap, end),
            KeptChunks(lines, WindowsFrom(|lines|, linesPerChunk, overlap, i)), ChunksOf(lines, linesPerChunk, overlap));
  }

  /** The windows from cursor `i` give the chunk of the window at `i`, then the chunks of the windows after it. */
  lemma KeptFromStep(lines: seq<string>, linesPerChunk: int, overlap: int, i: nat)
    requires CursorAdvances(|lines|, linesPerChunk, overlap) && i < |lines|
    ensures KeptChunks(lines, WindowsFrom(|lines|, linesPerChunk, overlap, i))
            == Emit(lines, i, WindowEnd(i, |lines|, linesPerChunk))
               + Remaining(lines, linesPerChunk, overlap, WindowEnd(i, |lines|, linesPerChunk))
  {
    var ws := WindowsFrom(|lines|, linesPerChunk, overlap, i);
    var end := WindowEnd(i, |lines|, linesPerChunk);
    WindowsFromStep(|lines|, linesPerChunk, overlap, i);
    KeptChunksCons(lines, ws);
    if end == |lines| {
      assert ws[1..] == [];
    }
  }

  lemma Regroup<T>(prefix: seq<T>, head: seq<T>, tail: seq<T>, rest: seq<T>, whole: seq<T>)
    requires prefix + rest == whole && rest == head + tail
    ensures prefix + head + tail == whole
  {
  }

  /** The first window's chunk comes before those of the others. */
  lemma KeptChunksCons(lines: seq<string>, ws: seq<(nat, nat)>)
    requires WindowsWithin(|lines|, ws) && ws != []
    ensures WindowsWithin(|lines|, ws[1..])
    ensures KeptChunks(lines, ws) == Emit(lines, ws[0].0, ws[0].1) + KeptChunks(lines, ws[1..])
  {
  }

  // ---------------------------------------------------------------------------
  // Selecting the files to index
  // ---------------------------------------------------------------------------

  /**
   * A directory as `os.walk` lists it, entries in listing order. A file's size
   * is `None` when `os.path.getsize` fails.
   */
  datatype Folder = Folder(entries: seq<Entry>)
  datatype Entry = File(name: string, size: Option<nat>) | Dir(name: string, folder: Folder)

  /** A path relative to the walked root, as its components. */
  type Path = seq<string>

  /*
   * The walk below is stated for any name filter `ignore`; the repository
   * uses `ShouldIgnore`. Keeping the filter a parameter keeps its constants
   * out of the reasoning about the walk's shape.
   */

  /** The file test of `collect_code_files`: a kept name and a known size of at most 2,000,000 bytes. */
  predicate KeptFile(e: Entry, ignore: string -> bool)
  {
    e.File? && !ignore(e.name) && e.size.Some? && e.size.value <= MaxFileBytes
  }

  /** The directory test: the walk descends only into directories whose name is kept. */
  predicate KeptDir(e: Entry, ignore: string -> bool)
  {
    e.Dir? && !ignore(e.name)
  }

  /** The files of one directory listing that are collected, in listing order. */
  function FilesHere(es: seq<Entry>, dir: Path, ignore: string -> bool): seq<Path>
  {
    if es == [] then []
    else
      var e := es[|es| - 1];
      FilesHere(es[..|es| - 1], dir, ignore) + (if KeptFile(e, ignore) then [dir + [e.name]] else [])
  }

  /** What the walk collects below the first `m` entries of `f` that are kept directories. */
  function FilesBelow(f: Folder, dir: Path, m: nat, ignore: string -> bool): seq<Path>
    requires m <= |f.entries|
    decreases f, 0, m
  {
    if m == 0 then []
    else
      var e := f.entries[m - 1];
      FilesBelow(f, dir, m - 1, ignore) + (if KeptDir(e, ignore) then WalkFiles(e.folder, dir + [e.name], ignore) else [])
  }

  /** `os.walk` top-down: a directory's own files first, then each kept subdirectory in turn. */
  function WalkFiles(f: Folder, dir: Path, ignore: string -> bool): seq<Path>
    decreases f, 1
  {
    FilesHere(f.entries, dir, ignore) + FilesBelow(f, dir, |f.entries|, ignore)
  }

  /**
   * The files the walk should return, relative to `f`: a kept file of `f`
   * itself, or an eligible file of a kept subdirectory.
   */
  ghost predicate Eligible(f: Folder, p: Path, ignore: string -> bool)
    decreases f
  {
    exists k :: 0 <= k < |f.entries| &&
      match f.entries[k]
      case File(name, _) => KeptFile(f.entries[k], ignore) && p == [name]
      case Dir(name, sub) => KeptDir(f.entries[k], ignore) && |p| > 1 && p[0] == name && Eligible(sub, p[1..], ignore)
  }

  lemma {:induction false} FilesHereMember(es: seq<Entry>, dir: Path, ignore: string -> bool, p: Path)
    ensures p in FilesHere(es, dir, ignore) <==>
              exists k :: 0 <= k < |es| && KeptFile(es[k], ignore) && p == dir + [es[k].name]
  {
    if es != [] {
      var init := es[..|es| - 1];
      FilesHereMember(init, dir, ignore, p);
      assert forall k :: 0 <= k < |init| ==> init[k] == es[k];
    }
  }

  lemma {:induction false} FilesBelowMember(f: Folder, dir: Path, m: nat, ignore: string -> bool, p: Path)
    requires m <= |f.entries|
    ensures p in FilesBelow(f, dir, m, ignore) <==>
              exists k :: 0 <= k < m && KeptDir(f.entries[k], ignore) &&
                p in WalkFiles(f.entries[k].folder, dir + [f.entries[k].name], ignore)
  {
    if m > 0 {
      FilesBelowMember(f, dir, m - 1, ignore, p);
    }
  }

  /** Everything the walk returns is eligible. */
  lemma {:induction false} WalkFilesSound(f: Folder, dir: Path, ignore: string -> bool, p: Path)
    requires p in WalkFiles(f, dir, ignore)
    ensures |dir| < |p| && p[..|dir|] == dir && Eligible(f, p[|dir|..], ignore)
    decreases f
  {
    FilesHereMember(f.entries, dir, ignore, p);
    FilesBelowMember(f, dir, |f.entries|, ignore, p);
    if p in FilesHere(f.entries, dir, ignore) {
      var k :| 0 <= k < |f.entries| && KeptFile(f.entries[k], ignore) && p == dir + [f.entries[k].name];
      assert p[..|dir|] == dir && p[|dir|..] == [f.entries[k].name];
    } else {
      var k :| 0 <= k < |f.entries| && KeptDir(f.entries[k], ignore) &&
        p in WalkFiles(f.entries[k].folder, dir + [f.entries[k].name], ignore);
      var e := f.entries[k];
      WalkFilesSound(e.folder, dir + [e.name], ignore, p);
      var rel := p[|dir|..];
      assert p[..|dir|] == (p[..|dir| + 1])[..|dir|];
      assert rel[0] == e.name && rel[1..] == p[|dir| + 1..];
    }
  }

  /** Every eligible file is returned. */
  lemma {:induction false} WalkFilesComplete(f: Folder, dir: Path, ignore: string -> bool, p: Path)
    requires |dir| < |p| && p[..|dir|] == dir && Eligible(f, p[|dir|..], ignore)
    ensures p in WalkFiles(f, dir, ignore)
    decreases f
  {
    FilesHereMember(f.entries, dir, ignore, p);
    FilesBelowMember(f, dir, |f.entries|, ignore, p);
    var rel := p[|dir|..];
    var k :| 0 <= k < |f.entries| &&
      match f.entries[k]
      case File(name, _) => KeptFile(f.entries[k], ignore) && rel == [name]
      case Dir(name, sub) => KeptDir(f.entries[k], ignore) && |rel| > 1 && rel[0] == name && Eligible(sub, rel[1..], ignore);
    var e := f.entries[k];
    if e.File? {
      assert p == dir + [e.name];
    } else {
      assert p[..|dir| + 1] == dir + [e.name];
      assert p[|dir| + 1..] == rel[1..];
      WalkFilesComplete(e.folder, dir + [e.name], ignore, p);
    }
  }

  /**
   * The walk returns exactly the eligible files: nothing whose name is
   * ignored, nothing under a pruned directory, nothing above 2,000,000 bytes
   * or of unknown size, and every file that passes all three tests.
   */
  lemma WalkFilesExact(f: Folder, dir: Path, ignore: string -> bool, p: Path)
    ensures p in WalkFiles(f, dir, ignore) <==>
              |dir| < |p| && p[..|dir|] == dir && Eligible(f, p[|dir|..], ignore)
  {
    if p in WalkFiles(f, dir, ignore) {
      WalkFilesSound(f, dir, ignore, p);
    }
    if |dir| < |p| && p[..|dir|] == dir && Eligible(f, p[|dir|..], ignore) {
      WalkFilesComplete(f, dir, ignore, p);
    }
  }

  /**
   * `collect_code_files`: walk the tree from the repository root. The result
   * is exactly the eligible files under the repository's ignore rule.
   */
  method CollectCodeFiles(root: Folder) returns (files: seq<Path>)
    ensures files == WalkFiles(root, [], ShouldIgnore)
    ensures forall p :: p in files <==> p != [] && Eligible(root, p, ShouldIgnore)
  {
    files := Walk(root, []);
    forall p ensures p in files <==> p != [] && Eligible(root, p, ShouldIgnore) {
      WalkFilesExact(root, [], ShouldIgnore, p);
      assert p[..0] == [] && p[0..] == p;
    }
  }

  /** One directory of the walk: its kept files, then each kept subdirectory. */
  method Walk(f: Folder, dir: Path) returns (out: seq<Path>)
    ensures out == WalkFiles(f, dir, ShouldIgnore)
    decreases f, 1
  {
    out := KeptFilesOf(f.entries, dir);
    var below := Descend(f, dir);
    out := out + below;
  }

  /** The files loop of one walk step: skip ignored names, unknown sizes and files over 2,000,000 bytes. */
  method KeptFilesOf(es: seq<Entry>, dir: Path) returns (out: seq<Path>)
    ensures out == FilesHere(es, dir, ShouldIgnore)
  {
    out := [];
    for k := 0 to |es|
      invariant out == FilesHere(es[..k], dir, ShouldIgnore)
    {
      var e := es[k];
      assert es[..k + 1][..k] == es[..k];
      if e.File? && !ShouldIgnore(e.name) && e.size.Some? && e.size.value <= MaxFileBytes {
        out := out + [dir + [e.name]];
      }
    }
    assert es[..|es|] == es;
  }

  /** The pruned `dirs` list of one walk step, each kept subdirectory walked in turn. */
  method Descend(f: Folder, dir: Path) returns (out: seq<Path>)
    ensures out == FilesBelow(f, dir, |f.entries|, ShouldIgnore)
    decreases f, 0
  {
    out := [];
    for k := 0 to |f.entries|
      invariant out == FilesBelow(f, dir, k, ShouldIgnore)
    {
      var e := f.entries[k];
      if e.Dir? && !ShouldIgnore(e.name) {
        var sub := Walk(e.folder, dir + [e.name]);
        out := out + sub;
      }
    }
  }

  // ---------------------------------------------------------------------------
  // Assembling the index
  // ---------------------------------------------------------------------------

  /** A collected file: its path and the lines of its (truncated) text. */
  datatype SourceFile = SourceFile(path: string, lines: seq<string>)

  /** The two parallel lists `build_faiss_index` fills: metadata and the texts handed to the embedder. */
  datatype Corpus = Corpus(metas: seq<ChunkMeta>, texts: seq<string>)

  predicate Aligned(c: Corpus)
  {
    |c.metas| == |c.texts| && forall i :: 0 <= i < |c.metas| ==> c.texts[i] == c.metas[i].text
  }

  /** `not txt.strip()`: the text is whitespace only, that is, every line is blank. */
  predicate AllBlank(lines: seq<string>)
  {
    forall j :: 0 <= j < |lines| ==> IsBlank(lines[j])
  }

  function MetasFrom(path: string, chunks: seq<Chunk>): (ms: seq<ChunkMeta>)
    ensures |ms| == |chunks|
  {
    if chunks == [] then []
    else
      var c := chunks[|chunks| - 1];
      MetasFrom(path, chunks[..|chunks| - 1]) + [ChunkMeta(path, c.startLine, c.endLine, c.text)]
  }

  /** The metadata one file contributes: nothing when it is whitespace only. */
  function FileMetas(f: SourceFile): seq<ChunkMeta>
  {
    if AllBlank(f.lines) then []
    else MetasFrom(f.path, ChunksOf(f.lines, LinesPerChunk, Overlap))
  }

  function CorpusMetas(files: seq<SourceFile>): seq<ChunkMeta>
  {
    if files == [] then []
    else CorpusMetas(files[..|files| - 1]) + FileMetas(files[|files| - 1])
  }

  lemma {:induction false} MetasFromAt(path: string, chunks: seq<Chunk>, i: nat)
    requires i < |chunks|
    ensures MetasFrom(path, chunks)[i] ==
            ChunkMeta(path, chunks[i].startLine, chunks[i].endLine, chunks[i].text)
  {
    if i < |chunks| - 1 {
      MetasFromAt(path, chunks[..|chunks| - 1], i);
    }
  }

  /** `m` is a chunk of file `f`: it names the file, lies within its lines and carries that window's non-empty text. */
  predicate ChunkOfFile(m: ChunkMeta, f: SourceFile)
  {
    && m.filePath == f.path
    && 1 <= m.startLine <= m.endLine <= |f.lines|
    && m.text == WindowText(f.lines, m.startLine - 1, m.endLine)
    && m.text != ""
  }

  /** Every position of the corpus is a chunk of one of the collected files. */
  lemma {:induction false} CorpusMetasProvenance(files: seq<SourceFile>, i: nat)
    requires i < |CorpusMetas(files)|
    ensures exists k :: 0 <= k < |files| && ChunkOfFile(CorpusMetas(files)[i], files[k])
  {
    var init, f := files[..|files| - 1], files[|files| - 1];
    var before := CorpusMetas(init);
    if i < |before| {
      CorpusMetasProvenance(init, i);
      var k :| 0 <= k < |init| && ChunkOfFile(before[i], init[k]);
      assert files[k] == init[k];
    } else {
      var cs := ChunksOf(f.lines, LinesPerChunk, Overlap);
      ChunksWellFormed(f.lines, LinesPerChunk, Overlap, cs);
      MetasFromAt(f.path, cs, i - |before|);
      assert ChunkOfFile(CorpusMetas(files)[i], files[|files| - 1]);
    }
  }

  /** The corpus is empty exactly when every collected file is whitespace only. */
  lemma {:induction false} CorpusEmptyIffAllBlank(files: seq<SourceFile>)
    ensures CorpusMetas(files) == [] <==> forall k :: 0 <= k < |files| ==> AllBlank(files[k].lines)
  {
    if files != [] {
      var init, f := files[..|files| - 1], files[|files| - 1];
      CorpusEmptyIffAllBlank(init);
      if !AllBlank(f.lines) {
        NoChunksIffBlank(f.lines, LinesPerChunk, Overlap);
      }
      assert forall k :: 0 <= k < |init| ==> init[k] == files[k];
    }
  }

  /** The inner loop of `build_faiss_index`: one file's chunks appended to both lists. */
  method AppendChunks(path: string, chunks: seq<Chunk>, metas0: seq<ChunkMeta>, texts0: seq<string>)
    returns (metas: seq<ChunkMeta>, texts: seq<string>)
    requires Aligned(Corpus(metas0, texts0))
    ensures metas == metas0 + MetasFrom(path, chunks)
    ensures Aligned(Corpus(metas, texts))
  {
    metas, texts := metas0, texts0;
    for c := 0 to |chunks|
      invariant metas == metas0 + MetasFrom(path, chunks[..c])
      invariant Aligned(Corpus(metas, texts))
    {
      assert chunks[..c + 1][..c] == chunks[..c];
      var ch := chunks[c];
      metas := metas + [ChunkMeta(path, ch.startLine, ch.endLine, ch.text)];
      texts := texts + [ch.text];
    }
    assert chunks[..|chunks|] == chunks;
  }

  /**
   * `build_faiss_index` without the embedding step: metadata and texts are
   * appended together, whitespace-only files are skipped, and an empty
   * corpus is the `ValueError`.
   */
  method BuildIndex(files: seq<SourceFile>) returns (r: Result<Corpus, string>)
    ensures r.Err? <==> CorpusMetas(files) == []
    ensures r.Err? ==> r.error == EmptyCorpusMessage
    ensures r.Ok? ==> r.value.metas == CorpusMetas(files) && Aligned(r.value)
  {
    var metas: seq<ChunkMeta> := [];
    var texts: seq<string> := [];
    for k := 0 to |files|
      invariant metas == CorpusMetas(files[..k])
      invariant Aligned(Corpus(metas, texts))
    {
      var fp := files[k];
      assert CorpusMetas(files[..k + 1]) == CorpusMetas(files[..k]) + FileMetas(fp) by {
        assert files[..k + 1][..k] == files[..k];
      }
      if !AllBlank(fp.lines) {
        var chunks := ChunkByLines(fp.lines, LinesPerChunk, Overlap);
        metas, texts := AppendChunks(fp.path, chunks, metas, texts);
      }
    }
    assert files[..|files|] == files;
    if texts == [] {
      return Err(EmptyCorpusMessage);
    }
    return Ok(Corpus(metas, texts));
  }
}
