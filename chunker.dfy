/** `splitTextIntoChunks`: the text is cut on single spaces, blank tokens are
    dropped, and the words are regrouped into runs of at most `chunkSize`,
    each run joined with single spaces. The result is never empty. */
module Chunker {
  import opened Common
  import opened Text

  /** `text.split(' ').filter(word => word.trim().length > 0)`. */
  function Words(text: string): (ws: seq<string>)
    ensures forall k :: 0 <= k < |ws| ==> NonBlank(ws[k]) && ' ' !in ws[k] && ws[k] in Split(text, {' '})
    ensures forall x :: x in Split(text, {' '}) && NonBlank(x) ==> x in ws
  {
    Tokens(text, ' ')
  }

  /** Runs of `size` words, each joined with spaces, the last one possibly
      shorter. */
  function ChunkWords(words: seq<string>, size: nat): (r: seq<string>)
    requires size > 0
    ensures r == [] <==> words == []
    decreases |words|
  {
    if words == [] then []
    else
      var n := Min(size, |words|);
      [Join(words[..n], " ")] + ChunkWords(words[n..], size)
  }

  /** What `splitTextIntoChunks(text, size)` returns. */
  function Chunks(text: string, size: nat): (r: seq<string>)
    requires size > 0
    ensures |r| >= 1
  {
    var ws := Words(text);
    if ws == [] then [text] else ChunkWords(ws, size)
  }

  /** The loop of `splitTextIntoChunks`, with the `chunk.trim().length > 0` guard; the
      guard never skips a run, since every word is non-blank. */
  method SplitTextIntoChunks(text: string, chunkSize: nat) returns (chunks: seq<string>)
    requires chunkSize > 0
    ensures chunks == Chunks(text, chunkSize)
  {
    var words := Words(text);
    chunks := [];
    var i := 0;
    while i < |words|
      invariant chunks + ChunkWords(words[Min(i, |words|)..], chunkSize) == ChunkWords(words, chunkSize)
    {
      var next := Min(i + chunkSize, |words|);
      var chunk := Join(words[i..next], " ");
      ChunkStep(words, chunkSize, i, chunks);
      TrimNonBlank(chunk);
      if |Trim(chunk)| > 0 {
        chunks := chunks + [chunk];
      }
      i := i + chunkSize;
      assert Min(i, |words|) == next;
    }
    assert words[Min(i, |words|)..] == [];
    if chunks == [] {
      chunks := [text];
    }
  }

  /** The loop keeps its invariant: the run from word `i` is non-blank, and
      appending it to the chunks so far leaves the chunks from `i + size` on
      to come. */
  lemma ChunkStep(words: seq<string>, size: nat, i: nat, chunks: seq<string>)
    requires size > 0 && i < |words|
    requires forall k :: 0 <= k < |words| ==> NonBlank(words[k])
    requires chunks + ChunkWords(words[Min(i, |words|)..], size) == ChunkWords(words, size)
    ensures var next := Min(i + size, |words|);
      && NonBlank(Join(words[i..next], " "))
      && (chunks + [Join(words[i..next], " ")]) + ChunkWords(words[next..], size) == ChunkWords(words, size)
  {
    var next := Min(i + size, |words|);
    NextChunk(words, size, i);
    JoinNonBlank(words[i..next]);
  }

  /** One step of the loop: the chunks from word `i` on are the run starting
      at `i` followed by the chunks from `i + size` on. */
  lemma NextChunk(words: seq<string>, size: nat, i: nat)
    requires size > 0 && i < |words|
    ensures ChunkWords(words[i..], size) == [Join(words[i..Min(i + size, |words|)], " ")] + ChunkWords(words[Min(i + size, |words|)..], size)
  {
    var n := Min(size, |words| - i);
    assert words[i..][..n] == words[i..i + n];
    assert words[i..][n..] == words[i + n..];
  }

  /** A space-join of non-blank words is non-blank. */
  lemma JoinNonBlank(words: seq<string>)
    requires words != []
    requires forall k :: 0 <= k < |words| ==> NonBlank(words[k])
    ensures NonBlank(Join(words, " "))
  {
    var w := words[0];
    var j := Join(words, " ");
    JoinStartsWithFirst(words, " ");
    assert !Blank(w);
    var i :| 0 <= i < |w| && !IsSpace(w[i]);
    assert j[i] == j[..|w|][i] == w[i];
  }

  /** Index of the first word of chunk `k`: `k * size`, counted up in steps
      of `size` as the loop does. */
  function Start(k: nat, size: nat): nat
  {
    if k == 0 then 0 else Start(k - 1, size) + size
  }

  lemma {:induction false} StartIsProduct(k: nat, size: nat)
    ensures Start(k, size) == k * size
  {
    if k > 0 {
      StartIsProduct(k - 1, size);
      assert (k - 1) * size + size == k * size;
    }
  }

  /** The first run, then the chunks of the words after it. */
  lemma FirstChunk(words: seq<string>, size: nat)
    requires size > 0 && |words| > size
    ensures ChunkWords(words, size) == [Join(words[..size], " ")] + ChunkWords(words[size..], size)
  {
  }

  /** A slice of a suffix is a slice of the whole, shifted by `d`. */
  lemma SliceOfSuffix(words: seq<string>, d: nat, x: nat, y: nat)
    requires d <= |words| && x <= y <= |words| - d
    ensures words[d..][x..y] == words[d + x..d + y]
  {
  }

  /** Chunk `k` is the space-join of words `Start(k)` up to `Start(k + 1)`. */
  lemma {:induction false} ChunkWordsAt(words: seq<string>, size: nat, k: nat)
    requires size > 0
    requires k < |ChunkWords(words, size)|
    ensures Start(k, size) < |words|
    ensures ChunkWords(words, size)[k] == Join(words[Start(k, size)..Min(Start(k + 1, size), |words|)], " ")
    decreases |words|
  {
    if k > 0 {
      assert |words| > size;
      var rest := words[size..];
      FirstChunk(words, size);
      assert ChunkWords(words, size)[k] == ChunkWords(rest, size)[k - 1];
      ChunkWordsAt(rest, size, k - 1);
      var a, b := Start(k - 1, size), Min(Start(k, size), |rest|);
      assert Start(k, size) == size + a;
      assert Start(k + 1, size) == Start(k, size) + size;
      assert size + b == Min(Start(k + 1, size), |words|);
      SliceOfSuffix(words, size, a, b);
    }
  }

  /** There are ceil(|words| / size) chunks. */
  lemma {:induction false} ChunkCount(words: seq<string>, size: nat)
    requires size > 0 && words != []
    ensures var n := |ChunkWords(words, size)|; n >= 1 && Start(n - 1, size) < |words| <= Start(n, size)
    decreases |words|
  {
    if |words| > size {
      ChunkCount(words[size..], size);
    }
  }

  /** Joining the chunks with spaces gives the words joined with spaces: the
      chunks keep every word, in order. */
  lemma {:induction false} ChunkJoin(words: seq<string>, size: nat)
    requires size > 0 && words != []
    ensures Join(ChunkWords(words, size), " ") == Join(words, " ")
    decreases |words|
  {
    if |words| > size {
      var rest := words[size..];
      ChunkJoin(rest, size);
      var tail := ChunkWords(rest, size);
      assert ChunkWords(words, size) == [Join(words[..size], " ")] + tail;
      JoinAppend([Join(words[..size], " ")], tail, " ");
      JoinAppend(words[..size], rest, " ");
      assert words[..size] + rest == words;
    } else {
      assert words[..|words|] == words;
      assert ChunkWords(words, size) == [Join(words, " ")];
    }
  }

  /** Chunk `k` splits back on spaces into exactly its run of words, of
      between 1 and `size` words, exactly `size` unless it is the last. */
  lemma ChunkWordCount(words: seq<string>, size: nat, k: nat)
    requires size > 0
    requires forall j :: 0 <= j < |words| ==> ' ' !in words[j]
    requires k < |ChunkWords(words, size)|
    ensures Start(k, size) < |words|
    ensures Split(ChunkWords(words, size)[k], {' '}) == words[Start(k, size)..Min(Start(k + 1, size), |words|)]
    ensures 1 <= WordCount(ChunkWords(words, size)[k]) <= size
    ensures k < |ChunkWords(words, size)| - 1 ==> WordCount(ChunkWords(words, size)[k]) == size
  {
    ChunkWordsAt(words, size, k);
    var run := words[Start(k, size)..Min(Start(k + 1, size), |words|)];
    assert forall j :: 0 <= j < |run| ==> ' ' !in run[j];
    SplitJoin(run, ' ');
    if k < |ChunkWords(words, size)| - 1 {
      ChunkWordsAt(words, size, k + 1);
    }
  }

  /** Words `k * size` up to `(k + 1) * size`, as far as there are any. */
  function RunOf(words: seq<string>, size: nat, k: nat): (run: seq<string>)
    ensures |run| <= size
  {
    assert Start(k + 1, size) == Start(k, size) + size;
    words[Min(Start(k, size), |words|)..Min(Start(k + 1, size), |words|)]
  }

  /** The number and the content of the chunks of `splitTextIntoChunks(text,
      size)`: the text itself when it has no word; otherwise ceil(#words /
      size) chunks which, joined with spaces, equal the words joined with
      spaces. */
  lemma ChunksShape(text: string, size: nat)
    requires size > 0
    ensures Words(text) == [] ==> Chunks(text, size) == [text]
    ensures var ws, r := Words(text), Chunks(text, size);
      ws != [] ==> Start(|r| - 1, size) < |ws| <= Start(|r|, size) && Join(r, " ") == Join(ws, " ")
  {
    var ws := Words(text);
    if ws != [] {
      assert Chunks(text, size) == ChunkWords(ws, size);
      ChunkCount(ws, size);
      ChunkJoin(ws, size);
    }
  }

  /** Chunk `k` of `splitTextIntoChunks(text, size)`, for a text with words,
      splits back on spaces into exactly run `k` of the words, so it has
      between 1 and `size` words, and exactly `size` unless it is the last. */
  lemma ChunkRuns(text: string, size: nat, k: nat)
    requires size > 0 && Words(text) != [] && k < |Chunks(text, size)|
    ensures var r := Chunks(text, size);
      && Split(r[k], {' '}) == RunOf(Words(text), size, k)
      && 1 <= WordCount(r[k]) <= size
      && (k < |r| - 1 ==> WordCount(r[k]) == size)
  {
    var ws := Words(text);
    ChunkWordCount(ws, size, k);
    assert Min(Start(k, size), |ws|) == Start(k, size);
  }
}
