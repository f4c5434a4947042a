/** `PDFParser.chunk_text`: the sentence split, the greedy packing of sentences into chunks, and
    the sentence-aligned overlap carried from one chunk into the next.

    The specification is `Chunks`: `PackFrom` walks the sentences as the source's loop does and
    records, for every chunk, the run of sentence indices `[lo, hi)` it joins. The lemmas below
    state what that greedy packing guarantees, and `ChunkSentences` is the source's loop, proved
    to compute `Chunks`. */
module Chunking {
  import opened Strings

  // ---------------------------------------------------------------------------------------------
  // Sentence split: re.split(r'(?<=[.!?])\s+', text)

  predicate IsSentenceEnd(c: char) { c == '.' || c == '!' || c == '?' }

  /** The piece ends with sentence punctuation. */
  predicate EndsSentence(p: string)
  {
    p != [] && IsSentenceEnd(p[|p| - 1])
  }

  /** A whitespace run preceded by '.', '!' or '?' can start at index `i`. */
  predicate BoundaryAt(s: string, i: int)
  {
    0 < i < |s| && IsSentenceEnd(s[i - 1]) && IsSpace(s[i])
  }

  /** The first split position at or after `from`, or `|s|` when there is none. */
  function FirstBoundary(s: string, from: nat): (i: nat)
    ensures i <= |s|
    ensures i < |s| ==> BoundaryAt(s, i) && from <= i
    ensures forall k :: from <= k < i ==> !BoundaryAt(s, k)
    decreases |s| - from
  {
    if from >= |s| then |s|
    else if BoundaryAt(s, from) then from
    else FirstBoundary(s, from + 1)
  }

  /** The sentence list: at least one piece (`""` gives `[""]`), and every piece but the last
      ends with sentence punctuation. A split position cuts the text there and drops the whole
      whitespace run that follows. */
  function SplitSentences(s: string): (r: seq<string>)
    ensures |r| >= 1
    ensures forall k :: 0 <= k < |r| - 1 ==> EndsSentence(r[k])
    decreases |s|
  {
    var i := FirstBoundary(s, 1);
    if i == |s| then
      [s]
    else
      var piece := s[..i];
      assert EndsSentence(piece) by {
        assert piece[|piece| - 1] == s[i - 1];
      }
      var tail := SplitSentences(s[SpaceRunEnd(s, i)..]);
      assert forall k :: 0 < k < |tail| ==> ([piece] + tail)[k] == tail[k - 1];
      [piece] + tail
  }

  /** No piece still holds a split position: the split is complete. */
  lemma {:induction false} SplitComplete(s: string)
    ensures var r := SplitSentences(s); forall k, m :: 0 <= k < |r| ==> !BoundaryAt(r[k], m)
    decreases |s|
  {
    var r := SplitSentences(s);
    var i := FirstBoundary(s, 1);
    if i < |s| {
      var rest := s[SpaceRunEnd(s, i)..];
      SplitComplete(rest);
      assert r[1..] == SplitSentences(rest);
      forall k, m | 0 <= k < |r| ensures !BoundaryAt(r[k], m) {
        if k == 0 {
          if BoundaryAt(s[..i], m) {
            assert BoundaryAt(s, m);
          }
        } else {
          assert r[k] == SplitSentences(rest)[k - 1];
        }
      }
    } else {
      forall m ensures !BoundaryAt(s, m) {
        if 0 < m < |s| {
          assert !BoundaryAt(s, m);
        }
      }
    }
  }

  /** The whitespace character at `k` is not a lone ' '. */
  predicate BadSpaceAt(s: string, k: int)
  {
    0 <= k < |s| && IsSpace(s[k]) && (s[k] != ' ' || (k + 1 < |s| && IsSpace(s[k + 1])))
  }

  /** Every whitespace character is a ' ' standing alone. */
  predicate SingleSpaced(s: string)
  {
    forall k :: 0 <= k < |s| ==> !BadSpaceAt(s, k)
  }

  /** A suffix of single-spaced text is single-spaced. */
  lemma SingleSpacedSuffix(s: string, j: nat)
    requires SingleSpaced(s) && j <= |s|
    ensures SingleSpaced(s[j..])
  {
    forall k | 0 <= k < |s| - j ensures !BadSpaceAt(s[j..], k) {
      assert !BadSpaceAt(s, j + k);
    }
  }

  /** In single-spaced text a split position is one ' ' followed by the next sentence. */
  lemma SingleSpacedBoundary(s: string, i: nat)
    requires SingleSpaced(s) && BoundaryAt(s, i)
    ensures s[i] == ' ' && SpaceRunEnd(s, i) == i + 1
  {
    assert !BadSpaceAt(s, i);
    assert SpaceRunEnd(s, i) == SpaceRunEnd(s, i + 1);
  }

  /** For single-spaced text, re-joining the sentences with ' ' gives the text back: the split
      loses nothing but the separating spaces. */
  lemma {:induction false} SplitJoin(s: string)
    requires SingleSpaced(s)
    ensures Join(SplitSentences(s), " ") == s
    decreases |s|
  {
    var i := FirstBoundary(s, 1);
    if i < |s| {
      SingleSpacedBoundary(s, i);
      SingleSpacedSuffix(s, i + 1);
      SplitJoin(s[i + 1..]);
      JoinAppend([s[..i]], SplitSentences(s[i + 1..]), " ");
      assert s == s[..i] + " " + s[i + 1..];
    }
  }

  /** The whitespace runs the split drops, in order: the whole run after each split position. */
  function SplitGaps(s: string): (g: seq<string>)
    ensures |g| == |SplitSentences(s)| - 1
    decreases |s|
  {
    var i := FirstBoundary(s, 1);
    if i == |s| then []
    else [s[i..SpaceRunEnd(s, i)]] + SplitGaps(s[SpaceRunEnd(s, i)..])
  }

  /** The pieces with the gaps put back between them. */
  function Interleave(pieces: seq<string>, gaps: seq<string>): string
    requires |pieces| == |gaps| + 1
    decreases |gaps|
  {
    if gaps == [] then pieces[0] else pieces[0] + gaps[0] + Interleave(pieces[1..], gaps[1..])
  }

  /** The first piece of a non-empty text starts with the text's first character. */
  lemma SplitFirst(s: string)
    requires s != []
    ensures SplitSentences(s)[0] != [] && SplitSentences(s)[0][0] == s[0]
  {
  }

  /** For any text, the split loses nothing but whitespace: every dropped gap is a non-empty run of
      whitespace, no piece after the first starts with whitespace (so each gap is the whole run),
      and putting the gaps back between the pieces gives the text. */
  lemma {:induction false} SplitRebuild(s: string)
    ensures var r, g := SplitSentences(s), SplitGaps(s);
      && (forall k :: 0 <= k < |g| ==> g[k] != [] && forall m :: 0 <= m < |g[k]| ==> IsSpace(g[k][m]))
      && (forall k :: 0 < k < |r| ==> r[k] == [] || !IsSpace(r[k][0]))
      && Interleave(r, g) == s
    decreases |s|
  {
    var i := FirstBoundary(s, 1);
    if i < |s| {
      var e := SpaceRunEnd(s, i);
      var rest := s[e..];
      SplitRebuild(rest);
      SpaceRunEndSkipsSpace(s, i);
      var r, g := SplitSentences(s), SplitGaps(s);
      assert r[0] == s[..i] && r[1..] == SplitSentences(rest);
      assert g[0] == s[i..e] && g[1..] == SplitGaps(rest);
      assert s == s[..i] + s[i..e] + rest;
      forall k | 0 <= k < |g|
        ensures g[k] != [] && forall m :: 0 <= m < |g[k]| ==> IsSpace(g[k][m])
      {
        if k > 0 {
          assert g[k] == SplitGaps(rest)[k - 1];
        }
      }
      forall k | 0 < k < |r|
        ensures r[k] == [] || !IsSpace(r[k][0])
      {
        assert r[k] == SplitSentences(rest)[k - 1];
        if k == 1 && rest != [] {
          SplitFirst(rest);
        }
      }
    }
  }

  // ---------------------------------------------------------------------------------------------
  // Lengths and the overlap, on index ranges of the sentence list

  /** Summed length of `ss[lo..hi]` (0 for an empty or out-of-range window). */
  function SumRange(ss: seq<string>, lo: int, hi: int): nat
    decreases hi
  {
    if 0 <= lo < hi <= |ss| then SumRange(ss, lo, hi - 1) + |ss[hi - 1]| else 0
  }

  /** How many trailing sentences of `ss[lo..hi]` the reverse loop takes: it keeps going while
      the running total still fits in `budget` and stops at the first sentence that does not. */
  function OverlapFrom(ss: seq<string>, lo: int, hi: int, budget: int): (n: nat)
    ensures lo <= hi ==> n <= hi - lo
    decreases hi
  {
    if 0 <= lo < hi <= |ss| && |ss[hi - 1]| <= budget then
      1 + OverlapFrom(ss, lo, hi - 1, budget - |ss[hi - 1]|)
    else 0
  }

  /** The overlap is the longest suffix of the window whose summed length fits in the budget:
      what is taken fits, and one more sentence would not fit (or the whole window was taken). */
  lemma {:induction false} OverlapFromGreedy(ss: seq<string>, lo: nat, hi: nat, budget: int)
    requires lo <= hi <= |ss|
    ensures var n := OverlapFrom(ss, lo, hi, budget);
      && (n == 0 || SumRange(ss, hi - n, hi) <= budget)
      && (n == hi - lo || SumRange(ss, hi - n - 1, hi) > budget)
    decreases hi
  {
    if lo < hi && |ss[hi - 1]| <= budget {
      OverlapFromGreedy(ss, lo, hi - 1, budget - |ss[hi - 1]|);
    }
  }

  lemma {:induction false} SumLenRange(ss: seq<string>, lo: nat, hi: nat)
    requires lo <= hi <= |ss|
    ensures SumLen(ss[lo..hi]) == SumRange(ss, lo, hi)
    decreases hi
  {
    if lo < hi {
      assert ss[lo..hi][..hi - lo - 1] == ss[lo..hi - 1];
      SumLenRange(ss, lo, hi - 1);
    }
  }

  /** The overlap of a window is the overlap of the window cut out as a list of its own. */
  lemma {:induction false} OverlapFromSlice(ss: seq<string>, lo: nat, hi: nat, budget: int)
    requires lo <= hi <= |ss|
    ensures OverlapFrom(ss[lo..hi], 0, hi - lo, budget) == OverlapFrom(ss, lo, hi, budget)
    decreases hi
  {
    if lo < hi {
      var w := ss[lo..hi];
      assert w[hi - lo - 1] == ss[hi - 1];
      OverlapFromSlice(ss, lo, hi - 1, budget - |ss[hi - 1]|);
      OverlapFromPrefix(w, hi - lo - 1, budget - |ss[hi - 1]|);
      assert w[..hi - lo - 1] == ss[lo..hi - 1];
    }
  }

  /** The overlap of the first `m` sentences does not look past them. */
  lemma {:induction false} OverlapFromPrefix(ss: seq<string>, m: nat, budget: int)
    requires m <= |ss|
    ensures OverlapFrom(ss[..m], 0, m, budget) == OverlapFrom(ss, 0, m, budget)
    decreases m
  {
    if 0 < m {
      assert ss[..m][m - 1] == ss[m - 1];
      assert ss[..m][..m - 1] == ss[..m - 1];
      OverlapFromPrefix(ss, m - 1, budget - |ss[m - 1]|);
      OverlapFromPrefix(ss[..m], m - 1, budget - |ss[m - 1]|);
    }
  }

  // ---------------------------------------------------------------------------------------------
  // Packing: which sentences each chunk joins

  /** Chunk `[lo, hi)` joins `sentences[lo..hi]`. */
  datatype Span = Span(lo: nat, hi: nat)

  /** The chunks still to come when the open chunk holds `ss[lo..i]` and sentence `i` is next:
      the loop body of `chunk_text`, one sentence per step. Sentence `i` closes the open chunk
      when the chunk is not empty and the summed length would pass `size`; the next chunk then
      starts with the overlap. After the last sentence a non-empty open chunk is closed. */
  function PackFrom(ss: seq<string>, size: int, overlap: int, lo: nat, i: nat): (r: seq<Span>)
    requires lo <= i <= |ss|
    ensures r != [] ==> r[0].lo == lo && i <= r[0].hi
    ensures r == [] <==> lo == |ss|
    decreases |ss| - i
  {
    if i == |ss| then
      (if lo < i then [Span(lo, i)] else [])
    else if lo < i && SumRange(ss, lo, i) + |ss[i]| > size then
      [Span(lo, i)] + PackFrom(ss, size, overlap, i - OverlapFrom(ss, lo, i, overlap), i + 1)
    else
      PackFrom(ss, size, overlap, lo, i + 1)
  }

  /** One step of the loop that closes the open chunk `[lo, i)`. */
  lemma PackFromClose(ss: seq<string>, size: int, overlap: int, lo: nat, i: nat)
    requires lo < i < |ss| && SumRange(ss, lo, i) + |ss[i]| > size
    ensures PackFrom(ss, size, overlap, lo, i)
         == [Span(lo, i)] + PackFrom(ss, size, overlap, i - OverlapFrom(ss, lo, i, overlap), i + 1)
  {
  }

  /** One step of the loop that adds sentence `i` to the open chunk. */
  lemma PackFromExtend(ss: seq<string>, size: int, overlap: int, lo: nat, i: nat)
    requires lo <= i < |ss| && (lo == i || SumRange(ss, lo, i) + |ss[i]| <= size)
    ensures PackFrom(ss, size, overlap, lo, i) == PackFrom(ss, size, overlap, lo, i + 1)
  {
  }

  function ChunkSpans(ss: seq<string>, size: int, overlap: int): seq<Span>
  {
    PackFrom(ss, size, overlap, 0, 0)
  }

  /** The text of each run: its sentences joined with single spaces. */
  function JoinRuns(ss: seq<string>, spans: seq<Span>): (r: seq<string>)
    ensures |r| == |spans|
    ensures forall k :: 0 <= k < |spans| && spans[k].lo <= spans[k].hi <= |ss| ==>
      r[k] == Join(ss[spans[k].lo..spans[k].hi], " ")
    decreases |spans|
  {
    if spans == [] then []
    else
      var sp := spans[|spans| - 1];
      JoinRuns(ss, spans[..|spans| - 1])
        + [if sp.lo <= sp.hi <= |ss| then Join(ss[sp.lo..sp.hi], " ") else ""]
  }

  /** What `chunk_text` returns for the sentence list `ss`. */
  function Chunks(ss: seq<string>, size: int, overlap: int): seq<string>
  {
    JoinRuns(ss, ChunkSpans(ss, size, overlap))
  }

  // ---------------------------------------------------------------------------------------------
  // The packing is greedy

  /** Every sentence the run starting at `lo` took after position `from`, other than its first,
      left the summed length within `size`. */
  ghost predicate FitsUpTo(ss: seq<string>, size: int, lo: int, from: int, hi: int)
  {
    forall e :: from < e <= hi && lo + 1 < e ==> SumRange(ss, lo, e) <= size
  }

  /** Run `k` begins with the overlap taken from the end of run `k - 1`. */
  ghost predicate Carried(ss: seq<string>, overlap: int, r: seq<Span>, k: int)
  {
    0 < k < |r| && r[k].lo == r[k - 1].hi - OverlapFrom(ss, r[k - 1].lo, r[k - 1].hi, overlap)
  }

  /** Run `k` starts no earlier than run `k - 1`, no later than where it ends, and ends later. */
  ghost predicate Linked(r: seq<Span>, k: int)
  {
    0 < k < |r| && r[k - 1].lo <= r[k].lo <= r[k - 1].hi < r[k].hi
  }

  /** The runs the loop produces, run by run: each is non-empty and within the sentences, the last
      ends with the last sentence, and each later run was opened because the next sentence would
      have taken the previous run past `size`, starts with that run's overlap, and took its
      further sentences while they fitted. */
  ghost predicate Packed(ss: seq<string>, size: int, overlap: int, r: seq<Span>)
    decreases |r|
  {
    r != [] ==>
      && r[0].lo < r[0].hi <= |ss|
      && (|r| == 1 ==> r[0].hi == |ss|)
      && (|r| > 1 ==>
            && SumRange(ss, r[0].lo, r[0].hi + 1) > size
            && r[1].lo == r[0].hi - OverlapFrom(ss, r[0].lo, r[0].hi, overlap)
            && r[0].hi < r[1].hi
            && FitsUpTo(ss, size, r[1].lo, r[0].hi + 1, r[1].hi)
            && Packed(ss, size, overlap, r[1..]))
  }

  /** Sentence `i` joining the open chunk without closing it. */
  lemma FitsExtend(ss: seq<string>, size: int, lo: nat, i: nat, hi: int)
    requires lo <= i < |ss| && (lo == i || SumRange(ss, lo, i) + |ss[i]| <= size)
    requires FitsUpTo(ss, size, lo, i + 1, hi)
    ensures FitsUpTo(ss, size, lo, i, hi)
  {
    assert lo < i ==> SumRange(ss, lo, i + 1) <= size;
  }

  /** From every loop state, the open chunk keeps within `size` while it grows. */
  lemma {:induction false} PackFromFits(ss: seq<string>, size: int, overlap: int, lo: nat, i: nat)
    requires lo <= i <= |ss|
    ensures var r := PackFrom(ss, size, overlap, lo, i);
      r != [] ==> FitsUpTo(ss, size, lo, i, r[0].hi)
    decreases |ss| - i
  {
    if i < |ss| && !(lo < i && SumRange(ss, lo, i) + |ss[i]| > size) {
      PackFromExtend(ss, size, overlap, lo, i);
      PackFromFits(ss, size, overlap, lo, i + 1);
      var r := PackFrom(ss, size, overlap, lo, i + 1);
      if r != [] {
        FitsExtend(ss, size, lo, i, r[0].hi);
      }
    }
  }

  /** The runs still to come from loop state `(lo, i)` are packed. */
  ghost predicate PackedFrom(ss: seq<string>, size: int, overlap: int, lo: nat, i: nat)
    requires lo <= i <= |ss|
  {
    Packed(ss, size, overlap, PackFrom(ss, size, overlap, lo, i))
  }

  /** Closing the open chunk `[lo, i)` in front of the packed runs that follow keeps them
      packed. */
  lemma PackedClose(ss: seq<string>, size: int, overlap: int, lo: nat, i: nat)
    requires lo < i < |ss| && SumRange(ss, lo, i) + |ss[i]| > size
    requires PackedFrom(ss, size, overlap, i - OverlapFrom(ss, lo, i, overlap), i + 1)
    ensures PackedFrom(ss, size, overlap, lo, i)
  {
    var lo' := i - OverlapFrom(ss, lo, i, overlap);
    var rest := PackFrom(ss, size, overlap, lo', i + 1);
    PackFromClose(ss, size, overlap, lo, i);
    PackFromFits(ss, size, overlap, lo', i + 1);
    PackedCons(ss, size, overlap, Span(lo, i), rest);
  }

  /** A run in front of packed runs, closed by the next sentence and carrying its overlap into
      the first of them. */
  lemma PackedCons(ss: seq<string>, size: int, overlap: int, a: Span, rest: seq<Span>)
    requires a.lo < a.hi < |ss| && SumRange(ss, a.lo, a.hi + 1) > size
    requires rest != [] && rest[0].lo == a.hi - OverlapFrom(ss, a.lo, a.hi, overlap) && a.hi < rest[0].hi
    requires FitsUpTo(ss, size, rest[0].lo, a.hi + 1, rest[0].hi)
    requires Packed(ss, size, overlap, rest)
    ensures Packed(ss, size, overlap, [a] + rest)
  {
    var r := [a] + rest;
    assert r[1..] == rest && r[1] == rest[0];
  }

  /** The runs still to come from every loop state are packed. */
  lemma {:induction false} PackFromPacked(ss: seq<string>, size: int, overlap: int, lo: nat, i: nat)
    requires lo <= i <= |ss|
    ensures PackedFrom(ss, size, overlap, lo, i)
    decreases |ss| - i
  {
    if i < |ss| {
      if lo < i && SumRange(ss, lo, i) + |ss[i]| > size {
        var lo' := i - OverlapFrom(ss, lo, i, overlap);
        PackFromPacked(ss, size, overlap, lo', i + 1);
        PackedClose(ss, size, overlap, lo, i);
      } else {
        PackFromExtend(ss, size, overlap, lo, i);
        PackFromPacked(ss, size, overlap, lo, i + 1);
      }
    }
  }

  /** The facts `Packed` states about the first two runs, for any run of a packed list. */
  lemma {:induction false} PackedAt(ss: seq<string>, size: int, overlap: int, r: seq<Span>, k: nat)
    requires Packed(ss, size, overlap, r) && k < |r|
    ensures r[k].lo < r[k].hi <= |ss|
    ensures k == |r| - 1 ==> r[k].hi == |ss|
    ensures k < |r| - 1 ==> SumRange(ss, r[k].lo, r[k].hi + 1) > size
    ensures 0 < k ==> Linked(r, k) && Carried(ss, overlap, r, k)
    ensures 0 < k ==> FitsUpTo(ss, size, r[k].lo, r[k - 1].hi + 1, r[k].hi)
    decreases k
  {
    if k > 0 {
      var t := r[1..];
      PackedAt(ss, size, overlap, t, k - 1);
      assert t[k - 1] == r[k];
      if k > 1 {
        assert t[k - 2] == r[k - 1];
      }
    }
  }

  /** The first sentence of chunk `k` that the previous chunk does not hold. */
  function NewStart(r: seq<Span>, k: nat): nat
    requires k < |r|
  {
    if k == 0 then 0 else r[k - 1].hi
  }

  /** The greedy packing, stated on the runs:
      - the runs are non-empty, in order, contiguous, the first starting at sentence 0 and the
        last ending with the last sentence;
      - every sentence that joined a chunk beyond its first new one kept the summed length
        (spaces not counted) within `size`;
      - a chunk is closed only when the next sentence would take it past `size`;
      - the next chunk starts with the greedy overlap of the closed one. */
  ghost predicate IsGreedyPacking(ss: seq<string>, size: int, overlap: int, r: seq<Span>)
  {
    && (r != [] ==> r[0].lo == 0 && r[|r| - 1].hi == |ss|)
    && (forall k :: 0 <= k < |r| ==> r[k].lo < r[k].hi <= |ss|)
    && (forall k :: 0 < k < |r| ==> Linked(r, k))
    && (forall k, e :: 0 <= k < |r| && NewStart(r, k) + 1 < e <= r[k].hi ==>
          SumRange(ss, r[k].lo, e) <= size)
    && (forall k :: 0 <= k < |r| - 1 ==> SumRange(ss, r[k].lo, r[k].hi + 1) > size)
    && (forall k :: 0 < k < |r| ==> Carried(ss, overlap, r, k))
  }

  /** The size facts of `IsGreedyPacking` for one run and one end position. */
  lemma PackedFits(ss: seq<string>, size: int, overlap: int, r: seq<Span>, k: nat, e: int)
    requires Packed(ss, size, overlap, r)
    requires r != [] ==> r[0].lo == 0 && FitsUpTo(ss, size, 0, 0, r[0].hi)
    requires k < |r| && NewStart(r, k) + 1 < e <= r[k].hi
    ensures SumRange(ss, r[k].lo, e) <= size
  {
    if k > 0 {
      PackedAt(ss, size, overlap, r, k);
      assert FitsUpTo(ss, size, r[k].lo, r[k - 1].hi + 1, r[k].hi);
    } else {
      assert FitsUpTo(ss, size, 0, 0, r[0].hi);
    }
  }

  /** Packed runs that start at sentence 0 with a first chunk that fitted are a greedy packing. */
  lemma PackedGreedy(ss: seq<string>, size: int, overlap: int, r: seq<Span>)
    requires Packed(ss, size, overlap, r)
    requires r != [] ==> r[0].lo == 0 && FitsUpTo(ss, size, 0, 0, r[0].hi)
    ensures IsGreedyPacking(ss, size, overlap, r)
  {
    if r != [] {
      PackedAt(ss, size, overlap, r, |r| - 1);
    }
    forall k | 0 <= k < |r|
      ensures r[k].lo < r[k].hi <= |ss| && (k < |r| - 1 ==> SumRange(ss, r[k].lo, r[k].hi + 1) > size)
      ensures 0 < k ==> Linked(r, k) && Carried(ss, overlap, r, k)
    {
      PackedAt(ss, size, overlap, r, k);
    }
    forall k, e | 0 <= k < |r| && NewStart(r, k) + 1 < e <= r[k].hi
      ensures SumRange(ss, r[k].lo, e) <= size
    {
      PackedFits(ss, size, overlap, r, k, e);
    }
  }

  /** The specification's runs are exactly a greedy packing. */
  lemma ChunkSpansGreedy(ss: seq<string>, size: int, overlap: int)
    ensures IsGreedyPacking(ss, size, overlap, ChunkSpans(ss, size, overlap))
  {
    PackFromPacked(ss, size, overlap, 0, 0);
    PackFromFits(ss, size, overlap, 0, 0);
    PackedGreedy(ss, size, overlap, ChunkSpans(ss, size, overlap));
  }

  // ---------------------------------------------------------------------------------------------
  // What the packing guarantees

  lemma {:induction false} PackedHiBound(ss: seq<string>, size: int, overlap: int, r: seq<Span>, k: nat)
    requires Packed(ss, size, overlap, r) && k < |r|
    ensures r[k].hi >= k + 1
    decreases k
  {
    PackedAt(ss, size, overlap, r, k);
    if k > 0 {
      PackedHiBound(ss, size, overlap, r, k - 1);
    }
  }

  /** At least one chunk for a non-empty sentence list, none for an empty one, and never more
      chunks than sentences. */
  lemma ChunkCount(ss: seq<string>, size: int, overlap: int)
    ensures |ss| == 0 <==> |Chunks(ss, size, overlap)| == 0
    ensures |Chunks(ss, size, overlap)| <= |ss|
  {
    var r := ChunkSpans(ss, size, overlap);
    if r != [] {
      PackFromPacked(ss, size, overlap, 0, 0);
      PackedAt(ss, size, overlap, r, |r| - 1);
      PackedHiBound(ss, size, overlap, r, |r| - 1);
    }
  }

  /** Sentence `t` lies in one of the runs. */
  ghost predicate Covered(r: seq<Span>, t: int)
  {
    exists q :: 0 <= q < |r| && r[q].lo <= t < r[q].hi
  }

  lemma {:induction false} PackedCovers(ss: seq<string>, size: int, overlap: int, r: seq<Span>, k: nat, t: nat)
    requires Packed(ss, size, overlap, r) && k < |r| && r[0].lo <= t < r[k].hi
    ensures exists q :: 0 <= q <= k && r[q].lo <= t < r[q].hi
    decreases k
  {
    if k > 0 {
      PackedAt(ss, size, overlap, r, k);
      if t < r[k - 1].hi {
        PackedCovers(ss, size, overlap, r, k - 1, t);
      }
    }
  }

  /** Each chunk joins a non-empty run of consecutive sentences; the runs come in source order
      (starts never move back, ends strictly advance); and every sentence lands in some chunk. */
  lemma ChunkRuns(ss: seq<string>, size: int, overlap: int)
    ensures var r := ChunkSpans(ss, size, overlap);
      && |Chunks(ss, size, overlap)| == |r|
      && (forall k :: 0 <= k < |r| ==>
            (r[k].lo < r[k].hi <= |ss| && Chunks(ss, size, overlap)[k] == Join(ss[r[k].lo..r[k].hi], " ")))
      && (forall k :: 0 < k < |r| ==> r[k - 1].lo <= r[k].lo && r[k - 1].hi < r[k].hi)
      && (forall t :: 0 <= t < |ss| ==> Covered(r, t))
  {
    var r := ChunkSpans(ss, size, overlap);
    PackFromPacked(ss, size, overlap, 0, 0);
    forall k | 0 <= k < |r| ensures r[k].lo < r[k].hi <= |ss| && (0 < k ==> Linked(r, k)) {
      PackedAt(ss, size, overlap, r, k);
    }
    if r != [] {
      PackedAt(ss, size, overlap, r, |r| - 1);
    }
    forall t | 0 <= t < |ss| ensures Covered(r, t) {
      PackedCovers(ss, size, overlap, r, |r| - 1, t);
    }
  }

  /** The size bound. A chunk that took two or more sentences beyond its overlap sums to at most
      `size`; so a chunk summing past `size` is its overlap plus exactly one new sentence. */
  lemma ChunkSizeBound(ss: seq<string>, size: int, overlap: int, k: nat)
    requires k < |ChunkSpans(ss, size, overlap)|
    ensures var r := ChunkSpans(ss, size, overlap);
      && r[k].lo <= NewStart(r, k) < r[k].hi
      && (r[k].hi - NewStart(r, k) >= 2 ==> SumRange(ss, r[k].lo, r[k].hi) <= size)
      && (SumRange(ss, r[k].lo, r[k].hi) > size ==> r[k].hi == NewStart(r, k) + 1)
  {
    var r := ChunkSpans(ss, size, overlap);
    PackFromPacked(ss, size, overlap, 0, 0);
    PackFromFits(ss, size, overlap, 0, 0);
    PackedAt(ss, size, overlap, r, k);
    if r[k].hi - NewStart(r, k) >= 2 {
      PackedFits(ss, size, overlap, r, k, r[k].hi);
    }
  }

  /** The chunk's text is its sentences plus one space between each pair: the size bound on the
      summed length bounds the text by `size` plus the number of joining spaces. */
  lemma ChunkLength(ss: seq<string>, size: int, overlap: int, k: nat)
    requires k < |ChunkSpans(ss, size, overlap)|
    ensures var r := ChunkSpans(ss, size, overlap);
      && r[k].lo < r[k].hi <= |ss|
      && |Chunks(ss, size, overlap)[k]| == SumRange(ss, r[k].lo, r[k].hi) + (r[k].hi - r[k].lo - 1)
  {
    var r := ChunkSpans(ss, size, overlap);
    PackFromPacked(ss, size, overlap, 0, 0);
    PackedAt(ss, size, overlap, r, k);
    JoinLength(ss[r[k].lo..r[k].hi], " ");
    SumLenRange(ss, r[k].lo, r[k].hi);
  }

  /** The sentences a chunk carries over from the previous one are a suffix of that chunk taken
      greedily from the end: summing to at most `overlap` (or none carried), and the sentence
      before them would not have fitted (or the whole chunk was carried). */
  lemma ChunkOverlapSuffix(ss: seq<string>, size: int, overlap: int, k: nat)
    requires 0 < k < |ChunkSpans(ss, size, overlap)|
    ensures var r := ChunkSpans(ss, size, overlap);
      && r[k - 1].lo <= r[k].lo <= r[k - 1].hi <= |ss|
      && (r[k].lo == r[k - 1].hi || SumRange(ss, r[k].lo, r[k - 1].hi) <= overlap)
      && (r[k].lo == r[k - 1].lo || SumRange(ss, r[k].lo - 1, r[k - 1].hi) > overlap)
  {
    var r := ChunkSpans(ss, size, overlap);
    PackFromPacked(ss, size, overlap, 0, 0);
    PackedAt(ss, size, overlap, r, k);
    OverlapFromGreedy(ss, r[k - 1].lo, r[k - 1].hi, overlap);
  }

  /** Two overlapping runs `a` and `b`, in text: the shared sentences end `a`'s text and begin
      `b`'s. */
  lemma JoinShared(ss: seq<string>, a: Span, b: Span)
    requires a.lo <= b.lo < a.hi < b.hi <= |ss|
    ensures var carried := Join(ss[b.lo..a.hi], " ");
      && Join(ss[b.lo..b.hi], " ") == carried + " " + Join(ss[a.hi..b.hi], " ")
      && (Join(ss[a.lo..a.hi], " ") == carried
          || Join(ss[a.lo..a.hi], " ") == Join(ss[a.lo..b.lo], " ") + " " + carried)
  {
    assert ss[b.lo..b.hi] == ss[b.lo..a.hi] + ss[a.hi..b.hi];
    JoinAppend(ss[b.lo..a.hi], ss[a.hi..b.hi], " ");
    if a.lo < b.lo {
      assert ss[a.lo..a.hi] == ss[a.lo..b.lo] + ss[b.lo..a.hi];
      JoinAppend(ss[a.lo..b.lo], ss[b.lo..a.hi], " ");
    }
  }

  /** In text: when sentences are carried over, the closed chunk ends with their joined text and
      the next chunk begins with it, followed by a space and the new sentences. */
  lemma ChunkOverlapText(ss: seq<string>, size: int, overlap: int, k: nat)
    requires 0 < k < |ChunkSpans(ss, size, overlap)|
    requires ChunkSpans(ss, size, overlap)[k].lo < ChunkSpans(ss, size, overlap)[k - 1].hi
    ensures var r := ChunkSpans(ss, size, overlap);
      var c := Chunks(ss, size, overlap);
      && r[k - 1].lo <= r[k].lo < r[k - 1].hi < r[k].hi <= |ss|
      && var carried := Join(ss[r[k].lo..r[k - 1].hi], " ");
      && c[k] == carried + " " + Join(ss[r[k - 1].hi..r[k].hi], " ")
      && (c[k - 1] == carried || c[k - 1] == Join(ss[r[k - 1].lo..r[k].lo], " ") + " " + carried)
  {
    var r := ChunkSpans(ss, size, overlap);
    PackFromPacked(ss, size, overlap, 0, 0);
    PackedAt(ss, size, overlap, r, k);
    PackedAt(ss, size, overlap, r, k - 1);
    JoinShared(ss, r[k - 1], r[k]);
  }

  // ---------------------------------------------------------------------------------------------
  // The source's loop

  /** The loop's variables before sentence `i`: the open chunk is `ss[lo..i]` with its summed
      length, the chunks so far are the closed runs joined, and the closed runs followed by the
      runs still to come are the specification's runs. */
  ghost predicate AtSentence(ss: seq<string>, size: int, overlap: int, i: nat, chunks: seq<string>,
                             cur: seq<string>, curLength: int, lo: nat, closed: seq<Span>)
  {
    && lo <= i <= |ss|
    && cur == ss[lo..i]
    && curLength == SumRange(ss, lo, i)
    && chunks == JoinRuns(ss, closed)
    && closed + PackFrom(ss, size, overlap, lo, i) == ChunkSpans(ss, size, overlap)
  }

  /** The same after the chunk-closing test for sentence `i`, before it is appended. */
  ghost predicate Placing(ss: seq<string>, size: int, overlap: int, i: nat, chunks: seq<string>,
                          cur: seq<string>, curLength: int, lo: nat, closed: seq<Span>)
  {
    && lo <= i < |ss|
    && cur == ss[lo..i]
    && curLength == SumRange(ss, lo, i)
    && chunks == JoinRuns(ss, closed)
    && closed + PackFrom(ss, size, overlap, lo, i + 1) == ChunkSpans(ss, size, overlap)
  }

  lemma JoinRunsSnoc(ss: seq<string>, spans: seq<Span>, sp: Span)
    requires sp.lo <= sp.hi <= |ss|
    ensures JoinRuns(ss, spans + [sp]) == JoinRuns(ss, spans) + [Join(ss[sp.lo..sp.hi], " ")]
  {
    assert (spans + [sp])[..|spans|] == spans;
  }

  /** The overlap the reverse loop collects from the open chunk `ss[lo..i]` is the window
      `ss[i - OverlapFrom(ss, lo, i, overlap)..i]`, with its summed length. */
  lemma OverlapWindow(ss: seq<string>, overlap: int, lo: nat, i: nat, ov: seq<string>, ovLength: int)
    requires lo <= i <= |ss|
    requires var cur := ss[lo..i]; ov == cur[|cur| - OverlapFrom(cur, 0, |cur|, overlap)..]
    requires ovLength == SumLen(ov)
    ensures var lo' := i - OverlapFrom(ss, lo, i, overlap);
      lo <= lo' <= i && ov == ss[lo'..i] && ovLength == SumRange(ss, lo', i)
  {
    var lo' := i - OverlapFrom(ss, lo, i, overlap);
    OverlapFromSlice(ss, lo, i, overlap);
    assert ov == ss[lo'..i];
    SumLenRange(ss, lo', i);
  }

  /** Closing the open chunk `[lo, i)` moves its run from the runs to come to the closed ones. */
  lemma CloseRuns(ss: seq<string>, size: int, overlap: int, lo: nat, i: nat, closed: seq<Span>)
    requires lo < i < |ss| && SumRange(ss, lo, i) + |ss[i]| > size
    requires closed + PackFrom(ss, size, overlap, lo, i) == ChunkSpans(ss, size, overlap)
    ensures (closed + [Span(lo, i)]) + PackFrom(ss, size, overlap, i - OverlapFrom(ss, lo, i, overlap), i + 1)
         == ChunkSpans(ss, size, overlap)
  {
    PackFromClose(ss, size, overlap, lo, i);
    var rest := PackFrom(ss, size, overlap, i - OverlapFrom(ss, lo, i, overlap), i + 1);
    assert (closed + [Span(lo, i)]) + rest == closed + ([Span(lo, i)] + rest);
  }

  /** Closing the open chunk moves its run from the runs to come to the closed ones, and the
      overlap the reverse loop collects becomes the open chunk. */
  lemma CloseStep(ss: seq<string>, size: int, overlap: int, i: nat, chunks: seq<string>,
                  cur: seq<string>, curLength: int, lo: nat, closed: seq<Span>,
                  ov: seq<string>, ovLength: int)
    requires AtSentence(ss, size, overlap, i, chunks, cur, curLength, lo, closed)
    requires i < |ss| && curLength + |ss[i]| > size && cur != []
    requires ov == cur[|cur| - OverlapFrom(cur, 0, |cur|, overlap)..] && ovLength == SumLen(ov)
    ensures Placing(ss, size, overlap, i, chunks + [Join(cur, " ")], ov, ovLength,
                    i - OverlapFrom(ss, lo, i, overlap), closed + [Span(lo, i)])
  {
    OverlapWindow(ss, overlap, lo, i, ov, ovLength);
    CloseRuns(ss, size, overlap, lo, i, closed);
    JoinRunsSnoc(ss, closed, Span(lo, i));
  }

  /** Not closing leaves the runs to come as they are. */
  lemma KeepStep(ss: seq<string>, size: int, overlap: int, i: nat, chunks: seq<string>,
                 cur: seq<string>, curLength: int, lo: nat, closed: seq<Span>)
    requires AtSentence(ss, size, overlap, i, chunks, cur, curLength, lo, closed)
    requires i < |ss| && !(curLength + |ss[i]| > size && cur != [])
    ensures Placing(ss, size, overlap, i, chunks, cur, curLength, lo, closed)
  {
    PackFromExtend(ss, size, overlap, lo, i);
  }

  /** Appending sentence `i` to the open chunk reaches the state before sentence `i + 1`. */
  lemma AppendStep(ss: seq<string>, size: int, overlap: int, i: nat, chunks: seq<string>,
                   cur: seq<string>, curLength: int, lo: nat, closed: seq<Span>)
    requires Placing(ss, size, overlap, i, chunks, cur, curLength, lo, closed)
    ensures AtSentence(ss, size, overlap, i + 1, chunks, cur + [ss[i]], curLength + |ss[i]|, lo, closed)
  {
    assert ss[lo..i + 1] == ss[lo..i] + [ss[i]];
  }

  /** After the last sentence, closing a non-empty open chunk gives the specification's chunks. */
  lemma FinishStep(ss: seq<string>, size: int, overlap: int, chunks: seq<string>,
                   cur: seq<string>, curLength: int, lo: nat, closed: seq<Span>)
    requires AtSentence(ss, size, overlap, |ss|, chunks, cur, curLength, lo, closed)
    ensures (if cur != [] then chunks + [Join(cur, " ")] else chunks) == Chunks(ss, size, overlap)
  {
    if cur != [] {
      assert PackFrom(ss, size, overlap, lo, |ss|) == [Span(lo, |ss|)];
      JoinRunsSnoc(ss, closed, Span(lo, |ss|));
    } else {
      assert closed + [] == closed;
    }
  }

  /** The reverse loop of `chunk_text`: walk back from the last sentence of the closed chunk,
      prepending each sentence while the running total stays within `chunkOverlap`. */
  method CollectOverlap(currentChunk: seq<string>, chunkOverlap: int)
    returns (overlapSentences: seq<string>, overlapLength: int)
    ensures overlapSentences
         == currentChunk[|currentChunk| - OverlapFrom(currentChunk, 0, |currentChunk|, chunkOverlap)..]
    ensures overlapLength == SumLen(overlapSentences)
  {
    overlapSentences := [];
    overlapLength := 0;
    var m := |currentChunk|;
    while m > 0
      invariant 0 <= m <= |currentChunk|
      invariant overlapSentences == currentChunk[m..]
      invariant overlapLength == SumLen(overlapSentences)
      invariant OverlapFrom(currentChunk, 0, |currentChunk|, chunkOverlap)
             == (|currentChunk| - m) + OverlapFrom(currentChunk, 0, m, chunkOverlap - overlapLength)
      decreases m
    {
      var s := currentChunk[m - 1];
      if overlapLength + |s| <= chunkOverlap {
        assert currentChunk[m - 1..] == [s] + currentChunk[m..];
        SumLenCons(s, overlapSentences);
        overlapSentences := [s] + overlapSentences;
        overlapLength := overlapLength + |s|;
        m := m - 1;
      } else {
        break;
      }
    }
  }

  /** `chunk_text` after the split: the loop over the sentences with `chunks`, `current_chunk`
      and `current_length`. */
  method ChunkSentences(sentences: seq<string>, chunkSize: int, chunkOverlap: int)
    returns (chunks: seq<string>)
    ensures chunks == Chunks(sentences, chunkSize, chunkOverlap)
  {
    chunks := [];
    var currentChunk: seq<string> := [];
    var currentLength := 0;
    ghost var lo: nat := 0;
    ghost var closed: seq<Span> := [];
    for i := 0 to |sentences|
      invariant AtSentence(sentences, chunkSize, chunkOverlap, i, chunks, currentChunk, currentLength, lo, closed)
    {
      var sentence := sentences[i];
      var sentenceLength := |sentence|;
      if currentLength + sentenceLength > chunkSize && currentChunk != [] {
        var overlapSentences, overlapLength := CollectOverlap(currentChunk, chunkOverlap);
        CloseStep(sentences, chunkSize, chunkOverlap, i, chunks, currentChunk, currentLength, lo, closed,
                  overlapSentences, overlapLength);
        chunks := chunks + [Join(currentChunk, " ")];
        closed := closed + [Span(lo, i)];
        lo := i - OverlapFrom(sentences, lo, i, chunkOverlap);
        currentChunk := overlapSentences;
        currentLength := overlapLength;
      } else {
        KeepStep(sentences, chunkSize, chunkOverlap, i, chunks, currentChunk, currentLength, lo, closed);
      }
      AppendStep(sentences, chunkSize, chunkOverlap, i, chunks, currentChunk, currentLength, lo, closed);
      currentChunk := currentChunk + [sentence];
      currentLength := currentLength + sentenceLength;
    }
    FinishStep(sentences, chunkSize, chunkOverlap, chunks, currentChunk, currentLength, lo, closed);
    if currentChunk != [] {
      chunks := chunks + [Join(currentChunk, " ")];
    }
  }

  /** `chunk_text(text)`: split, then pack. Never an empty list; `""` gives `[""]`. */
  method ChunkText(text: string, chunkSize: int, chunkOverlap: int) returns (chunks: seq<string>)
    ensures chunks == Chunks(SplitSentences(text), chunkSize, chunkOverlap)
    ensures 1 <= |chunks| <= |SplitSentences(text)|
    ensures text == "" ==> chunks == [""]
  {
    var sentences := SplitSentences(text);
    chunks := ChunkSentences(sentences, chunkSize, chunkOverlap);
    ChunkCount(sentences, chunkSize, chunkOverlap);
    if text == "" {
      assert sentences == [""];
      assert PackFrom(sentences, chunkSize, chunkOverlap, 0, 0) == [Span(0, 1)];
    }
  }
}
