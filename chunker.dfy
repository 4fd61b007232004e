/**
 * `chunkText` of backend/lib/document-processor.ts, exactly as written.
 *
 * The cursor `start` is an `int`: `start += chunk.length - overlap` can make
 * it negative, and `text.slice` then counts from the end of the text, so the
 * model uses JavaScript's `slice` index rules. `chunkSize * 0.5` appears as
 * the integer comparison `2 * breakPoint > 2 * start + chunkSize`.
 *
 * One loop iteration is the function `Step`; `Cursor(n)` is the cursor after
 * `n` iterations. The loop exits only when the cursor reaches the text
 * length, which (for non-empty text) happens exactly when `overlap == 0` and
 * `chunkSize >= 1` (`TerminatesIff`), so the method `ChunkText` requires that.
 */
module Chunker {
  import opened Strings

  const DefaultChunkSize: nat := 1000
  const DefaultOverlap: nat := 200

  function Min(a: int, b: int): int { if a <= b then a else b }
  function Max(a: int, b: int): int { if a >= b then a else b }

  // ------------------------------------------------- JavaScript primitives

  /** How `String.prototype.slice` reads an index: negative counts from the end, clamped to `[0, len]`. */
  function SliceIndex(len: nat, i: int): (r: nat)
    ensures r <= len
    ensures 0 <= i <= len ==> r == i
  {
    if i < 0 then (if len + i < 0 then 0 else len + i) else if i > len then len else i
  }

  /** `s.slice(from, to)`. */
  function Slice(s: string, from: int, to: int): (r: string)
    ensures |r| <= |s|
    ensures 0 <= from <= to <= |s| ==> r == s[from..to]
    ensures 0 <= from <= |s| ==> |r| <= |s| - from
  {
    var a := SliceIndex(|s|, from);
    var b := SliceIndex(|s|, to);
    if a < b then s[a..b] else []
  }

  /** `s.lastIndexOf(c)`: the last offset holding `c`, or -1. */
  function LastIndexOf(s: string, c: char): (r: int)
    ensures -1 <= r < |s|
  {
    LastIndexBelow(s, c, |s|)
  }

  /** The last offset below `n` holding `c`, or -1. */
  function LastIndexBelow(s: string, c: char, n: nat): (r: int)
    requires n <= |s|
    ensures -1 <= r < n
  {
    if n == 0 then -1
    else if s[n - 1] == c then n - 1
    else LastIndexBelow(s, c, n - 1)
  }

  lemma {:induction false} LastIndexBelowIsLast(s: string, c: char, n: nat)
    requires n <= |s|
    ensures var r := LastIndexBelow(s, c, n);
      && (r >= 0 ==> s[r] == c)
      && (forall k :: r < k < n ==> s[k] != c)
  {
    if n > 0 && s[n - 1] != c {
      LastIndexBelowIsLast(s, c, n - 1);
    }
  }

  /** `lastIndexOf` finds the last occurrence: `c` sits at the result and nowhere after it. */
  lemma LastIndexOfIsLast(s: string, c: char)
    ensures var r := LastIndexOf(s, c);
      && (r >= 0 ==> s[r] == c)
      && (forall k :: r < k < |s| ==> s[k] != c)
  {
    LastIndexBelowIsLast(s, c, |s|);
  }

  // ------------------------------------------------------ one iteration

  /** `Math.min(start + chunkSize, text.length)`. */
  function WindowEnd(text: string, chunkSize: nat, start: int): int {
    Min(start + chunkSize, |text|)
  }

  /** The window before snapping: `text.slice(start, end)`. */
  function Candidate(text: string, chunkSize: nat, start: int): (c: string)
    ensures |c| <= chunkSize && |c| <= |text|
  {
    var c := Slice(text, start, WindowEnd(text, chunkSize, start));
    assert |c| <= chunkSize by {
      var a := SliceIndex(|text|, start);
      var b := SliceIndex(|text|, WindowEnd(text, chunkSize, start));
      if a < b {
        if start >= 0 {
          assert a == start || a == |text|;
          assert b <= start + chunkSize;
        } else {
          assert a >= |text| + start;
          assert b <= |text| + start + chunkSize || b <= start + chunkSize;
        }
      }
    }
    c
  }

  /** `Math.max(w.lastIndexOf('.'), w.lastIndexOf('\n'))`: an offset INSIDE the window. */
  function BreakPoint(w: string): (bp: int)
    ensures -1 <= bp < |w|
  {
    Max(LastIndexOf(w, '.'), LastIndexOf(w, '\n'))
  }

  /** The break point is the offset of the window's last `.` or `\n`, or -1 when it has neither. */
  lemma BreakPointIsLastBreak(w: string)
    ensures var bp := BreakPoint(w);
      && (bp >= 0 ==> w[bp] == '.' || w[bp] == '\n')
      && (forall k :: bp < k < |w| ==> w[k] != '.' && w[k] != '\n')
  {
    LastIndexOfIsLast(w, '.');
    LastIndexOfIsLast(w, '\n');
  }

  /**
   * The window is cut back to its last break: more text follows, and the
   * window-relative break offset exceeds the ABSOLUTE `start + chunkSize * 0.5`.
   */
  predicate Snaps(text: string, chunkSize: nat, start: int) {
    WindowEnd(text, chunkSize, start) < |text| &&
    2 * BreakPoint(Candidate(text, chunkSize, start)) > 2 * start + chunkSize
  }

  /** The raw (untrimmed) window one iteration pushes, after any snapping. */
  function Window(text: string, chunkSize: nat, start: int): (w: string)
    ensures |w| <= chunkSize && |w| <= |text|
  {
    var c := Candidate(text, chunkSize, start);
    if Snaps(text, chunkSize, start) then Slice(c, 0, BreakPoint(c) + 1) else c
  }

  /**
   * An unsnapped window is the whole candidate slice; a snapped one is the
   * candidate up to and including its last break, so a non-empty snapped
   * window ends in `.` or `\n` (from a cursor inside the text it is never empty).
   */
  lemma WindowShape(text: string, chunkSize: nat, start: int)
    ensures var c := Candidate(text, chunkSize, start);
      var w := Window(text, chunkSize, start);
      && (!Snaps(text, chunkSize, start) ==> w == c)
      && (Snaps(text, chunkSize, start) ==> w == c[..BreakPoint(c) + 1])
      && (Snaps(text, chunkSize, start) && start >= 0 ==> w != [] && (w[|w| - 1] == '.' || w[|w| - 1] == '\n'))
  {
    var c := Candidate(text, chunkSize, start);
    BreakPointIsLastBreak(c);
  }

  /** One iteration's new cursor: `start + chunk.length - overlap`. */
  function Step(text: string, chunkSize: nat, overlap: nat, start: int): int {
    start + |Window(text, chunkSize, start)| - overlap
  }

  /** The cursor after `n` iterations of the loop body. */
  function Cursor(text: string, chunkSize: nat, overlap: nat, n: nat): int {
    if n == 0 then 0 else Step(text, chunkSize, overlap, Cursor(text, chunkSize, overlap, n - 1))
  }

  // ------------------------------------------------- facts about one step

  /** From a cursor inside the text, the window is the slice of `text` that starts at the cursor. */
  lemma WindowAtCursor(text: string, chunkSize: nat, start: int)
    requires 0 <= start <= |text|
    ensures start + |Window(text, chunkSize, start)| <= |text|
    ensures Window(text, chunkSize, start) == text[start..start + |Window(text, chunkSize, start)|]
  {
    var end := WindowEnd(text, chunkSize, start);
    var c := Candidate(text, chunkSize, start);
    assert c == text[start..end];
    var w := Window(text, chunkSize, start);
    assert c[..|w|] == w;
    assert text[start..end][..|w|] == text[start..start + |w|];
  }

  /** Because the threshold is absolute, a window starting at or past (about) half a chunk is never snapped. */
  lemma {:induction false} NoSnapPastHalfChunk(text: string, chunkSize: nat, start: int)
    requires 2 * start + 2 >= chunkSize
    ensures !Snaps(text, chunkSize, start)
    ensures Window(text, chunkSize, start) == Candidate(text, chunkSize, start)
  {
    var c := Candidate(text, chunkSize, start);
    assert BreakPoint(c) < |c| <= chunkSize;
  }

  /** With no overlap and a positive chunk size the cursor moves strictly forward, never past the end. */
  lemma ProgressWithoutOverlap(text: string, chunkSize: nat, start: int)
    requires chunkSize >= 1 && 0 <= start < |text|
    ensures start < Step(text, chunkSize, 0, start) <= |text|
  {
    WindowAtCursor(text, chunkSize, start);
    var c := Candidate(text, chunkSize, start);
    assert c == text[start..WindowEnd(text, chunkSize, start)];
    if Snaps(text, chunkSize, start) {
      assert |Window(text, chunkSize, start)| == BreakPoint(c) + 1;
    }
  }

  /** Whenever the overlap is positive (or no text is taken), a cursor below the text length stays below it. */
  lemma CursorStaysBelowEnd(text: string, chunkSize: nat, overlap: nat, start: int)
    requires overlap > 0 || chunkSize == 0
    requires start < |text|
    ensures Step(text, chunkSize, overlap, start) < |text|
  {
    var w := Window(text, chunkSize, start);
    if start >= 0 {
      WindowAtCursor(text, chunkSize, start);
      if chunkSize == 0 {
        assert Candidate(text, chunkSize, start) == [];
      }
    } else if chunkSize == 0 {
      assert Candidate(text, chunkSize, start) == [];
    }
  }

  /** The cursor `|text| - overlap` maps to itself, and it lies inside the text. */
  lemma FixedPoint(text: string, chunkSize: nat, overlap: nat)
    requires 0 < overlap <= chunkSize && overlap <= |text|
    ensures 0 <= |text| - overlap < |text|
    ensures Step(text, chunkSize, overlap, |text| - overlap) == |text| - overlap
  {
    var start := |text| - overlap;
    assert WindowEnd(text, chunkSize, start) == |text|;
    assert !Snaps(text, chunkSize, start);
    assert Window(text, chunkSize, start) == text[start..|text|];
  }

  /** A text no longer than one chunk reaches that fixed point after the first iteration. */
  lemma ShortTextReachesFixedPoint(text: string, chunkSize: nat, overlap: nat)
    requires 0 < overlap <= |text| <= chunkSize
    ensures Cursor(text, chunkSize, overlap, 1) == |text| - overlap
    ensures forall n: nat :: n >= 1 ==> Cursor(text, chunkSize, overlap, n) == |text| - overlap
  {
    assert WindowEnd(text, chunkSize, 0) == |text|;
    assert Window(text, chunkSize, 0) == text[0..|text|];
    forall n: nat | n >= 1 ensures Cursor(text, chunkSize, overlap, n) == |text| - overlap {
      StaysAtFixedPoint(text, chunkSize, overlap, n);
    }
  }

  lemma {:induction false} StaysAtFixedPoint(text: string, chunkSize: nat, overlap: nat, n: nat)
    requires 0 < overlap <= |text| <= chunkSize
    requires Cursor(text, chunkSize, overlap, 1) == |text| - overlap
    requires n >= 1
    ensures Cursor(text, chunkSize, overlap, n) == |text| - overlap
  {
    if n > 1 {
      StaysAtFixedPoint(text, chunkSize, overlap, n - 1);
      FixedPoint(text, chunkSize, overlap);
    }
  }

  // ---------------------------------------------------- the whole loop

  /** Non-termination: with a positive overlap (or a zero chunk size) the loop over non-empty text never exits. */
  lemma {:induction false} NeverExits(text: string, chunkSize: nat, overlap: nat, n: nat)
    requires overlap > 0 || chunkSize == 0
    requires |text| > 0
    ensures Cursor(text, chunkSize, overlap, n) < |text|
  {
    if n > 0 {
      NeverExits(text, chunkSize, overlap, n - 1);
      CursorStaysBelowEnd(text, chunkSize, overlap, Cursor(text, chunkSize, overlap, n - 1));
    }
  }

  lemma {:induction false} CursorAdvances(text: string, chunkSize: nat, n: nat)
    requires chunkSize >= 1
    ensures Cursor(text, chunkSize, 0, n) >= Min(n, |text|)
  {
    if n > 0 {
      CursorAdvances(text, chunkSize, n - 1);
      var c := Cursor(text, chunkSize, 0, n - 1);
      if c < |text| {
        ProgressWithoutOverlap(text, chunkSize, c);
      }
    }
  }

  /** For non-empty text the loop exits after some number of iterations exactly when `overlap == 0 && chunkSize >= 1`. */
  lemma TerminatesIff(text: string, chunkSize: nat, overlap: nat)
    requires |text| > 0
    ensures (exists n: nat :: Cursor(text, chunkSize, overlap, n) >= |text|) <==> (overlap == 0 && chunkSize >= 1)
  {
    if overlap == 0 && chunkSize >= 1 {
      CursorAdvances(text, chunkSize, |text|);
    } else {
      forall n: nat ensures Cursor(text, chunkSize, overlap, n) < |text| {
        NeverExits(text, chunkSize, overlap, n);
      }
    }
  }

  // ------------------------------------- the terminating case, overlap == 0

  /** One iteration's record: the cursor and the raw window taken from it. */
  datatype Cut = Cut(start: nat, raw: string)

  /** The offset from `lo` of the last `.` or `\n` in `text[lo..hi]`, or -1: `BreakPoint` read in place. */
  function BreakBelow(text: string, lo: nat, hi: nat): (bp: int)
    requires lo <= hi <= |text|
    ensures -1 <= bp < hi - lo
    decreases hi
  {
    if hi == lo then -1
    else if text[hi - 1] == '.' || text[hi - 1] == '\n' then hi - 1 - lo
    else BreakBelow(text, lo, hi - 1)
  }

  /** A stretch without `.` or `\n` has no break. */
  lemma {:induction false} BreakBelowNone(text: string, lo: nat, hi: nat)
    requires lo <= hi <= |text|
    requires forall i :: lo <= i < hi ==> text[i] != '.' && text[i] != '\n'
    ensures BreakBelow(text, lo, hi) == -1
    decreases hi
  {
    if hi > lo {
      BreakBelowNone(text, lo, hi - 1);
    }
  }

  lemma {:induction false} BreakBelowPrefix(text: string, lo: nat, hi: nat, n: nat)
    requires lo <= hi <= |text| && n <= hi - lo
    ensures var c := text[lo..hi];
      Max(LastIndexBelow(c, '.', n), LastIndexBelow(c, '\n', n)) == BreakBelow(text, lo, lo + n)
  {
    var c := text[lo..hi];
    if n > 0 {
      assert c[n - 1] == text[lo + n - 1];
      if c[n - 1] != '.' && c[n - 1] != '\n' {
        BreakBelowPrefix(text, lo, hi, n - 1);
      }
    }
  }

  /** The break point of a slice of the text is the last break found in place. */
  lemma BreakPointInPlace(text: string, lo: nat, hi: nat)
    requires lo <= hi <= |text|
    ensures BreakPoint(text[lo..hi]) == BreakBelow(text, lo, hi)
  {
    BreakBelowPrefix(text, lo, hi, hi - lo);
  }

  /**
   * The length of `Window` from a cursor inside the text (`WindowFromCursor`):
   * up to the last break when the snap test holds, otherwise up to the
   * window end. From a cursor before the end it is never zero.
   */
  function WindowLength(text: string, chunkSize: nat, start: nat): (n: nat)
    requires start <= |text|
    ensures n <= chunkSize && start + n <= |text|
    ensures chunkSize >= 1 && start < |text| ==> n >= 1
  {
    var end := Min(start + chunkSize, |text|);
    var bp := BreakBelow(text, start, end);
    if end < |text| && 2 * bp > 2 * start + chunkSize then bp + 1 else end - start
  }

  /** From a cursor inside the text, `Window` is the slice of that length at the cursor. */
  lemma WindowFromCursor(text: string, chunkSize: nat, start: int)
    requires 0 <= start <= |text|
    ensures Window(text, chunkSize, start) == text[start..start + WindowLength(text, chunkSize, start)]
  {
    var end := Min(start + chunkSize, |text|);
    var c := Candidate(text, chunkSize, start);
    assert c == text[start..end];
    BreakPointInPlace(text, start, end);
    if Snaps(text, chunkSize, start) {
      var bp := BreakPoint(c);
      assert Slice(c, 0, bp + 1) == c[..bp + 1] == text[start..start + bp + 1];
    }
  }

  /** The cuts the loop makes from cursor `start` when `overlap == 0`. */
  function Cuts(text: string, chunkSize: nat, start: nat): seq<Cut>
    requires chunkSize >= 1
    decreases |text| - start
  {
    if start >= |text| then []
    else
      var n := WindowLength(text, chunkSize, start);
      [Cut(start, text[start..start + n])] + Cuts(text, chunkSize, start + n)
  }

  /** What the loop pushes for a list of cuts: each raw window, trimmed. */
  function Pushed(cuts: seq<Cut>): (r: seq<string>)
    ensures |r| == |cuts|
  {
    if cuts == [] then [] else Pushed(cuts[..|cuts| - 1]) + [Trim(cuts[|cuts| - 1].raw)]
  }

  lemma PushedAppend(cuts: seq<Cut>, c: Cut)
    ensures Pushed(cuts + [c]) == Pushed(cuts) + [Trim(c.raw)]
  {
    assert (cuts + [c])[..|cuts|] == cuts;
  }

  /** Entry `k` of what is pushed is the trimmed window of cut `k`. */
  lemma {:induction false} PushedAt(cuts: seq<Cut>, k: nat)
    requires k < |cuts|
    ensures Pushed(cuts)[k] == Trim(cuts[k].raw)
    decreases |cuts|
  {
    if k < |cuts| - 1 {
      PushedAt(cuts[..|cuts| - 1], k);
    }
  }

  lemma ConsAssoc<T>(a: seq<T>, x: T, r: seq<T>)
    ensures a + ([x] + r) == (a + [x]) + r
  {
  }

  /** `chunks.filter(chunk => chunk.length > 0)`. */
  function NonEmpty(xs: seq<string>): (r: seq<string>)
    ensures |r| <= |xs|
    ensures forall c :: c in r ==> c != [] && c in xs
    ensures forall c :: c in xs && c != [] ==> c in r
  {
    if xs == [] then []
    else if xs[0] == [] then NonEmpty(xs[1..])
    else [xs[0]] + NonEmpty(xs[1..])
  }

  /** The positions from `n` on that the filter keeps: those of the non-empty entries, in increasing order. */
  function KeptFrom(xs: seq<string>, n: nat): seq<nat>
    decreases |xs| - n
  {
    if n >= |xs| then []
    else (if xs[n] == [] then [] else [n]) + KeptFrom(xs, n + 1)
  }

  /** The positions the filter keeps. */
  function KeptIndices(xs: seq<string>): seq<nat> {
    KeptFrom(xs, 0)
  }

  /** From position `n` on, result `j` of the filter is entry `KeptFrom(xs, n)[j]`, a position from `n` on. */
  lemma {:induction false} KeptFromPicks(xs: seq<string>, n: nat)
    requires n <= |xs|
    ensures var idx, r := KeptFrom(xs, n), NonEmpty(xs[n..]);
      && |idx| == |r|
      && (forall j :: 0 <= j < |idx| ==> n <= idx[j] < |xs| && r[j] == xs[idx[j]])
    decreases |xs| - n
  {
    if n < |xs| {
      KeptFromPicks(xs, n + 1);
      assert xs[n..][0] == xs[n] && xs[n..][1..] == xs[n + 1..];
    }
  }

  /** The kept positions increase strictly, and a position from `n` on is kept exactly when its entry is non-empty. */
  lemma {:induction false} KeptFromExact(xs: seq<string>, n: nat)
    requires n <= |xs|
    ensures var idx := KeptFrom(xs, n);
      && (forall j :: 0 <= j < |idx| ==> n <= idx[j])
      && (forall i, j :: 0 <= i < j < |idx| ==> idx[i] < idx[j])
      && (forall p :: n <= p < |xs| ==> (p in idx <==> xs[p] != []))
    decreases |xs| - n
  {
    if n < |xs| {
      KeptFromExact(xs, n + 1);
    }
  }

  /**
   * The filter keeps the non-empty entries in their order and with their
   * multiplicity: result `j` is entry `KeptIndices(xs)[j]`, the kept
   * positions increase strictly, and a position is kept exactly when its
   * entry is non-empty.
   */
  lemma NonEmptyInOrder(xs: seq<string>)
    ensures var idx, r := KeptIndices(xs), NonEmpty(xs);
      && |idx| == |r|
      && (forall j :: 0 <= j < |idx| ==> idx[j] < |xs| && r[j] == xs[idx[j]])
      && (forall i, j :: 0 <= i < j < |idx| ==> idx[i] < idx[j])
      && (forall p :: 0 <= p < |xs| ==> (p in idx <==> xs[p] != []))
  {
    assert xs[0..] == xs;
    KeptFromPicks(xs, 0);
    KeptFromExact(xs, 0);
  }

  /** Filtering a concatenation filters each part. */
  lemma {:induction false} NonEmptyAppend(a: seq<string>, b: seq<string>)
    ensures NonEmpty(a + b) == NonEmpty(a) + NonEmpty(b)
  {
    if a != [] {
      assert (a + b)[0] == a[0] && (a + b)[1..] == a[1..] + b;
      NonEmptyAppend(a[1..], b);
      if a[0] != [] {
        assert NonEmpty(a + b) == [a[0]] + NonEmpty(a[1..] + b);
        assert NonEmpty(a) == [a[0]] + NonEmpty(a[1..]);
      }
    } else {
      assert a + b == b;
    }
  }

  /** A single entry passes the filter exactly when it is non-empty. */
  lemma NonEmptySingle(x: string)
    ensures NonEmpty([x]) == (if x == [] then [] else [x])
  {
    assert [x][1..] == [];
  }

  /** What `chunkText(text, chunkSize, 0)` returns. */
  function Chunks(text: string, chunkSize: nat): seq<string>
    requires chunkSize >= 1
  {
    NonEmpty(Pushed(Cuts(text, chunkSize, 0)))
  }

  /** Raw windows written one after the other. */
  function Joined(cuts: seq<Cut>): string {
    if cuts == [] then [] else cuts[0].raw + Joined(cuts[1..])
  }

  lemma CutsUnfold(text: string, chunkSize: nat, start: nat)
    requires chunkSize >= 1 && start < |text|
    ensures var n := WindowLength(text, chunkSize, start);
      var cs := Cuts(text, chunkSize, start);
      var w := text[start..start + n];
      && 1 <= n && start + n <= |text| && |w| == n
      && cs == [Cut(start, w)] + Cuts(text, chunkSize, start + n)
      && cs[0] == Cut(start, w) && cs[1..] == Cuts(text, chunkSize, start + n)
  {
  }

  /**
   * The cut `c` is the window at cursor `start`: it starts there, holds the
   * 1 or more characters of the text found there, as many as the window's
   * length.
   */
  predicate TileAt(text: string, chunkSize: nat, c: Cut, start: nat) {
    && c.start == start && 1 <= |c.raw| && start + |c.raw| <= |text|
    && |c.raw| == WindowLength(text, chunkSize, start)
    && c.raw == text[start..start + |c.raw|]
  }

  /**
   * `cs` tiles the text from `start` on: each cut is the window at the
   * cursor where the previous one ended, and the last one ends at the end of
   * the text.
   */
  predicate Tiles(text: string, chunkSize: nat, cs: seq<Cut>, start: nat)
    decreases |cs|
  {
    if cs == [] then start == |text|
    else TileAt(text, chunkSize, cs[0], start) && Tiles(text, chunkSize, cs[1..], start + |cs[0].raw|)
  }

  /** Cut `k` of a tiling: where it lies in the text and where the next cut starts. */
  lemma {:induction false} TilesAt(text: string, chunkSize: nat, cs: seq<Cut>, start: nat, k: nat)
    requires Tiles(text, chunkSize, cs, start) && k < |cs|
    ensures start <= cs[k].start && TileAt(text, chunkSize, cs[k], cs[k].start)
    ensures k + 1 < |cs| ==> cs[k + 1].start == cs[k].start + |cs[k].raw|
    ensures k + 1 == |cs| ==> cs[k].start + |cs[k].raw| == |text|
    decreases k
  {
    var rest := cs[1..];
    if k == 0 {
      if rest != [] {
        assert rest[0] == cs[1];
      }
    } else {
      TilesAt(text, chunkSize, rest, start + |cs[0].raw|, k - 1);
      assert rest[k - 1] == cs[k];
      if k + 1 < |cs| {
        assert rest[k] == cs[k + 1];
      }
    }
  }

  /** The pieces of a tiling, written one after the other, are the text from its first cursor on. */
  lemma {:induction false} TilesJoined(text: string, chunkSize: nat, cs: seq<Cut>, start: nat)
    requires Tiles(text, chunkSize, cs, start)
    ensures start <= |text| && Joined(cs) == text[start..]
    decreases |cs|
  {
    if cs != [] {
      var w := cs[0].raw;
      TilesJoined(text, chunkSize, cs[1..], start + |w|);
      assert text[start..] == w + text[start + |w|..];
    }
  }

  /** The loop's cuts tile the text from the cursor on. */
  lemma {:induction false} CutsAreTiles(text: string, chunkSize: nat, start: nat)
    requires chunkSize >= 1 && start <= |text|
    ensures Tiles(text, chunkSize, Cuts(text, chunkSize, start), start)
    decreases |text| - start
  {
    if start < |text| {
      var n := WindowLength(text, chunkSize, start);
      var cs := Cuts(text, chunkSize, start);
      CutsUnfold(text, chunkSize, start);
      CutsAreTiles(text, chunkSize, start + n);
      assert TileAt(text, chunkSize, cs[0], start);
      assert Tiles(text, chunkSize, cs[1..], start + |cs[0].raw|);
    }
  }

  /**
   * Cut `k` made from cursor `start` is the window taken at its own cursor,
   * which lies inside the text, and the next cut starts where it ends.
   */
  lemma CutAt(text: string, chunkSize: nat, start: nat, k: nat)
    requires chunkSize >= 1
    requires k < |Cuts(text, chunkSize, start)|
    ensures var cs := Cuts(text, chunkSize, start);
      && start <= cs[k].start < |text|
      && cs[k].raw == Window(text, chunkSize, cs[k].start)
      && (k + 1 < |cs| ==> cs[k + 1].start == cs[k].start + |cs[k].raw|)
      && (k + 1 == |cs| ==> cs[k].start + |cs[k].raw| == |text|)
  {
    var cs := Cuts(text, chunkSize, start);
    assert start < |text|;
    CutsAreTiles(text, chunkSize, start);
    TilesAt(text, chunkSize, cs, start, k);
    WindowFromCursor(text, chunkSize, cs[k].start);
  }

  /**
   * The cuts tile the text: each raw window is the slice of `text` at its
   * cursor, 1 to `chunkSize` characters long, and the next cut starts where
   * it ends, so the first cut starts at the cursor and the last ends at the
   * end of the text.
   */
  lemma CutsTile(text: string, chunkSize: nat, k: nat)
    requires chunkSize >= 1
    requires k < |Cuts(text, chunkSize, 0)|
    ensures var c := Cuts(text, chunkSize, 0)[k];
      && 1 <= |c.raw| <= chunkSize
      && c.start + |c.raw| <= |text|
      && c.raw == text[c.start..c.start + |c.raw|]
    ensures k == 0 ==> Cuts(text, chunkSize, 0)[k].start == 0
  {
    var cs := Cuts(text, chunkSize, 0);
    CutsAreTiles(text, chunkSize, 0);
    TilesAt(text, chunkSize, cs, 0, k);
  }

  /** With no overlap the raw windows concatenate to exactly the text after the cursor. */
  lemma CutsCoverText(text: string, chunkSize: nat, start: nat)
    requires chunkSize >= 1 && start <= |text|
    ensures Joined(Cuts(text, chunkSize, start)) == text[start..]
  {
    CutsAreTiles(text, chunkSize, start);
    TilesJoined(text, chunkSize, Cuts(text, chunkSize, start), start);
  }

  /** No window starting at or past half a chunk is snapped: from there on every cut is a full fixed-size window. */
  lemma LateCutsAreUnsnapped(text: string, chunkSize: nat, k: nat)
    requires chunkSize >= 1
    requires k < |Cuts(text, chunkSize, 0)|
    requires 2 * Cuts(text, chunkSize, 0)[k].start + 2 >= chunkSize
    ensures var c := Cuts(text, chunkSize, 0)[k];
      && c.raw == Candidate(text, chunkSize, c.start)
      && c.start + |c.raw| <= |text| && c.raw == text[c.start..c.start + |c.raw|]
      && |c.raw| == Min(chunkSize, |text| - c.start)
  {
    var c := Cuts(text, chunkSize, 0)[k];
    CutAt(text, chunkSize, 0, k);
    NoSnapPastHalfChunk(text, chunkSize, c.start);
    WindowAtCursor(text, chunkSize, c.start);
  }

  /** Every returned chunk is non-empty and is the trim of one of the raw windows. */
  lemma ChunksAreTrimmedWindows(text: string, chunkSize: nat, c: string)
    requires chunkSize >= 1
    requires c in Chunks(text, chunkSize)
    ensures c != []
    ensures exists k :: 0 <= k < |Cuts(text, chunkSize, 0)| && c == Trim(Cuts(text, chunkSize, 0)[k].raw)
  {
    var cs := Cuts(text, chunkSize, 0);
    var t := Pushed(cs);
    assert c in t;
    var k :| 0 <= k < |t| && t[k] == c;
    PushedAt(cs, k);
  }

  /**
   * The chunks come out in the order of their windows: chunk `j` is the trim
   * of cut `KeptIndices(...)[j]`, those cut numbers increase strictly, and a
   * cut yields a chunk exactly when its trim is non-empty.
   */
  lemma ChunksInOrder(text: string, chunkSize: nat)
    requires chunkSize >= 1
    ensures var cs := Cuts(text, chunkSize, 0);
      var idx, r := KeptIndices(Pushed(cs)), Chunks(text, chunkSize);
      && |idx| == |r|
      && (forall j :: 0 <= j < |idx| ==> idx[j] < |cs| && r[j] == Trim(cs[idx[j]].raw))
      && (forall i, j :: 0 <= i < j < |idx| ==> idx[i] < idx[j])
      && (forall k :: 0 <= k < |cs| ==> (k in idx <==> Trim(cs[k].raw) != []))
  {
    var cs := Cuts(text, chunkSize, 0);
    NonEmptyInOrder(Pushed(cs));
    forall k | 0 <= k < |cs| ensures Pushed(cs)[k] == Trim(cs[k].raw) {
      PushedAt(cs, k);
    }
  }

  /** The head of the loop body: slice the window and cut it back to its last break when the snap test holds. */
  method TakeWindow(text: string, chunkSize: nat, start: nat) returns (chunk: string)
    requires start <= |text|
    ensures chunk == text[start..start + WindowLength(text, chunkSize, start)]
  {
    var end := Min(start + chunkSize, |text|);
    chunk := Slice(text, start, end);
    if end < |text| {
      var lastSentence := LastIndexOf(chunk, '.');
      var lastNewline := LastIndexOf(chunk, '\n');
      var breakPoint := Max(lastSentence, lastNewline);
      if 2 * breakPoint > 2 * start + chunkSize {
        chunk := Slice(chunk, 0, breakPoint + 1);
      }
    }
    assert chunk == Window(text, chunkSize, start);
    WindowFromCursor(text, chunkSize, start);
  }

  /** One iteration's bookkeeping: the cut taken at the old cursor moves from the cuts still to come to the cuts done. */
  lemma CutsStep(text: string, chunkSize: nat, done: seq<Cut>, start: nat, chunk: string, done': seq<Cut>, start': nat)
    requires chunkSize >= 1 && start < |text|
    requires Cuts(text, chunkSize, 0) == done + Cuts(text, chunkSize, start)
    requires chunk == text[start..start + WindowLength(text, chunkSize, start)]
    requires done' == done + [Cut(start, chunk)] && start' == start + |chunk|
    ensures start < start' <= |text|
    ensures Cuts(text, chunkSize, 0) == done' + Cuts(text, chunkSize, start')
  {
    var n := WindowLength(text, chunkSize, start);
    CutsUnfold(text, chunkSize, start);
    assert |chunk| == n;
    calc {
      Cuts(text, chunkSize, 0);
      done + Cuts(text, chunkSize, start);
      done + ([Cut(start, chunk)] + Cuts(text, chunkSize, start'));
      { ConsAssoc(done, Cut(start, chunk), Cuts(text, chunkSize, start')); }
      done' + Cuts(text, chunkSize, start');
    }
  }

  /**
   * The loop of `chunkText` in its one terminating configuration: it pushes
   * the trimmed window of each iteration, then drops the empty chunks.
   */
  method ChunkText(text: string, chunkSize: nat, overlap: nat) returns (chunks: seq<string>)
    requires overlap == 0 && chunkSize >= 1
    ensures chunks == Chunks(text, chunkSize)
  {
    var pushed: seq<string> := [];
    var start: nat := 0;
    ghost var done: seq<Cut> := [];
    while start < |text|
      invariant 0 <= start <= |text|
      invariant Cuts(text, chunkSize, 0) == done + Cuts(text, chunkSize, start)
      invariant pushed == Pushed(done)
      decreases |text| - start
    {
      var chunk := TakeWindow(text, chunkSize, start);
      ghost var done0, start0 := done, start;
      pushed := pushed + [Trim(chunk)];
      done := done + [Cut(start, chunk)];
      start := start + |chunk| - overlap;
      CutsStep(text, chunkSize, done0, start0, chunk, done, start);
      PushedAppend(done0, Cut(start0, chunk));
    }
    assert Cuts(text, chunkSize, start) == [];
    assert done + [] == done;
    chunks := NonEmpty(pushed);
  }
}
