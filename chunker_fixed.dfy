/**
 * A corrected `chunkText`: the loop ends after the window that reaches the
 * end of the text, the cursor always advances by at least one character, and
 * a window is snapped when its last `.` or `\n` lies in the back half of the
 * WINDOW (the threshold is relative, not absolute). This is the chunker the
 * ingestion model uses; the as-written loop is in module Chunker, which shows
 * that it does not terminate with the default overlap.
 */
module FixedChunker {
  import opened Strings
  import opened Chunker

  /** The window is snapped when more text follows and its last break lies past half the chunk size. */
  predicate FixedSnaps(text: string, chunkSize: nat, start: nat)
    requires start <= |text|
  {
    start + chunkSize < |text| &&
    2 * BreakPoint(text[start..start + chunkSize]) > chunkSize
  }

  /** The raw window taken at `start`, after snapping. */
  function FixedWindow(text: string, chunkSize: nat, start: nat): (w: string)
    requires start <= |text|
    ensures |w| <= chunkSize && start + |w| <= |text|
    ensures w == text[start..start + |w|]
  {
    var c := text[start..Min(start + chunkSize, |text|)];
    if FixedSnaps(text, chunkSize, start) then c[..BreakPoint(c) + 1] else c
  }

  /** How far the cursor moves after a window of `rawLength` characters: keep `overlap` characters, but move at least one. */
  function Advance(rawLength: nat, overlap: nat): (d: nat)
    ensures d >= 1
    ensures rawLength >= 1 ==> d <= rawLength
    ensures rawLength > overlap ==> d == rawLength - overlap
  {
    if rawLength > overlap then rawLength - overlap else 1
  }

  /** The cursor after the window at `start`: the end of the text once a window reaches it. */
  function FixedNext(text: string, chunkSize: nat, overlap: nat, start: nat): (next: nat)
    requires start < |text|
    ensures start < next <= |text|
  {
    var w := FixedWindow(text, chunkSize, start);
    if start + |w| >= |text| then |text| else start + Advance(|w|, overlap)
  }

  function FixedCuts(text: string, chunkSize: nat, overlap: nat, start: nat): seq<Cut>
    decreases |text| - start
  {
    if start >= |text| then []
    else
      [Cut(start, FixedWindow(text, chunkSize, start))]
        + FixedCuts(text, chunkSize, overlap, FixedNext(text, chunkSize, overlap, start))
  }

  /** What the corrected chunker returns. */
  function FixedChunks(text: string, chunkSize: nat, overlap: nat): seq<string> {
    NonEmpty(Pushed(FixedCuts(text, chunkSize, overlap, 0)))
  }

  /** A snapped window ends at its last break and is longer than half a chunk: snapping never leaves a tiny chunk. */
  lemma FixedSnapKeepsBackHalf(text: string, chunkSize: nat, start: nat)
    requires start <= |text| && FixedSnaps(text, chunkSize, start)
    ensures var w := FixedWindow(text, chunkSize, start);
      && 2 * |w| > chunkSize + 2
      && (w[|w| - 1] == '.' || w[|w| - 1] == '\n')
  {
    var c := text[start..start + chunkSize];
    BreakPointIsLastBreak(c);
  }

  /**
   * The corrected window depends only on the text from the cursor on: the
   * window at `start` is the window at 0 of `text[start..]`, so a break is
   * judged by its place in its own window, wherever the window starts.
   */
  lemma FixedWindowShift(text: string, chunkSize: nat, start: nat)
    requires start <= |text|
    ensures FixedWindow(text, chunkSize, start) == FixedWindow(text[start..], chunkSize, 0)
  {
    assert text[start..Min(start + chunkSize, |text|)] == text[start..][0..Min(chunkSize, |text| - start)];
    if start + chunkSize < |text| {
      assert text[start..start + chunkSize] == text[start..][0..chunkSize];
    }
  }

  /** The original window fails that shift: on the sample text its window at 10 differs from the window at 0 of the text from 10 on. */
  lemma MixedFrameShiftAsWritten()
    ensures Window(MixedFrameText, 10, 10) != Window(MixedFrameText[10..], 10, 0)
  {
    var t := MixedFrameText;
    MixedFrameBreaks();
    WindowFromCursor(t, 10, 10);
    WindowFromCursor(t[10..], 10, 0);
    assert WindowLength(t, 10, 10) == 10;
    assert t[10..][0..10] == t[10..20];
    assert BreakBelow(t[10..], 0, 10) == 7 by {
      BreakPointInPlace(t, 10, 20);
      BreakPointInPlace(t[10..], 0, 10);
    }
    assert WindowLength(t[10..], 10, 0) == 8;
  }

  lemma FixedCutsUnfold(text: string, chunkSize: nat, overlap: nat, start: nat)
    requires start < |text|
    ensures FixedCuts(text, chunkSize, overlap, start)
      == [Cut(start, FixedWindow(text, chunkSize, start))]
         + FixedCuts(text, chunkSize, overlap, FixedNext(text, chunkSize, overlap, start))
  {
  }

  /**
   * Coverage: with a positive chunk size every character of the text from
   * `start` on lies inside some raw window, so nothing is dropped except what
   * trimming removes.
   */
  lemma {:induction false} FixedCutsCover(text: string, chunkSize: nat, overlap: nat, start: nat, i: nat)
    requires chunkSize >= 1 && start <= i < |text|
    ensures exists k :: (0 <= k < |FixedCuts(text, chunkSize, overlap, start)| &&
                         FixedCuts(text, chunkSize, overlap, start)[k].start <= i <
                         FixedCuts(text, chunkSize, overlap, start)[k].start + |FixedCuts(text, chunkSize, overlap, start)[k].raw|)
    decreases |text| - start
  {
    var cs := FixedCuts(text, chunkSize, overlap, start);
    var w := FixedWindow(text, chunkSize, start);
    var next := FixedNext(text, chunkSize, overlap, start);
    FixedCutsUnfold(text, chunkSize, overlap, start);
    assert cs[0] == Cut(start, w);
    assert |w| >= 1;
    if i < start + |w| {
      assert cs[0].start <= i < cs[0].start + |cs[0].raw|;
    } else {
      assert next <= start + |w| <= i;
      FixedCutsCover(text, chunkSize, overlap, next, i);
      var rest := FixedCuts(text, chunkSize, overlap, next);
      var k :| 0 <= k < |rest| && rest[k].start <= i < rest[k].start + |rest[k].raw|;
      assert cs[k + 1] == rest[k];
    }
  }

  /** Cut `k` made from cursor `start` is the window at its own cursor, and the next cut starts at the advanced cursor. */
  lemma {:induction false} FixedCutAt(text: string, chunkSize: nat, overlap: nat, start: nat, k: nat)
    requires k < |FixedCuts(text, chunkSize, overlap, start)|
    ensures var cs := FixedCuts(text, chunkSize, overlap, start);
      && start <= cs[k].start < |text|
      && cs[k].raw == FixedWindow(text, chunkSize, cs[k].start)
      && (k + 1 < |cs| ==> cs[k + 1].start == FixedNext(text, chunkSize, overlap, cs[k].start) < |text|)
      && (k + 1 == |cs| ==> FixedNext(text, chunkSize, overlap, cs[k].start) == |text|)
    decreases |text| - start
  {
    FixedCutsUnfold(text, chunkSize, overlap, start);
    var next := FixedNext(text, chunkSize, overlap, start);
    if k == 0 {
      if next < |text| {
        FixedCutsUnfold(text, chunkSize, overlap, next);
      }
    } else {
      FixedCutAt(text, chunkSize, overlap, next, k - 1);
    }
  }

  /**
   * Consecutive cuts: each raw window is the slice of the text at its cursor;
   * when a window is longer than the overlap the next one starts exactly
   * `overlap` characters before its end, and never after its end.
   */
  lemma FixedCutsOverlap(text: string, chunkSize: nat, overlap: nat, k: nat)
    requires chunkSize >= 1
    requires k + 1 < |FixedCuts(text, chunkSize, overlap, 0)|
    ensures var cs := FixedCuts(text, chunkSize, overlap, 0);
      && cs[k].start + |cs[k].raw| <= |text|
      && cs[k].raw == text[cs[k].start..cs[k].start + |cs[k].raw|]
      && cs[k].start < cs[k + 1].start <= cs[k].start + |cs[k].raw|
      && (|cs[k].raw| > overlap ==> cs[k + 1].start == cs[k].start + |cs[k].raw| - overlap)
  {
    var cs := FixedCuts(text, chunkSize, overlap, 0);
    FixedCutAt(text, chunkSize, overlap, 0, k);
    var w := FixedWindow(text, chunkSize, cs[k].start);
    assert |w| >= 1;
  }

  /** The corrected loop makes at most one cut per character of the text it has left. */
  lemma {:induction false} FixedCutsCount(text: string, chunkSize: nat, overlap: nat, start: nat)
    requires start <= |text|
    ensures |FixedCuts(text, chunkSize, overlap, start)| <= |text| - start
    decreases |text| - start
  {
    if start < |text| {
      FixedCutsUnfold(text, chunkSize, overlap, start);
      FixedCutsCount(text, chunkSize, overlap, FixedNext(text, chunkSize, overlap, start));
    }
  }

  /** Each raw window of the corrected loop is the slice of the text at its cursor. */
  lemma FixedCutIsSlice(text: string, chunkSize: nat, overlap: nat, k: nat)
    requires k < |FixedCuts(text, chunkSize, overlap, 0)|
    ensures var c := FixedCuts(text, chunkSize, overlap, 0)[k];
      c.start + |c.raw| <= |text| && c.raw == text[c.start..c.start + |c.raw|]
  {
    FixedCutAt(text, chunkSize, overlap, 0, k);
  }

  /**
   * Every chunk the corrected loop returns is non-empty and is the trim of a
   * raw window, which by `FixedCutIsSlice` is a contiguous slice of the text.
   */
  lemma FixedChunksAreTrimmedWindows(text: string, chunkSize: nat, overlap: nat, c: string)
    requires c in FixedChunks(text, chunkSize, overlap)
    ensures c != []
    ensures exists k :: 0 <= k < |FixedCuts(text, chunkSize, overlap, 0)| && c == Trim(FixedCuts(text, chunkSize, overlap, 0)[k].raw)
  {
    var cuts := FixedCuts(text, chunkSize, overlap, 0);
    var t := Pushed(cuts);
    assert c in t;
    var k :| 0 <= k < |t| && t[k] == c;
    PushedAt(cuts, k);
  }

  /**
   * The corrected chunks come out in the order of their windows: chunk `j`
   * is the trim of cut `KeptIndices(...)[j]`, those cut numbers increase
   * strictly, and a cut yields a chunk exactly when its trim is non-empty.
   */
  lemma FixedChunksInOrder(text: string, chunkSize: nat, overlap: nat)
    ensures var cs := FixedCuts(text, chunkSize, overlap, 0);
      var idx, r := KeptIndices(Pushed(cs)), FixedChunks(text, chunkSize, overlap);
      && |idx| == |r|
      && (forall j :: 0 <= j < |idx| ==> idx[j] < |cs| && r[j] == Trim(cs[idx[j]].raw))
      && (forall i, j :: 0 <= i < j < |idx| ==> idx[i] < idx[j])
      && (forall k :: 0 <= k < |cs| ==> (k in idx <==> Trim(cs[k].raw) != []))
  {
    var cs := FixedCuts(text, chunkSize, overlap, 0);
    NonEmptyInOrder(Pushed(cs));
    forall k | 0 <= k < |cs| ensures Pushed(cs)[k] == Trim(cs[k].raw) {
      PushedAt(cs, k);
    }
  }

  // -------------------------------------------- the two snap tests compared

  /**
   * Past the first half chunk the original test never snaps, although the
   * window-relative test does snap every window whose last break lies in its
   * back half.
   */
  lemma LateBreaksIgnoredAsWritten(text: string, chunkSize: nat, start: nat)
    requires start + chunkSize < |text| && 2 * start + 2 >= chunkSize
    requires 2 * BreakPoint(text[start..start + chunkSize]) > chunkSize
    ensures !Snaps(text, chunkSize, start)
    ensures FixedSnaps(text, chunkSize, start)
  {
    NoSnapPastHalfChunk(text, chunkSize, start);
  }

  /** Ten letters, then a window of ten whose break is its eighth character, then one more letter. */
  const MixedFrameText: string := "aaaaaaaaaa" + "aaaaaaa.aa" + "a"

  /** The text's first ten characters hold no break; the next ten hold one, at their offset 7. */
  lemma MixedFrameBreaks()
    ensures BreakBelow(MixedFrameText, 0, 10) == -1
    ensures BreakBelow(MixedFrameText, 10, 20) == 7
    ensures MixedFrameText[10..20] == "aaaaaaa.aa"
  {
    var t := MixedFrameText;
    assert t[..10] == "aaaaaaaaaa" && t[10..20] == "aaaaaaa.aa";
    assert BreakBelow(t, 10, 20) == BreakBelow(t, 10, 18);
    assert forall i :: 0 <= i < 10 ==> t[i] == 'a';
    BreakBelowNone(t, 0, 10);
  }

  /**
   * With chunk size 10 and no overlap the original loop reaches cursor 10
   * and keeps "aaaaaaa.aa" whole: the break at offset 7 is compared with
   * the absolute 10 + 5.
   */
  lemma MixedFrameAsWritten()
    ensures |Cuts(MixedFrameText, 10, 0)| >= 2 && Cuts(MixedFrameText, 10, 0)[1] == Cut(10, "aaaaaaa.aa")
  {
    var t := MixedFrameText;
    MixedFrameBreaks();
    assert WindowLength(t, 10, 0) == 10;
    CutsUnfold(t, 10, 0);
    assert WindowLength(t, 10, 10) == 10;
    CutsUnfold(t, 10, 10);
  }

  /** On the same text the corrected loop cuts the second window back to its break, "aaaaaaa.". */
  lemma MixedFrameCorrected()
    ensures |FixedCuts(MixedFrameText, 10, 0, 0)| >= 2 && FixedCuts(MixedFrameText, 10, 0, 0)[1] == Cut(10, "aaaaaaa.")
  {
    var t := MixedFrameText;
    MixedFrameBreaks();
    BreakPointInPlace(t, 0, 10);
    BreakPointInPlace(t, 10, 20);
    assert FixedWindow(t, 10, 0) == t[0..10];
    FixedCutsUnfold(t, 10, 0, 0);
    assert FixedSnaps(t, 10, 10);
    assert FixedWindow(t, 10, 10) == t[10..18];
    FixedCutsUnfold(t, 10, 0, 10);
    assert t[10..18] == "aaaaaaa.";
  }

  /** The corrected loop: same window and trim as the original, but it stops after the window that reaches the end. */
  method ChunkTextFixed(text: string, chunkSize: nat, overlap: nat) returns (chunks: seq<string>)
    ensures chunks == FixedChunks(text, chunkSize, overlap)
  {
    var pushed: seq<string> := [];
    var start: nat := 0;
    ghost var done: seq<Cut> := [];
    while start < |text|
      invariant start <= |text|
      invariant FixedCuts(text, chunkSize, overlap, 0) == done + FixedCuts(text, chunkSize, overlap, start)
      invariant pushed == Pushed(done)
      decreases |text| - start
    {
      var end := Min(start + chunkSize, |text|);
      var chunk := text[start..end];
      if end < |text| {
        var breakPoint := Max(LastIndexOf(chunk, '.'), LastIndexOf(chunk, '\n'));
        if 2 * breakPoint > chunkSize {
          chunk := chunk[..breakPoint + 1];
        }
      }
      assert chunk == FixedWindow(text, chunkSize, start);
      var next := if start + |chunk| >= |text| then |text| else start + Advance(|chunk|, overlap);
      assert next == FixedNext(text, chunkSize, overlap, start);
      ghost var rest := FixedCuts(text, chunkSize, overlap, next);
      FixedCutsUnfold(text, chunkSize, overlap, start);
      assert FixedCuts(text, chunkSize, overlap, start) == [Cut(start, chunk)] + rest;
      ConsAssoc(done, Cut(start, chunk), rest);
      PushedAppend(done, Cut(start, chunk));
      pushed := pushed + [Trim(chunk)];
      done := done + [Cut(start, chunk)];
      start := next;
    }
    assert done + [] == done;
    chunks := NonEmpty(pushed);
  }
}
