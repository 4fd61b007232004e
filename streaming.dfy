/**
 * The piece sequence of `createStreamingResponse` (`src/lib/utils/api.ts`):
 * the text is sent in consecutive slices of `chunkSize` characters. Encoding,
 * the stream object and the delay between pieces are not modelled.
 */
module Streaming {
  import opened Strings

  /** The pieces the stream sends for `text`, from cursor `i` on. */
  function Pieces(text: string, chunkSize: nat, i: nat): seq<string>
    requires chunkSize >= 1
    decreases |text| - i
  {
    if i >= |text| then []
    else [text[i..if i + chunkSize < |text| then i + chunkSize else |text|]] + Pieces(text, chunkSize, i + chunkSize)
  }

  /** The pieces from cursor `i` spell the rest of the text. */
  lemma {:induction false} PiecesConcat(text: string, chunkSize: nat, i: nat)
    requires chunkSize >= 1 && i <= |text|
    ensures Concat(Pieces(text, chunkSize, i)) == text[i..]
    decreases |text| - i
  {
    if i < |text| {
      var ps := Pieces(text, chunkSize, i);
      if i + chunkSize < |text| {
        var e := i + chunkSize;
        PiecesConcat(text, chunkSize, e);
        assert ps[1..] == Pieces(text, chunkSize, e);
        assert text[i..] == text[i..e] + text[e..];
      } else {
        assert Pieces(text, chunkSize, i + chunkSize) == [];
        assert ps == [text[i..|text|]];
        assert ps[1..] == [];
        assert text[i..|text|] == text[i..];
      }
    }
  }

  /**
   * Piece `k` from cursor `i` starts at `i + k * chunkSize` and runs for
   * `chunkSize` characters, or to the end of the text if that comes first.
   */
  lemma {:induction false} PieceAt(text: string, chunkSize: nat, i: nat, k: nat)
    requires chunkSize >= 1
    requires k < |Pieces(text, chunkSize, i)|
    ensures var s := i + k * chunkSize;
      && s < |text|
      && Pieces(text, chunkSize, i)[k] == text[s..if s + chunkSize < |text| then s + chunkSize else |text|]
    decreases |text| - i
  {
    if k > 0 {
      assert Pieces(text, chunkSize, i)[k] == Pieces(text, chunkSize, i + chunkSize)[k - 1];
      PieceAt(text, chunkSize, i + chunkSize, k - 1);
      assert i + chunkSize + (k - 1) * chunkSize == i + k * chunkSize;
    }
  }

  /**
   * There are `ceil((|text| - i) / chunkSize)` pieces: enough to reach the end,
   * and one fewer would not.
   */
  lemma {:induction false} PiecesCount(text: string, chunkSize: nat, i: nat)
    requires chunkSize >= 1
    ensures var n := |Pieces(text, chunkSize, i)|;
      && n * chunkSize >= |text| - i
      && (i < |text| ==> (n - 1) * chunkSize < |text| - i)
      && (i >= |text| ==> n == 0)
    decreases |text| - i
  {
    if i < |text| {
      PiecesCount(text, chunkSize, i + chunkSize);
      var n := |Pieces(text, chunkSize, i + chunkSize)|;
      assert |Pieces(text, chunkSize, i)| == n + 1;
      assert (n + 1) * chunkSize == n * chunkSize + chunkSize;
    }
  }

  /** Every piece but the last has exactly `chunkSize` characters, and the last is non-empty. */
  lemma PieceLengths(text: string, chunkSize: nat, k: nat)
    requires chunkSize >= 1
    requires k < |Pieces(text, chunkSize, 0)|
    ensures k + 1 < |Pieces(text, chunkSize, 0)| ==> |Pieces(text, chunkSize, 0)[k]| == chunkSize
    ensures 1 <= |Pieces(text, chunkSize, 0)[k]| <= chunkSize
  {
    PieceAt(text, chunkSize, 0, k);
    if k + 1 < |Pieces(text, chunkSize, 0)| {
      PieceAt(text, chunkSize, 0, k + 1);
      assert (k + 1) * chunkSize == k * chunkSize + chunkSize;
    }
  }

  /** `createStreamingResponse(text, chunkSize)`: the slice loop, advancing the cursor by `chunkSize`. */
  method StreamPieces(text: string, chunkSize: nat) returns (pieces: seq<string>)
    requires chunkSize >= 1
    ensures pieces == Pieces(text, chunkSize, 0)
  {
    pieces := [];
    var i: nat := 0;
    while i < |text|
      invariant pieces + Pieces(text, chunkSize, i) == Pieces(text, chunkSize, 0)
      decreases |text| - i
    {
      var end := if i + chunkSize < |text| then i + chunkSize else |text|;
      var chunk := text[i..end];
      assert Pieces(text, chunkSize, i) == [chunk] + Pieces(text, chunkSize, i + chunkSize);
      pieces := pieces + [chunk];
      i := i + chunkSize;
    }
  }
}
