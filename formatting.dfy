/** Formatting helpers (`src/lib/utils/formatting.ts`). */
module Formatting {
  import opened Strings

  /** `text.substring(0, e)`: a negative end counts as 0, an end past the text as its length. */
  function Prefix(text: string, e: int): (r: string)
    ensures r <= text
    ensures 0 <= e <= |text| ==> |r| == e
  {
    if e <= 0 then [] else if e >= |text| then text else text[..e]
  }

  /** `truncateText(text, maxLength)`. */
  function TruncateText(text: string, maxLength: int): string {
    if |text| <= maxLength then text else Prefix(text, maxLength) + "..."
  }

  /**
   * Text that fits is returned unchanged; longer text becomes its first
   * `maxLength` characters (none for a negative limit) followed by `...`.
   * Either way the result begins with a prefix of the text.
   */
  lemma TruncateTextShape(text: string, maxLength: int)
    ensures |text| <= maxLength ==> TruncateText(text, maxLength) == text
    ensures |text| > maxLength >= 0 ==>
      var r := TruncateText(text, maxLength);
      |r| == maxLength + 3 && r[..maxLength] == text[..maxLength] && r[maxLength..] == "..."
    ensures maxLength < 0 && text != [] ==> TruncateText(text, maxLength) == "..."
    ensures exists n :: 0 <= n <= |text| && text[..n] <= TruncateText(text, maxLength)
  {
    var r := TruncateText(text, maxLength);
    if |text| > maxLength {
      var p := Prefix(text, maxLength);
      assert text[..|p|] == p;
    } else {
      assert text[..|text|] <= r;
    }
  }

  /** `str.charAt(0).toUpperCase() + str.slice(1)`. */
  function Capitalize(s: string): (r: string)
    ensures |r| == |s|
  {
    if s == [] then [] else [UpperChar(s[0])] + s[1..]
  }

  /** Only the first character changes, and only to its upper-case form; capitalising twice is capitalising once. */
  lemma CapitalizeOnlyFirst(s: string)
    ensures s != [] ==> Capitalize(s)[0] == UpperChar(s[0]) && Capitalize(s)[1..] == s[1..]
    ensures forall k :: 1 <= k < |s| ==> Capitalize(s)[k] == s[k]
    ensures Capitalize(Capitalize(s)) == Capitalize(s)
  {
    if s != [] {
      assert Capitalize(s)[1..] == s[1..];
      assert UpperChar(UpperChar(s[0])) == UpperChar(s[0]);
    }
  }
}
