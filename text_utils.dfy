/** Text helpers (`src/lib/utils/text.ts`). */
module TextUtils {
  import opened Wrappers
  import opened Strings

  /** A message as the helpers see it: a role name and a content string. */
  datatype RoleContent = RoleContent(role: string, content: string)

  /** `getLastUserMessage`: scan from the end and return the first message whose role is `user`. */
  method GetLastUserMessage(messages: seq<RoleContent>) returns (r: Option<RoleContent>)
    ensures r.None? <==> forall i :: 0 <= i < |messages| ==> messages[i].role != "user"
    ensures r.Some? ==> exists i :: 0 <= i < |messages| && messages[i] == r.value && messages[i].role == "user" &&
                          forall j :: i < j < |messages| ==> messages[j].role != "user"
  {
    var i := |messages| - 1;
    while i >= 0
      invariant -1 <= i < |messages|
      invariant forall j :: i < j < |messages| ==> messages[j].role != "user"
      decreases i
    {
      if messages[i].role == "user" {
        return Some(messages[i]);
      }
      i := i - 1;
    }
    return None;
  }

  function LowerAll(words: seq<string>): (r: seq<string>)
    ensures |r| == |words| && forall k :: 0 <= k < |words| ==> r[k] == Lower(words[k])
  {
    seq(|words|, k requires 0 <= k < |words| => Lower(words[k]))
  }

  /** `containsKeywords`: some keyword, lowercased, occurs in the lowercased query. */
  function ContainsKeywords(query: string, keywords: seq<string>): (b: bool)
    ensures b <==> exists k :: 0 <= k < |keywords| && IsSubstring(Lower(keywords[k]), Lower(query))
  {
    ContainsAny(Lower(query), LowerAll(keywords))
  }

  /** The test ignores ASCII case, in the query and in the keywords. */
  lemma ContainsKeywordsIgnoresCase(query: string, keywords: seq<string>)
    ensures ContainsKeywords(Lower(query), keywords) == ContainsKeywords(query, keywords)
    ensures ContainsKeywords(Upper(query), keywords) == ContainsKeywords(query, keywords)
    ensures ContainsKeywords(query, LowerAll(keywords)) == ContainsKeywords(query, keywords)
  {
    LowerIdempotent(query);
    LowerOfUpper(query);
    forall k | 0 <= k < |keywords| ensures Lower(LowerAll(keywords)[k]) == Lower(keywords[k]) {
      LowerIdempotent(keywords[k]);
    }
  }
}
