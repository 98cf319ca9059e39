/**
 * Helper.EscapeJson (ServerApp/WebSocketTest/Utils/Helper.cs): the same three
 * chained replacements as the escaping of the reply envelopes, offered as a
 * public utility.
 */
module Helper {
  import opened Wrappers
  import opened Text
  import JsonResponse

  function EscapeJson(s: Option<string>): (r: string)
    ensures s.None? ==> r == ""
    ensures r == JsonResponse.EscapeSpec(JsonResponse.OrEmpty(s))
  {
    var u := JsonResponse.OrEmpty(s);
    JsonResponse.ReplaceChainIsEscapeSpec(u);
    ReplaceChar(ReplaceChar(ReplaceChar(u, '\\', "\\\\"), '"', "\\\""), '\n', "\\n")
  }

  /** Both escapers give the same text for every input, null included. */
  lemma EscapeJsonIsEscape(s: Option<string>)
    ensures EscapeJson(s) == JsonResponse.Escape(s)
  {
  }

  /** Text with no backslash, quote or line feed comes back unchanged. */
  lemma EscapeJsonIdentity(s: string)
    requires forall i :: 0 <= i < |s| ==> !JsonResponse.IsSpecial(s[i])
    ensures EscapeJson(Some(s)) == s
  {
    JsonResponse.EscapeSpecIdentity(s);
  }

  /** The output is longer than the input by the number of backslashes, quotes and line feeds. */
  lemma EscapeJsonLength(s: string)
    ensures |EscapeJson(Some(s))| == |s| + JsonResponse.CountSpecial(s)
  {
    JsonResponse.EscapeSpecLength(s);
  }

  /**
   * The escaped text is read back to the original by the JSON unescaping
   * exactly when it has no control character besides the line feed.
   */
  lemma EscapeJsonRoundTrip(s: string)
    ensures JsonResponse.Unescape(EscapeJson(Some(s))) == if JsonResponse.Printable(s) then Some(s) else None
  {
    JsonResponse.UnescapeEscape(Some(s));
  }
}
