/** analyzeFailure: turns the captured standard-error text of a failed attempt
    into a FailureReason and a message, by ordered keyword search. */
module Classifier {
  import opened Text
  import opened Domain

  /** Checked first: any of these marks a network or proxy problem. */
  const NetworkKeywords: seq<string> := [
    "connection", "proxy", "timeout", "network", "dns", "ssl", "tls", "certificate",
    "host", "refused", "unreachable", "blocked", "403", "503", "502", "500",
    "unable to download", "httperror", "urlerror", "no such host"
  ]

  /** Checked second: any of these means the search found nothing usable. */
  const NotFoundKeywords: seq<string> := [
    "no video", "not found", "no matches", "no results", "unable to find",
    "no suitable", "this video is not available", "video unavailable",
    "private video", "deleted video", "age-restricted"
  ]

  const NetworkPrefix := "Network error: "
  const NotFoundPrefix := "Track not found: "
  const UnknownPrefix := "Unknown error: "
  const NoOutputMessage := "Unknown error occurred"

  /** Some keyword of the list occurs in `text`. */
  predicate Mentions(text: string, keywords: seq<string>) {
    exists i :: 0 <= i < |keywords| && Contains(text, keywords[i])
  }

  /** The first keyword at or after `from`, in list order, that occurs in `text`. */
  function FirstMatch(text: string, keywords: seq<string>, from: nat): (r: Option<nat>)
    requires from <= |keywords|
    ensures r.Some? ==> from <= r.value < |keywords| && Contains(text, keywords[r.value])
    ensures r.Some? ==> forall j :: from <= j < r.value ==> !Contains(text, keywords[j])
    ensures r.None? ==> forall j :: from <= j < |keywords| ==> !Contains(text, keywords[j])
    decreases |keywords| - from
  {
    if from == |keywords| then None
    else if Contains(text, keywords[from]) then Some(from)
    else FirstMatch(text, keywords, from + 1)
  }

  datatype Classification = Classification(reason: FailureReason, message: string)

  /** analyzeFailure. The process exit status plays no part: Go's version takes
      it as an argument and never reads it. */
  function AnalyzeFailure(errorOutput: string): (c: Classification)
    ensures c.reason == NetworkError <==> Mentions(Lower(errorOutput), NetworkKeywords)
    ensures c.reason == NotFound <==>
      !Mentions(Lower(errorOutput), NetworkKeywords) && Mentions(Lower(errorOutput), NotFoundKeywords)
    ensures c.reason == NetworkError ==> c.message == NetworkPrefix + TrimSpace(errorOutput)
    ensures c.reason == NotFound ==> c.message == NotFoundPrefix + TrimSpace(errorOutput)
    ensures c.reason == UnknownError && errorOutput != "" ==> c.message == UnknownPrefix + TrimSpace(errorOutput)
    ensures c.reason == UnknownError && errorOutput == "" ==> c.message == NoOutputMessage
  {
    var lower := Lower(errorOutput);
    if FirstMatch(lower, NetworkKeywords, 0).Some? then
      Classification(NetworkError, NetworkPrefix + TrimSpace(errorOutput))
    else if FirstMatch(lower, NotFoundKeywords, 0).Some? then
      Classification(NotFound, NotFoundPrefix + TrimSpace(errorOutput))
    else if errorOutput != "" then
      Classification(UnknownError, UnknownPrefix + TrimSpace(errorOutput))
    else
      Classification(UnknownError, NoOutputMessage)
  }

  /** Two texts that differ only in the case of ASCII letters. */
  predicate SameIgnoringCase(a: string, b: string) {
    |a| == |b| && forall i :: 0 <= i < |a| ==> LowerChar(a[i]) == LowerChar(b[i])
  }

  /** The reason is case-insensitive: it depends on the text only up to case. */
  lemma ReasonIgnoresCase(a: string, b: string)
    requires SameIgnoringCase(a, b)
    ensures AnalyzeFailure(a).reason == AnalyzeFailure(b).reason
  {
    assert Lower(a) == Lower(b);
  }

  lemma NotInEmpty(keyword: string)
    requires keyword != ""
    ensures !Contains("", keyword)
  {
  }

  /** With no error text at all, the result is the generic unknown error. */
  lemma EmptyOutputIsUnknown()
    ensures AnalyzeFailure("") == Classification(UnknownError, NoOutputMessage)
  {
    assert Lower("") == "";
    forall i | 0 <= i < |NetworkKeywords| ensures !Contains("", NetworkKeywords[i]) {
      NotInEmpty(NetworkKeywords[i]);
    }
    forall i | 0 <= i < |NotFoundKeywords| ensures !Contains("", NotFoundKeywords[i]) {
      NotInEmpty(NotFoundKeywords[i]);
    }
  }

  /** An error text naming both a network cause ("host") and a not-found
      cause ("not found") is a network error, whatever its letter case, since
      the network keywords are checked first. */
  lemma NetworkCheckedFirst()
    ensures AnalyzeFailure("ERROR: Host not found") == Classification(NetworkError, NetworkPrefix + "ERROR: Host not found")
  {
    var e := "ERROR: Host not found";
    var lower := Lower(e);
    assert lower[7] == 'h' && lower[8] == 'o' && lower[9] == 's' && lower[10] == 't';
    assert lower[7..11] == NetworkKeywords[8];
    ContainsAt(lower, NetworkKeywords[8], 7);
    TrimSpaceFixed(e);
  }
}
