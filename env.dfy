/** The API base URL of the front end: `url.replace(/\/+$/, '')` and its default. */
module Env {
  import opened Wrappers

  predicate EndsWithSlash(s: string) {
    |s| > 0 && s[|s| - 1] == '/'
  }

  /** Strips every trailing `/` (the regular expression `/\/+$/` anchored at the end of the text). */
  function NormalizeBaseUrl(url: string): (r: string)
    ensures !EndsWithSlash(r)
    ensures |r| <= |url| && r == url[..|r|]
    ensures forall i :: |r| <= i < |url| ==> url[i] == '/'
  {
    if EndsWithSlash(url) then NormalizeBaseUrl(url[..|url| - 1]) else url
  }

  /** Nothing is removed from a URL that does not end with a slash. */
  lemma NormalizeKeepsUnslashed(url: string)
    requires !EndsWithSlash(url)
    ensures NormalizeBaseUrl(url) == url
  {
  }

  /** Normalizing twice is normalizing once. */
  lemma NormalizeIdempotent(url: string)
    ensures NormalizeBaseUrl(NormalizeBaseUrl(url)) == NormalizeBaseUrl(url)
  {
    NormalizeKeepsUnslashed(NormalizeBaseUrl(url));
  }

  /** The result is the longest prefix that does not end with a slash: it keeps everything up to the last other character. */
  lemma {:induction false} NormalizeKeepsLastOtherChar(url: string, i: nat)
    requires i < |url| && url[i] != '/'
    ensures i < |NormalizeBaseUrl(url)|
  {
    if EndsWithSlash(url) {
      NormalizeKeepsLastOtherChar(url[..|url| - 1], i);
    }
  }

  /** A URL made only of slashes normalizes to the empty text. */
  lemma {:induction false} NormalizeAllSlashes(url: string)
    requires forall i :: 0 <= i < |url| ==> url[i] == '/'
    ensures NormalizeBaseUrl(url) == ""
  {
    if url != [] {
      NormalizeAllSlashes(url[..|url| - 1]);
    }
  }

  /** `normalizeBaseUrl(VITE_API_URL || 'http://localhost:3000')`: an unset or empty variable selects the default. */
  function ApiUrl(viteApiUrl: Option<string>): (r: string)
    ensures viteApiUrl.None? || viteApiUrl == Some("") ==> r == "http://localhost:3000"
    ensures viteApiUrl.Some? && viteApiUrl.value != "" ==> r == NormalizeBaseUrl(viteApiUrl.value)
  {
    var raw := if viteApiUrl.Some? && viteApiUrl.value != "" then viteApiUrl.value else "http://localhost:3000";
    NormalizeBaseUrl(raw)
  }
}
