/**
 The keyword filter of the client flow: `applyFilters` and the `find` that
 picks the keyword reported in the log line. Keywords are substrings, not words.
 */
module KeywordFilter {
  import opened Wrappers
  import opened Text
  import Config

  /** Some configured keyword is included in `text` (`filterKeywords.some(...)`). */
  function AnyKeywordIn(keywords: seq<string>, text: string): (r: bool)
    ensures r <==> exists i :: 0 <= i < |keywords| && Includes(text, keywords[i])
    decreases |keywords|
  {
    if |keywords| == 0 then false
    else Includes(text, keywords[0]) || AnyKeywordIn(keywords[1..], text)
  }

  /** `applyFilters`: an empty keyword list lets everything through; otherwise some keyword must occur. */
  function ApplyFilters(keywords: seq<string>, text: string): (r: bool)
    ensures |keywords| == 0 ==> r
    ensures |keywords| > 0 ==>
              (r <==> exists i, j :: 0 <= i < |keywords| && OccursAt(keywords[i], text, j))
  {
    |keywords| == 0 || AnyKeywordIn(keywords, text)
  }

  /** `filterKeywords.find(...)`: the first keyword, in configured order, that `text` includes. */
  function MatchedKeyword(keywords: seq<string>, text: string): (r: Option<string>)
    ensures r.None? <==> forall i :: 0 <= i < |keywords| ==> !Includes(text, keywords[i])
    ensures r.Some? ==>
              exists i :: 0 <= i < |keywords| && keywords[i] == r.value && Includes(text, keywords[i])
                          && forall j :: 0 <= j < i ==> !Includes(text, keywords[j])
    decreases |keywords|
  {
    if |keywords| == 0 then None
    else if Includes(text, keywords[0]) then Some(keywords[0])
    else
      var r := MatchedKeyword(keywords[1..], text);
      if r.Some? then
        var i :| 0 <= i < |keywords[1..]| && keywords[1..][i] == r.value && Includes(text, keywords[1..][i])
                 && forall j :: 0 <= j < i ==> !Includes(text, keywords[1..][j]);
        assert keywords[i + 1] == r.value;
        r
      else r
  }

  /**
   The logged keyword agrees with the filter: with keywords configured, the filter
   passes exactly when a keyword is reported; with none, nothing is reported.
   */
  lemma MatchAgreesWithFilter(keywords: seq<string>, text: string)
    ensures |keywords| == 0 ==> MatchedKeyword(keywords, text) == None
    ensures |keywords| > 0 ==> (ApplyFilters(keywords, text) <==> MatchedKeyword(keywords, text).Some?)
  {
  }

  /** An empty keyword (a blank piece such as a trailing comma) lets every text through. */
  lemma EmptyKeywordPassesEverything(keywords: seq<string>, text: string)
    requires "" in keywords
    ensures ApplyFilters(keywords, text)
  {
    var i :| 0 <= i < |keywords| && keywords[i] == "";
    EmptyIncludedEverywhere(text);
  }

  /** So a FILTER_KEYWORDS value ending in a comma disables filtering altogether. */
  lemma TrailingCommaPassesEverything(prefix: string, text: string)
    ensures ApplyFilters(Config.FilterKeywords(Some(prefix + [','])), text)
  {
    Config.TrailingCommaAddsEmptyKeyword(prefix);
    EmptyKeywordPassesEverything(Config.FilterKeywords(Some(prefix + [','])), text);
  }

  /** `k` occurs in `text` at `j` once `text` is lower-cased letter by letter. */
  predicate OccursFoldedAt(k: string, text: string, j: int)
  {
    0 <= j && j + |k| <= |text| && forall m :: 0 <= m < |k| ==> LowerChar(text[j + m]) == k[m]
  }

  /** Searching the lower-cased text is a case-insensitive search of the original text. */
  lemma IncludesIgnoringCase(text: string, k: string)
    ensures Includes(ToLower(text), k) <==> exists j :: OccursFoldedAt(k, text, j)
  {
    var lowered := ToLower(text);
    if Includes(lowered, k) {
      var j :| OccursAt(k, lowered, j);
      forall m | 0 <= m < |k|
        ensures LowerChar(text[j + m]) == k[m]
      {
        assert lowered[j..j + |k|][m] == lowered[j + m];
      }
      assert OccursFoldedAt(k, text, j);
    }
    if exists j :: OccursFoldedAt(k, text, j) {
      var j :| OccursFoldedAt(k, text, j);
      assert lowered[j..j + |k|] == k;
      assert OccursAt(k, lowered, j);
    }
  }

  /**
   The filter as the client applies it (on lower-cased text) is a case-insensitive
   substring test: it passes iff the list is empty or some keyword occurs, ignoring case.
   */
  lemma FilterIsCaseInsensitive(keywords: seq<string>, text: string)
    ensures ApplyFilters(keywords, ToLower(text)) <==>
              |keywords| == 0 || exists i, j :: 0 <= i < |keywords| && OccursFoldedAt(keywords[i], text, j)
  {
    forall i | 0 <= i < |keywords|
      ensures Includes(ToLower(text), keywords[i]) <==> exists j :: OccursFoldedAt(keywords[i], text, j)
    {
      IncludesIgnoringCase(text, keywords[i]);
    }
  }
}
