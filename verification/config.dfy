/**
 Reading the two list-valued environment variables: MONITORED_CHAT_USERNAMES
 (pieces trimmed) and FILTER_KEYWORDS (pieces trimmed and lower-cased). An
 absent variable, like an empty one (falsy in JavaScript), gives the empty list.
 */
module Config {
  import opened Wrappers
  import opened Text

  /** How one comma-separated piece is cleaned up. */
  function Normalize(piece: string, lower: bool): string
  {
    if lower then ToLower(Trim(piece)) else Trim(piece)
  }

  /** Cleans every piece, in order. */
  function NormalizeAll(pieces: seq<string>, lower: bool): (r: seq<string>)
    ensures |r| == |pieces|
    ensures forall i :: 0 <= i < |r| ==> r[i] == Normalize(pieces[i], lower)
    decreases |pieces|
  {
    if |pieces| == 0 then [] else [Normalize(pieces[0], lower)] + NormalizeAll(pieces[1..], lower)
  }

  /** `raw ? raw.split(',').map(clean) : []`: one cleaned entry per comma-separated piece. */
  function ParseList(raw: Option<string>, lower: bool): (r: seq<string>)
    ensures raw == None || raw == Some("") ==> r == []
    ensures raw.Some? && raw.value != "" ==>
              var pieces := Split(raw.value, ',');
              && |r| == |pieces|
              && forall i :: 0 <= i < |r| ==> r[i] == Normalize(pieces[i], lower)
  {
    if raw == None || raw == Some("") then []
    else NormalizeAll(Split(raw.value, ','), lower)
  }

  /** Every parsed entry is trimmed and comma-free, and lower case when asked for. */
  lemma ParsedEntriesAreClean(raw: Option<string>, lower: bool)
    ensures var r := ParseList(raw, lower);
            forall i :: 0 <= i < |r| ==> IsTrimmed(r[i]) && ',' !in r[i] && (lower ==> IsLower(r[i]))
  {
    if raw.Some? && raw.value != "" {
      var pieces := Split(raw.value, ',');
      SplitSeparatorFree(raw.value, ',');
      forall i | 0 <= i < |pieces|
        ensures var n := Normalize(pieces[i], lower);
                IsTrimmed(n) && ',' !in n && (lower ==> IsLower(n))
      {
        NormalizeKeepsShape(pieces[i], lower);
      }
    }
  }

  /** Cleaning a piece yields a trimmed slice of it, so no comma appears. */
  lemma NormalizeKeepsShape(piece: string, lower: bool)
    ensures IsTrimmed(Normalize(piece, lower))
    ensures ',' !in piece ==> ',' !in Normalize(piece, lower)
    ensures lower ==> IsLower(Normalize(piece, lower))
  {
    var t := Trim(piece);
    if lower {
      LowerKeepsTrimmed(t);
      LowerKeepsComma(t);
    }
  }

  /** Lower-casing keeps a string without blank margins without blank margins. */
  lemma LowerKeepsTrimmed(t: string)
    requires IsTrimmed(t)
    ensures IsTrimmed(ToLower(t))
  {
    var l := ToLower(t);
    if |l| > 0 {
      assert l[0] == LowerChar(t[0]);
      assert l[|l| - 1] == LowerChar(t[|t| - 1]);
    }
  }

  /** Lower-casing introduces no comma. */
  lemma LowerKeepsComma(t: string)
    ensures ',' in ToLower(t) ==> ',' in t
  {
    var l := ToLower(t);
    if ',' in l {
      var i :| 0 <= i < |l| && l[i] == ',';
      assert t[i] == ',';
    }
  }

  /** MONITORED_CHAT_USERNAMES: one trimmed name per piece, case kept. */
  function MonitoredChatUsernames(raw: Option<string>): (r: seq<string>)
    ensures raw.Some? && raw.value != "" ==> |r| == |Split(raw.value, ',')|
    ensures forall i :: 0 <= i < |r| ==> IsTrimmed(r[i]) && ',' !in r[i]
  {
    ParsedEntriesAreClean(raw, false);
    ParseList(raw, false)
  }

  /** FILTER_KEYWORDS: one trimmed, lower-case keyword per piece. */
  function FilterKeywords(raw: Option<string>): (r: seq<string>)
    ensures raw.Some? && raw.value != "" ==> |r| == |Split(raw.value, ',')|
    ensures forall i :: 0 <= i < |r| ==> IsCanonicalKeyword(r[i])
  {
    ParsedEntriesAreClean(raw, true);
    ParseList(raw, true)
  }

  /** A piece that parsing leaves unchanged: no margins, no comma, no upper case. */
  predicate IsCanonicalKeyword(k: string)
  {
    IsTrimmed(k) && ',' !in k && IsLower(k)
  }

  /**
   Writing canonical keywords out comma-separated and parsing them back gives the
   same list, except for the single empty keyword, whose rendering is the empty
   (hence ignored) variable.
   */
  lemma {:induction false} KeywordsRoundTrip(keywords: seq<string>)
    requires |keywords| >= 1
    requires forall i :: 0 <= i < |keywords| ==> IsCanonicalKeyword(keywords[i])
    requires keywords != [""]
    ensures FilterKeywords(Some(Join(keywords, ','))) == keywords
  {
    var raw := Join(keywords, ',');
    assert SeparatorFree(keywords, ',');
    SplitJoin(keywords, ',');
    if raw == "" {
      JoinEmptyOnlyForSingleEmpty(keywords, ',');
    }
    var r := FilterKeywords(Some(raw));
    forall i | 0 <= i < |keywords|
      ensures r[i] == keywords[i]
    {
      TrimOfTrimmed(keywords[i]);
      ToLowerFixedPoints(keywords[i]);
    }
  }

  /** Joining at least two pieces always writes a separator. */
  lemma JoinEmptyOnlyForSingleEmpty(pieces: seq<string>, sep: char)
    requires |pieces| >= 1
    ensures Join(pieces, sep) == "" ==> pieces == [""]
  {
  }

  /** A trailing comma in a non-empty FILTER_KEYWORDS adds the empty keyword. */
  lemma TrailingCommaAddsEmptyKeyword(prefix: string)
    ensures "" in FilterKeywords(Some(prefix + [',']))
  {
    var raw := prefix + [','];
    TrailingSeparatorGivesEmptyPiece(prefix, ',');
    var pieces := Split(raw, ',');
    assert raw != "";
    var r := FilterKeywords(Some(raw));
    assert |r| == |pieces|;
    assert pieces[|pieces| - 1] == "";
    assert Normalize("", true) == "" by {
      assert Trim("") == "";
    }
    assert r[|r| - 1] == "";
  }
}
