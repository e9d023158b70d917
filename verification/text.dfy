/**
 The string primitives the script relies on, restated over `seq<char>`:
 `String.prototype.trim`, an ASCII `toLowerCase`, `split(',')` together with
 its inverse `join`, and `String.prototype.includes`.
 */
module Text {

  /** The characters `String.prototype.trim` removes: ECMAScript WhiteSpace and LineTerminator. */
  predicate IsWhitespace(c: char)
  {
    || c == '\t' || c == '\n' || c == '\U{000B}' || c == '\U{000C}' || c == '\r' || c == ' '
    || c == '\U{00A0}' || c == '\U{1680}' || ('\U{2000}' <= c <= '\U{200A}')
    || c == '\U{2028}' || c == '\U{2029}' || c == '\U{202F}' || c == '\U{205F}'
    || c == '\U{3000}' || c == '\U{FEFF}'
  }

  /** `s` neither starts nor ends with whitespace. */
  predicate IsTrimmed(s: string)
  {
    |s| > 0 ==> !IsWhitespace(s[0]) && !IsWhitespace(s[|s| - 1])
  }

  /** Drops leading whitespace: the result is the suffix of `s` that starts at its first non-blank. */
  function TrimStart(s: string): (r: string)
    ensures |r| <= |s| && r == s[|s| - |r|..]
    ensures forall i :: 0 <= i < |s| - |r| ==> IsWhitespace(s[i])
    ensures |r| > 0 ==> !IsWhitespace(r[0])
    decreases |s|
  {
    if |s| > 0 && IsWhitespace(s[0]) then TrimStart(s[1..]) else s
  }

  /** Drops trailing whitespace: the result is the prefix of `s` that ends at its last non-blank. */
  function TrimEnd(s: string): (r: string)
    ensures |r| <= |s| && r == s[..|r|]
    ensures forall i :: |r| <= i < |s| ==> IsWhitespace(s[i])
    ensures |r| > 0 ==> !IsWhitespace(r[|r| - 1])
    decreases |s|
  {
    if |s| > 0 && IsWhitespace(s[|s| - 1]) then TrimEnd(s[..|s| - 1]) else s
  }

  /** `String.prototype.trim`: no blank margin is left, and only characters of `s` remain. */
  function Trim(s: string): (r: string)
    ensures IsTrimmed(r)
    ensures |r| <= |s|
    ensures forall i :: 0 <= i < |r| ==> r[i] in s
  {
    var t := TrimStart(s);
    var r := TrimEnd(t);
    assert |r| > 0 ==> r[0] == t[0];
    SliceMembers(s, |s| - |t|, |s|);
    SliceMembers(t, 0, |r|);
    r
  }

  /** Every character of a slice occurs in the whole. */
  lemma SliceMembers(s: string, a: int, b: int)
    requires 0 <= a <= b <= |s|
    ensures forall i :: 0 <= i < b - a ==> s[a..b][i] in s
  {
    forall i | 0 <= i < b - a
      ensures s[a..b][i] in s
    {
      assert s[a..b][i] == s[a + i];
    }
  }

  /** `Trim` keeps exactly the slice of `s` between a blank prefix and a blank suffix. */
  lemma TrimIsSlice(s: string)
    ensures exists a, b :: 0 <= a <= b <= |s| && Trim(s) == s[a..b]
                           && (forall i :: 0 <= i < a ==> IsWhitespace(s[i]))
                           && (forall i :: b <= i < |s| ==> IsWhitespace(s[i]))
  {
    var t := TrimStart(s);
    var r := TrimEnd(t);
    var a := |s| - |t|;
    var b := a + |r|;
    assert r == s[a..b];
    assert forall i :: b <= i < |s| ==> s[i] == t[i - a];
  }

  /** A string without blank margins is left alone by `Trim`. */
  lemma TrimOfTrimmed(s: string)
    requires IsTrimmed(s)
    ensures Trim(s) == s
  {
  }

  predicate IsUpper(c: char)
  {
    'A' <= c <= 'Z'
  }

  /** ASCII case folding of one character. */
  function LowerChar(c: char): (r: char)
    ensures !IsUpper(r)
    ensures IsUpper(c) ==> r as int == c as int + 32
    ensures !IsUpper(c) ==> r == c
  {
    if IsUpper(c) then (c as int - 'A' as int + 'a' as int) as char else c
  }

  /** `toLowerCase`, restricted to ASCII letters. */
  function ToLower(s: string): (r: string)
    ensures |r| == |s|
    ensures IsLower(r)
    ensures forall i :: 0 <= i < |s| && !IsUpper(s[i]) ==> r[i] == s[i]
    ensures forall i :: 0 <= i < |s| && IsUpper(s[i]) ==> r[i] as int == s[i] as int + 32
  {
    seq(|s|, i requires 0 <= i < |s| => LowerChar(s[i]))
  }

  /** `s` holds no upper-case ASCII letter. */
  predicate IsLower(s: string)
  {
    forall i :: 0 <= i < |s| ==> !IsUpper(s[i])
  }

  /** Lower-casing is the identity exactly on strings with no upper-case letter. */
  lemma ToLowerFixedPoints(s: string)
    ensures ToLower(s) == s <==> IsLower(s)
  {
    if IsLower(s) {
      assert forall i :: 0 <= i < |s| ==> ToLower(s)[i] == s[i];
    }
  }

  /** Lower-casing twice is lower-casing once. */
  lemma ToLowerIdempotent(s: string)
    ensures ToLower(ToLower(s)) == ToLower(s)
  {
    ToLowerFixedPoints(ToLower(s));
  }

  /**
   `split(sep)`: the pieces between the separators, in order; an empty string
   gives one empty piece and every separator adds one piece.
   */
  function Split(s: string, sep: char): (r: seq<string>)
    ensures |r| >= 1
    decreases |s|
  {
    if |s| == 0 then [""]
    else if s[0] == sep then [""] + Split(s[1..], sep)
    else
      var rest := Split(s[1..], sep);
      [[s[0]] + rest[0]] + rest[1..]
  }

  /** `join(sep)`: the pieces with one separator between neighbours. */
  function Join(pieces: seq<string>, sep: char): string
    requires |pieces| >= 1
    decreases |pieces|
  {
    if |pieces| == 1 then pieces[0]
    else pieces[0] + [sep] + Join(pieces[1..], sep)
  }

  /** No piece of the list contains the separator. */
  predicate SeparatorFree(pieces: seq<string>, sep: char)
  {
    forall i :: 0 <= i < |pieces| ==> sep !in pieces[i]
  }

  /** Prepending a character to the first piece prepends it to the joined string. */
  lemma JoinConsFirst(c: char, pieces: seq<string>, sep: char)
    requires |pieces| >= 1
    ensures Join([[c] + pieces[0]] + pieces[1..], sep) == [c] + Join(pieces, sep)
  {
    var p := [[c] + pieces[0]] + pieces[1..];
    if |pieces| > 1 {
      assert p[1..] == pieces[1..];
    }
  }

  /** Splitting and re-joining gives back the original string. */
  lemma {:induction false} JoinSplit(s: string, sep: char)
    ensures Join(Split(s, sep), sep) == s
    decreases |s|
  {
    if |s| == 0 {
    } else if s[0] == sep {
      JoinSplit(s[1..], sep);
      var r := [""] + Split(s[1..], sep);
      assert r[1..] == Split(s[1..], sep);
      assert s == [sep] + s[1..];
    } else {
      JoinSplit(s[1..], sep);
      var rest := Split(s[1..], sep);
      JoinConsFirst(s[0], rest, sep);
      assert s == [s[0]] + s[1..];
    }
  }

  /** The pieces never contain the separator. */
  lemma {:induction false} SplitSeparatorFree(s: string, sep: char)
    ensures SeparatorFree(Split(s, sep), sep)
    decreases |s|
  {
    if |s| > 0 {
      SplitSeparatorFree(s[1..], sep);
      var rest := Split(s[1..], sep);
      if s[0] != sep {
        assert sep !in [s[0]] + rest[0] by {
          assert sep !in rest[0];
        }
      }
    }
  }

  /** A string without the separator is one piece. */
  lemma {:induction false} SplitWithoutSeparator(s: string, sep: char)
    requires sep !in s
    ensures Split(s, sep) == [s]
    decreases |s|
  {
    if |s| > 0 {
      assert sep !in s[1..];
      SplitWithoutSeparator(s[1..], sep);
      assert s == [s[0]] + s[1..];
    }
  }

  /** Splitting at a separator splits the two sides independently. */
  lemma {:induction false} SplitAtSeparator(x: string, y: string, sep: char)
    requires sep !in x
    ensures Split(x + [sep] + y, sep) == [x] + Split(y, sep)
    decreases |x|
  {
    var s := x + [sep] + y;
    if |x| == 0 {
      assert s[1..] == y;
    } else {
      assert s[1..] == x[1..] + [sep] + y;
      assert sep !in x[1..];
      SplitAtSeparator(x[1..], y, sep);
      assert [x[0]] + x[1..] == x;
    }
  }

  /** Joining separator-free pieces and splitting again gives back the pieces. */
  lemma {:induction false} SplitJoin(pieces: seq<string>, sep: char)
    requires |pieces| >= 1
    requires SeparatorFree(pieces, sep)
    ensures Split(Join(pieces, sep), sep) == pieces
    decreases |pieces|
  {
    if |pieces| == 1 {
      SplitWithoutSeparator(pieces[0], sep);
    } else {
      assert sep !in pieces[0];
      SplitJoin(pieces[1..], sep);
      SplitAtSeparator(pieces[0], Join(pieces[1..], sep), sep);
      assert [pieces[0]] + pieces[1..] == pieces;
    }
  }

  /** A trailing separator yields a trailing empty piece. */
  lemma TrailingSeparatorGivesEmptyPiece(x: string, sep: char)
    ensures var r := Split(x + [sep], sep); r[|r| - 1] == ""
  {
    var pieces := Split(x, sep);
    SplitSeparatorFree(x, sep);
    JoinSplit(x, sep);
    var extended := pieces + [""];
    assert extended[..|pieces|] == pieces;
    JoinAppendEmpty(pieces, sep);
    assert SeparatorFree(extended, sep);
    SplitJoin(extended, sep);
  }

  /** Appending an empty piece appends one separator. */
  lemma {:induction false} JoinAppendEmpty(pieces: seq<string>, sep: char)
    requires |pieces| >= 1
    ensures Join(pieces + [""], sep) == Join(pieces, sep) + [sep]
    decreases |pieces|
  {
    var p := pieces + [""];
    if |pieces| == 1 {
      assert p[1..] == [""];
    } else {
      assert p[1..] == pieces[1..] + [""];
      JoinAppendEmpty(pieces[1..], sep);
    }
  }

  /** `k` occurs in `s` starting at index `i`. */
  predicate OccursAt(k: string, s: string, i: int)
  {
    0 <= i && i + |k| <= |s| && s[i..i + |k|] == k
  }

  /** `s.includes(k)`: some position of `s` starts an occurrence of `k`; the empty string occurs everywhere. */
  function Includes(s: string, k: string): (r: bool)
    ensures r <==> exists i :: OccursAt(k, s, i)
    decreases |s|
  {
    if |k| <= |s| && s[..|k|] == k then
      assert OccursAt(k, s, 0);
      true
    else if |s| == 0 then
      false
    else
      IncludesShift(s, k);
      Includes(s[1..], k)
  }

  /** An occurrence past the first position is an occurrence in the tail. */
  lemma IncludesShift(s: string, k: string)
    requires |s| > 0
    requires !OccursAt(k, s, 0)
    ensures (exists i :: OccursAt(k, s, i)) <==> (exists i :: OccursAt(k, s[1..], i))
  {
    if exists i :: OccursAt(k, s, i) {
      var i :| OccursAt(k, s, i);
      assert OccursAt(k, s[1..], i - 1);
    }
    if exists i :: OccursAt(k, s[1..], i) {
      var i :| OccursAt(k, s[1..], i);
      assert s[1..][i..i + |k|] == s[i + 1..i + 1 + |k|];
      assert OccursAt(k, s, i + 1);
    }
  }

  /** The empty string is included in every string. */
  lemma EmptyIncludedEverywhere(s: string)
    ensures Includes(s, "")
  {
    assert OccursAt("", s, 0);
  }
}
