/**
 * The .NET string operations the core relies on, over seq<char>:
 * string.IsNullOrWhiteSpace, string.Contains with OrdinalIgnoreCase and
 * string.Join. Whitespace and case folding are the ASCII subset of the
 * Unicode rules .NET applies.
 */
module Text {
  import opened Wrappers

  /** char.IsWhiteSpace on ASCII: space, and tab through carriage return. */
  predicate IsWhiteSpace(c: char) {
    c == ' ' || '\t' <= c <= '\r'
  }

  /** string.TrimStart(): the text from its first non-white-space character on. */
  function {:induction false} TrimStart(s: string): (r: string)
    ensures |r| <= |s|
    ensures r != [] ==> !IsWhiteSpace(r[0])
  {
    if s == [] then []
    else if IsWhiteSpace(s[0]) then TrimStart(s[1..])
    else s
  }

  /** A text is all white space exactly when trimming its leading white space leaves nothing. */
  lemma {:induction false} AllWhiteSpaceTrimsEmpty(s: string)
    ensures (forall i :: 0 <= i < |s| ==> IsWhiteSpace(s[i])) <==> TrimStart(s) == []
  {
    if s != [] && IsWhiteSpace(s[0]) {
      AllWhiteSpaceTrimsEmpty(s[1..]);
      assert forall i :: 1 <= i < |s| ==> s[i] == s[1..][i - 1];
    }
  }

  /**
   * string.IsNullOrWhiteSpace; a C# null string is None. As documented for
   * .NET, it holds exactly when the text is null or trims to the empty text.
   */
  function IsNullOrWhiteSpace(s: Option<string>): (r: bool)
    ensures r <==> s.None? || TrimStart(s.value) == []
  {
    if s.None? then true
    else
      AllWhiteSpaceTrimsEmpty(s.value);
      forall i :: 0 <= i < |s.value| ==> IsWhiteSpace(s.value[i])
  }

  /** OrdinalIgnoreCase compares upper-cased characters. */
  function UpperAscii(c: char): char {
    if 'a' <= c <= 'z' then (c as int - 32) as char else c
  }

  function Fold(s: string): (r: string)
    ensures |r| == |s|
  {
    seq(|s|, i requires 0 <= i < |s| => UpperAscii(s[i]))
  }

  /** Folding an already folded text changes nothing. */
  lemma FoldIdempotent(s: string)
    ensures Fold(Fold(s)) == Fold(s)
  {
    assert forall i :: 0 <= i < |s| ==> Fold(Fold(s))[i] == Fold(s)[i];
  }

  /** Ordinal substring test: needle starts at some position of hay. */
  predicate Contains(hay: string, needle: string) {
    exists i :: 0 <= i <= |hay| && needle <= hay[i..]
  }

  /** An exact (ordinal) occurrence is also an occurrence of the folded texts. */
  lemma ContainsFolded(hay: string, needle: string)
    requires Contains(hay, needle)
    ensures Contains(Fold(hay), Fold(needle))
  {
    var i :| 0 <= i <= |hay| && needle <= hay[i..];
    assert Fold(needle) <= Fold(hay[i..]);
    assert Fold(hay[i..]) == Fold(hay)[i..];
  }

  /**
   * The needle occurs at position i of the hay when characters are compared
   * upper-cased, one by one.
   */
  predicate MatchesAtIgnoringCase(hay: string, needle: string, i: int) {
    && 0 <= i && i + |needle| <= |hay|
    && forall j :: 0 <= j < |needle| ==> UpperAscii(hay[i + j]) == UpperAscii(needle[j])
  }

  /** An occurrence of the folded needle in the folded hay is a case-blind match there. */
  lemma FoldedOccurrenceIsMatch(hay: string, needle: string, i: int)
    requires 0 <= i <= |hay| && Fold(needle) <= Fold(hay)[i..]
    ensures MatchesAtIgnoringCase(hay, needle, i)
  {
    forall j | 0 <= j < |needle| ensures UpperAscii(hay[i + j]) == UpperAscii(needle[j]) {
      assert Fold(needle)[j] == Fold(hay)[i..][j];
    }
  }

  /** A case-blind match at a position is an occurrence of the folded needle there. */
  lemma MatchIsFoldedOccurrence(hay: string, needle: string, i: int)
    requires MatchesAtIgnoringCase(hay, needle, i)
    ensures 0 <= i <= |hay| && Fold(needle) <= Fold(hay)[i..]
  {
    assert Fold(needle) == Fold(hay)[i..][..|needle|];
  }

  /**
   * string.Contains(needle, StringComparison.OrdinalIgnoreCase): true exactly
   * when the needle matches the hay at some position, comparing characters
   * upper-cased. So an exact occurrence is always found, and the empty needle
   * occurs everywhere.
   */
  function ContainsIgnoreCase(hay: string, needle: string): (r: bool)
    ensures r <==> exists i :: MatchesAtIgnoringCase(hay, needle, i)
    ensures Contains(hay, needle) ==> r
    ensures needle == [] ==> r
  {
    if Contains(hay, needle) then
      ContainsFolded(hay, needle);
      var i :| 0 <= i <= |hay| && Fold(needle) <= Fold(hay)[i..];
      FoldedOccurrenceIsMatch(hay, needle, i);
      true
    else
      assert needle == [] ==> MatchesAtIgnoringCase(hay, needle, 0);
      var found := Contains(Fold(hay), Fold(needle));
      assert found ==> exists i :: MatchesAtIgnoringCase(hay, needle, i) by {
        if found {
          var i :| 0 <= i <= |hay| && Fold(needle) <= Fold(hay)[i..];
          FoldedOccurrenceIsMatch(hay, needle, i);
        }
      }
      assert (exists i :: MatchesAtIgnoringCase(hay, needle, i)) ==> found by {
        if exists i :: MatchesAtIgnoringCase(hay, needle, i) {
          var i :| MatchesAtIgnoringCase(hay, needle, i);
          MatchIsFoldedOccurrence(hay, needle, i);
        }
      }
      found
  }

  /** Case does not matter: folding either text first gives the same answer. */
  lemma IgnoreCaseIgnoresFolding(hay: string, needle: string)
    ensures ContainsIgnoreCase(Fold(hay), needle) == ContainsIgnoreCase(hay, needle)
    ensures ContainsIgnoreCase(hay, Fold(needle)) == ContainsIgnoreCase(hay, needle)
  {
    FoldIdempotent(hay);
    FoldIdempotent(needle);
    if Contains(Fold(hay), needle) {
      ContainsFolded(Fold(hay), needle);
    }
    if Contains(hay, Fold(needle)) {
      ContainsFolded(hay, Fold(needle));
    }
    if Contains(hay, needle) {
      ContainsFolded(hay, needle);
    }
  }

  /** string.Join(separator, parts). */
  function Join(parts: seq<string>, separator: string): (r: string)
    ensures parts == [] ==> r == ""
    ensures |parts| == 1 ==> r == parts[0]
    ensures parts != [] ==> parts[0] <= r
    decreases |parts|
  {
    if parts == [] then ""
    else if |parts| == 1 then parts[0]
    else parts[0] + separator + Join(parts[1..], separator)
  }

  /**
   * Joining two non-empty lists is joining each and putting one separator
   * between them; with the one-part case this fixes every part, in order,
   * with exactly one separator between consecutive parts.
   */
  lemma {:induction false} JoinAppend(a: seq<string>, b: seq<string>, separator: string)
    requires a != [] && b != []
    ensures Join(a + b, separator) == Join(a, separator) + separator + Join(b, separator)
  {
    var ab := a + b;
    assert ab[0] == a[0] && |ab| > 1;
    assert Join(ab, separator) == a[0] + separator + Join(ab[1..], separator);
    if |a| == 1 {
      assert ab[1..] == b;
    } else {
      assert ab[1..] == a[1..] + b;
      JoinAppend(a[1..], b, separator);
      var x, y := Join(a[1..], separator), Join(b, separator);
      assert a[0] + separator + (x + separator + y) == (a[0] + separator + x) + separator + y;
    }
  }

  /** The length of a join: every part plus one separator between each two. */
  function TotalLength(parts: seq<string>): nat {
    if parts == [] then 0 else |parts[0]| + TotalLength(parts[1..])
  }

  lemma {:induction false} JoinLength(parts: seq<string>, separator: string)
    requires parts != []
    ensures |Join(parts, separator)| == TotalLength(parts) + (|parts| - 1) * |separator|
  {
    if |parts| > 1 {
      JoinLength(parts[1..], separator);
    }
  }

  /** Every part occurs in the join. */
  lemma JoinContainsParts(parts: seq<string>, separator: string, i: nat)
    requires i < |parts|
    ensures Contains(Join(parts, separator), parts[i])
  {
    var j: string := Join(parts, separator);
    var offset: nat := 0;
    if i > 0 {
      assert parts == parts[..i] + parts[i..];
      JoinAppend(parts[..i], parts[i..], separator);
      offset := |Join(parts[..i], separator) + separator|;
    }
    assert parts[i..][0] == parts[i];
    assert j[offset..] == Join(parts[i..], separator);
  }

  lemma JoinContainsAll(parts: seq<string>, separator: string)
    ensures forall i :: 0 <= i < |parts| ==> Contains(Join(parts, separator), parts[i])
  {
    forall i | 0 <= i < |parts| ensures Contains(Join(parts, separator), parts[i]) {
      JoinContainsParts(parts, separator, i);
    }
  }
}
