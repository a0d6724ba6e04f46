/**
 * The child calendar's selection rule: the pattern `\b(k1|k2|...)\b`, compiled
 * case-insensitively, searched in an event title (`ChildCalendar.__init__` and
 * `ChildCalendar.is_a_keyword_match`). Keywords are matched as literal text.
 */
module Keywords {

  /** `\w` over ASCII: letters, digits and the underscore. */
  predicate IsWordChar(c: char) {
    'a' <= c <= 'z' || 'A' <= c <= 'Z' || '0' <= c <= '9' || c == '_'
  }

  /** `\b` at position `p`: exactly one of the characters around `p` is a word character. */
  predicate IsWordBoundary(s: string, p: int)
    requires 0 <= p <= |s|
  {
    (p > 0 && IsWordChar(s[p - 1])) != (p < |s| && IsWordChar(s[p]))
  }

  /** ASCII case folding. */
  function FoldCase(c: char): char {
    if 'A' <= c <= 'Z' then (c as int - 'A' as int + 'a' as int) as char else c
  }

  predicate SameIgnoringCase(a: string, b: string) {
    |a| == |b| && forall k :: 0 <= k < |a| ==> FoldCase(a[k]) == FoldCase(b[k])
  }

  /** `keyword` occurs at position `p` of `title`, with a word boundary on each side. */
  predicate WholeWordAt(title: string, p: int, keyword: string) {
    0 <= p && p + |keyword| <= |title|
    && IsWordBoundary(title, p)
    && SameIgnoringCase(title[p..p + |keyword|], keyword)
    && IsWordBoundary(title, p + |keyword|)
  }

  ghost predicate OccursAsWord(title: string, keyword: string) {
    exists p :: WholeWordAt(title, p, keyword)
  }

  /** Some keyword matches as a whole word at position `p`. */
  function AnyKeywordAt(keywords: seq<string>, title: string, p: int): (b: bool)
    ensures b <==> exists i :: 0 <= i < |keywords| && WholeWordAt(title, p, keywords[i])
  {
    if keywords == [] then false
    else
      WholeWordAt(title, p, keywords[0]) || AnyKeywordAt(keywords[1..], title, p)
  }

  /** `re.search`: some match starts at `from` or later. */
  function SearchFrom(keywords: seq<string>, title: string, from: nat): (b: bool)
    ensures b <==> exists i, p :: 0 <= i < |keywords| && from <= p && WholeWordAt(title, p, keywords[i])
    decreases |title| + 1 - from
  {
    if from > |title| then false
    else AnyKeywordAt(keywords, title, from) || SearchFrom(keywords, title, from + 1)
  }

  /**
   * `ChildCalendar.is_a_keyword_match`: never true without keywords; otherwise
   * true iff some keyword occurs case-insensitively as a whole word of `title`.
   */
  function KeywordMatch(keywords: seq<string>, title: string): (b: bool)
    ensures keywords == [] ==> !b
    ensures b <==> exists k :: k in keywords && OccursAsWord(title, k)
  {
    if keywords == [] then false
    else
      var r := SearchFrom(keywords, title, 0);
      assert r ==> exists k :: k in keywords && OccursAsWord(title, k) by {
        if r {
          var i, p :| 0 <= i < |keywords| && 0 <= p && WholeWordAt(title, p, keywords[i]);
          assert OccursAsWord(title, keywords[i]);
        }
      }
      assert (exists k :: k in keywords && OccursAsWord(title, k)) ==> r by {
        if k :| k in keywords && OccursAsWord(title, k) {
          var p :| WholeWordAt(title, p, k);
          var i :| 0 <= i < |keywords| && keywords[i] == k;
          assert WholeWordAt(title, p, keywords[i]);
        }
      }
      r
  }

  /** Examples of keyword selection: a keyword that is a whole word of the title is selected... */
  lemma SoccerPracticeMatches()
    ensures KeywordMatch(["soccer"], "Soccer Practice")
  {
    var t := "Soccer Practice";
    assert WholeWordAt(t, 0, "soccer") by {
      assert t[0..6] == "Soccer";
      assert IsWordBoundary(t, 6);
    }
    assert OccursAsWord(t, "soccer");
  }

  /** ...a keyword that is only part of a longer word is not... */
  lemma SoccerishDoesNotMatch()
    ensures !KeywordMatch(["soccer"], "soccerish")
  {
    var u := "soccerish";
    forall p ensures !WholeWordAt(u, p, "soccer") {
      if 0 < p <= 3 {
        assert IsWordChar(u[p - 1]) && IsWordChar(u[p]);
      } else if p == 0 {
        assert IsWordChar(u[5]) && IsWordChar(u[6]);
      }
    }
  }

  /** ...and neither is a title without the keyword. */
  lemma BasketballDoesNotMatch()
    ensures !KeywordMatch(["soccer"], "Basketball")
  {
    var v := "Basketball";
    forall p ensures !WholeWordAt(v, p, "soccer") {
      if 0 <= p <= 4 {
        assert FoldCase(v[p]) != 's' || FoldCase(v[p + 1]) != 'o';
        assert v[p..p + 6][0] == v[p] && v[p..p + 6][1] == v[p + 1];
      }
    }
  }
}
