/** AppendSortingResult (internal/utils/admin_reviews_helper.go:76-110): the four sentiment filters. */
module Sentiment {

  datatype Analysed = Analysed(reviewID: int, summary: string)

  const PRAISE := "Khen"
  const COMPLAINT := "Ch\U{00EA}"
  const NEUTRAL := "\U{00DD} ki\U{1EBF}n trung l\U{1EAD}p"
  const KEYWORDS := [PRAISE, COMPLAINT, NEUTRAL]

  const POSITIVE_SORT := "Positive Sentiment"
  const NEGATIVE_SORT := "Negative Sentiment"
  const NEUTRAL_SORT := "Neutral Sentiment"
  const MIXED_SORT := "Mixed Sentiment"

  predicate OccursAt(s: string, word: string, i: nat)
    requires i + |word| <= |s|
  {
    s[i..i + |word|] == word
  }

  /** strings.Contains */
  predicate Contains(s: string, word: string) {
    exists i: nat :: i + |word| <= |s| && OccursAt(s, word, i)
  }

  /** How many of the keywords the summary contains. */
  function Count(summary: string, keywords: seq<string>): nat {
    if keywords == [] then 0
    else Count(summary, keywords[..|keywords| - 1]) + (if Contains(summary, keywords[|keywords| - 1]) then 1 else 0)
  }

  predicate Kept(s: Analysed, sort: string) {
    var count := Count(s.summary, KEYWORDS);
    || (sort == POSITIVE_SORT && count == 1 && Contains(s.summary, PRAISE))
    || (sort == NEGATIVE_SORT && count == 1 && Contains(s.summary, COMPLAINT))
    || (sort == NEUTRAL_SORT && count == 1 && Contains(s.summary, NEUTRAL))
    || (sort == MIXED_SORT && count >= 2)
  }

  /** The elements a filter keeps, in their order: a subsequence of the input. */
  function Filter(result: seq<Analysed>, sort: string): seq<Analysed> {
    if result == [] then []
    else
      var n := |result| - 1;
      Filter(result[..n], sort) + (if Kept(result[n], sort) then [result[n]] else [])
  }

  method AppendSortingResult(result: seq<Analysed>, sort: string) returns (sortingResult: seq<Analysed>)
    ensures sortingResult == Filter(result, sort)
  {
    sortingResult := [];
    var keywords := KEYWORDS;
    for i := 0 to |result|
      invariant sortingResult == Filter(result[..i], sort)
    {
      var s := result[i];
      var count := 0;
      for j := 0 to |keywords|
        invariant count == Count(s.summary, keywords[..j])
      {
        assert keywords[..j + 1][..j] == keywords[..j];
        if Contains(s.summary, keywords[j]) {
          count := count + 1;
        }
      }
      assert keywords[..|keywords|] == KEYWORDS;
      if sort == POSITIVE_SORT {
        if count == 1 && Contains(s.summary, PRAISE) {
          sortingResult := sortingResult + [s];
        }
      } else if sort == NEGATIVE_SORT {
        if count == 1 && Contains(s.summary, COMPLAINT) {
          sortingResult := sortingResult + [s];
        }
      } else if sort == NEUTRAL_SORT {
        if count == 1 && Contains(s.summary, NEUTRAL) {
          sortingResult := sortingResult + [s];
        }
      } else if sort == MIXED_SORT {
        if count >= 2 {
          sortingResult := sortingResult + [s];
        }
      }
      assert result[..i + 1][..i] == result[..i];
    }
    assert result[..|result|] == result;
  }

  lemma SortsDiffer()
    ensures POSITIVE_SORT != NEGATIVE_SORT && POSITIVE_SORT != NEUTRAL_SORT && POSITIVE_SORT != MIXED_SORT
    ensures NEGATIVE_SORT != NEUTRAL_SORT && NEGATIVE_SORT != MIXED_SORT && NEUTRAL_SORT != MIXED_SORT
  {
    assert POSITIVE_SORT[0] == 'P' && NEGATIVE_SORT[1] == 'e' && NEUTRAL_SORT[2] == 'u' && MIXED_SORT[0] == 'M';
    assert NEGATIVE_SORT[0] == 'N' && NEUTRAL_SORT[0] == 'N' && NEGATIVE_SORT[2] == 'g';
  }

  lemma CountOfThree(s: string, x: string, y: string, z: string)
    ensures Count(s, [x, y, z]) ==
            (if Contains(s, x) then 1 else 0) + (if Contains(s, y) then 1 else 0) + (if Contains(s, z) then 1 else 0)
  {
    assert [x, y, z][..2] == [x, y] && [x, y][..1] == [x] && [x][..0] == [];
    assert Count(s, [x, y]) == Count(s, [x]) + if Contains(s, y) then 1 else 0;
  }

  /** Which keywords a summary must and must not contain to pass each filter. */
  lemma KeptSays(s: Analysed, sort: string)
    ensures var praise, complaint, neutral :=
              Contains(s.summary, "Khen"), Contains(s.summary, "Ch\U{00EA}"), Contains(s.summary, "\U{00DD} ki\U{1EBF}n trung l\U{1EAD}p");
            && (Kept(s, "Positive Sentiment") <==> praise && !complaint && !neutral)
            && (Kept(s, "Negative Sentiment") <==> complaint && !praise && !neutral)
            && (Kept(s, "Neutral Sentiment") <==> neutral && !praise && !complaint)
            && (Kept(s, "Mixed Sentiment") <==> (praise && complaint) || (praise && neutral) || (complaint && neutral))
            && (sort !in {"Positive Sentiment", "Negative Sentiment", "Neutral Sentiment", "Mixed Sentiment"} ==> !Kept(s, sort))
  {
    SortsDiffer();
    CountOfThree(s.summary, PRAISE, COMPLAINT, NEUTRAL);
  }

  /** A filter's result holds exactly the inputs it keeps. */
  lemma {:induction false} FilterHolds(result: seq<Analysed>, sort: string)
    ensures forall x :: x in Filter(result, sort) <==> x in result && Kept(x, sort)
  {
    if result != [] {
      var n := |result| - 1;
      FilterHolds(result[..n], sort);
      assert result == result[..n] + [result[n]];
    }
  }

  /** The result of each sort, in terms of the keywords its summaries contain; any other sort gives none. */
  lemma FilterSays(result: seq<Analysed>, sort: string, x: Analysed)
    ensures var praise, complaint, neutral :=
              Contains(x.summary, "Khen"), Contains(x.summary, "Ch\U{00EA}"), Contains(x.summary, "\U{00DD} ki\U{1EBF}n trung l\U{1EAD}p");
            && (x in Filter(result, "Positive Sentiment") <==> x in result && praise && !complaint && !neutral)
            && (x in Filter(result, "Negative Sentiment") <==> x in result && complaint && !praise && !neutral)
            && (x in Filter(result, "Neutral Sentiment") <==> x in result && neutral && !praise && !complaint)
            && (x in Filter(result, "Mixed Sentiment") <==>
                  x in result && ((praise && complaint) || (praise && neutral) || (complaint && neutral)))
            && (sort !in {"Positive Sentiment", "Negative Sentiment", "Neutral Sentiment", "Mixed Sentiment"} ==>
                  x !in Filter(result, sort))
  {
    KeptSays(x, sort);
    FilterHolds(result, "Positive Sentiment");
    FilterHolds(result, "Negative Sentiment");
    FilterHolds(result, "Neutral Sentiment");
    FilterHolds(result, "Mixed Sentiment");
    FilterHolds(result, sort);
  }

  /** A string contains a word exactly when it is the word with something before and something after it. */
  lemma ContainsIff(s: string, word: string)
    ensures Contains(s, word) <==> exists before, after :: s == before + word + after
  {
    if Contains(s, word) {
      var i: nat :| i + |word| <= |s| && OccursAt(s, word, i);
      assert s == s[..i] + word + s[i + |word|..];
    }
    forall before, after | s == before + word + after
      ensures Contains(s, word)
    {
      assert OccursAt(s, word, |before|);
    }
  }

  /** A summary with a keyword passes exactly one of the four filters; one without passes none. */
  lemma OneFilterEach(s: Analysed)
    ensures var total := (if Kept(s, POSITIVE_SORT) then 1 else 0) + (if Kept(s, NEGATIVE_SORT) then 1 else 0)
                         + (if Kept(s, NEUTRAL_SORT) then 1 else 0) + (if Kept(s, MIXED_SORT) then 1 else 0);
            total == if exists k :: 0 <= k < 3 && Contains(s.summary, KEYWORDS[k]) then 1 else 0
  {
    SortsDiffer();
    var a, b, c := Contains(s.summary, PRAISE), Contains(s.summary, COMPLAINT), Contains(s.summary, NEUTRAL);
    CountOfThree(s.summary, PRAISE, COMPLAINT, NEUTRAL);
    assert KEYWORDS[0] == PRAISE && KEYWORDS[1] == COMPLAINT && KEYWORDS[2] == NEUTRAL;
  }

  /** The inputs with at least one keyword. */
  function WithKeyword(result: seq<Analysed>): seq<Analysed> {
    if result == [] then []
    else
      var n := |result| - 1;
      WithKeyword(result[..n]) +
      (if exists k :: 0 <= k < 3 && Contains(result[n].summary, KEYWORDS[k]) then [result[n]] else [])
  }

  lemma FilterStep(result: seq<Analysed>, sort: string)
    requires result != []
    ensures var n := |result| - 1;
            multiset(Filter(result, sort)) ==
            multiset(Filter(result[..n], sort)) + Once(Kept(result[n], sort), result[n])
  {
  }

  lemma KeywordStep(result: seq<Analysed>)
    requires result != []
    ensures var n := |result| - 1;
            multiset(WithKeyword(result)) ==
            multiset(WithKeyword(result[..n]))
            + Once(exists k :: 0 <= k < 3 && Contains(result[n].summary, KEYWORDS[k]), result[n])
  {
  }

  function Once(kept: bool, x: Analysed): multiset<Analysed> {
    if kept then multiset{x} else multiset{}
  }

  lemma OnceInAll(a: bool, b: bool, c: bool, d: bool, x: Analysed)
    requires (if a then 1 else 0) + (if b then 1 else 0) + (if c then 1 else 0) + (if d then 1 else 0) <= 1
    ensures Once(a, x) + Once(b, x) + Once(c, x) + Once(d, x) == Once(a || b || c || d, x)
  {
  }

  lemma RegroupSums(
      p: multiset<Analysed>, q: multiset<Analysed>, r: multiset<Analysed>, s: multiset<Analysed>,
      a: multiset<Analysed>, b: multiset<Analysed>, c: multiset<Analysed>, d: multiset<Analysed>)
    ensures (p + a) + (q + b) + (r + c) + (s + d) == (p + q + r + s) + (a + b + c + d)
  {
  }

  /** Together the four filters return each input with a keyword exactly once, and nothing else. */
  lemma {:induction false} FiltersPartition(result: seq<Analysed>)
    ensures multiset(Filter(result, POSITIVE_SORT)) + multiset(Filter(result, NEGATIVE_SORT))
            + multiset(Filter(result, NEUTRAL_SORT)) + multiset(Filter(result, MIXED_SORT))
            == multiset(WithKeyword(result))
  {
    if result != [] {
      var n := |result| - 1;
      var x, before := result[n], result[..n];
      FiltersPartition(before);
      OneFilterEach(x);
      FilterStep(result, POSITIVE_SORT);
      FilterStep(result, NEGATIVE_SORT);
      FilterStep(result, NEUTRAL_SORT);
      FilterStep(result, MIXED_SORT);
      KeywordStep(result);
      var a, b, c, d := Kept(x, POSITIVE_SORT), Kept(x, NEGATIVE_SORT), Kept(x, NEUTRAL_SORT), Kept(x, MIXED_SORT);
      OnceInAll(a, b, c, d, x);
      RegroupSums(multiset(Filter(before, POSITIVE_SORT)), multiset(Filter(before, NEGATIVE_SORT)),
                  multiset(Filter(before, NEUTRAL_SORT)), multiset(Filter(before, MIXED_SORT)),
                  Once(a, x), Once(b, x), Once(c, x), Once(d, x));
    }
  }

  /** Each filter's result is the input at an increasing choice of positions. */
  ghost predicate Picks(positions: seq<nat>, result: seq<Analysed>, picked: seq<Analysed>) {
    && |positions| == |picked|
    && (forall k :: 0 <= k < |positions| ==> positions[k] < |result| && picked[k] == result[positions[k]])
    && (forall j, k :: 0 <= j < k < |positions| ==> positions[j] < positions[k])
  }

  lemma {:induction false} FilterKeepsOrder(result: seq<Analysed>, sort: string) returns (positions: seq<nat>)
    ensures Picks(positions, result, Filter(result, sort))
  {
    positions := [];
    if result != [] {
      var n := |result| - 1;
      positions := FilterKeepsOrder(result[..n], sort);
      if Kept(result[n], sort) {
        positions := positions + [n];
      }
    }
  }
}
