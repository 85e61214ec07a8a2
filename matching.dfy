/** The interest-based match score between a student and a mentor, and the
    recommendation order built on it. */
module Matching {
  import opened Common
  import opened Base
  import opened Sorting

  /** A number, or the NaN that `0 / 0` gives. */
  datatype Score = Score(value: int) | NaN

  /** A mentor handed to the sort: its id and its expertise, which may be
      missing. */
  datatype MentorDoc = MentorDoc(id: Id, expertise: Option<seq<string>>)

  /** How many of the student's interests the mentor lists as expertise,
      counting a repeated interest once per occurrence. */
  function Shared(interests: seq<string>, expertise: seq<string>): (c: nat)
    ensures c <= |interests|
    ensures c == 0 <==> forall k :: 0 <= k < |interests| ==> interests[k] !in expertise
    ensures c == |interests| <==> forall k :: 0 <= k < |interests| ==> interests[k] in expertise
  {
    if interests == [] then 0
    else
      var rest := Shared(interests[1..], expertise);
      assert forall k :: 1 <= k < |interests| ==> interests[k] == interests[1..][k - 1];
      (if interests[0] in expertise then 1 else 0) + rest
  }

  /** Only which subjects the mentor lists matters, not their order nor their
      repetitions. */
  lemma {:induction false} SharedSameSubjects(interests: seq<string>, e1: seq<string>, e2: seq<string>)
    requires forall x :: x in e1 <==> x in e2
    ensures Shared(interests, e1) == Shared(interests, e2)
  {
    if interests != [] {
      SharedSameSubjects(interests[1..], e1, e2);
    }
  }

  /** `calculateMatchScore`: 0 when either list is missing; otherwise the
      percentage of the student's interests the mentor shares, rounded to the
      nearest integer (which is NaN for an empty interest list). */
  function MatchScore(interests: Option<seq<string>>, expertise: Option<seq<string>>): (s: Score)
    ensures interests.None? || expertise.None? ==> s == Score(0)
    ensures interests == Some([]) && expertise.Some? ==> s == NaN
    ensures interests.Some? && expertise.Some? && interests.value != [] ==> s.Score?
    ensures s.Score? ==> 0 <= s.value <= 100
    ensures s.Score? && interests.Some? && expertise.Some? && |interests.value| > 0 ==>
      var n := |interests.value|;
      var c := Shared(interests.value, expertise.value);
      2 * n * s.value <= 200 * c + n < 2 * n * (s.value + 1)
  {
    if interests.None? || expertise.None? then Score(0)
    else if interests.value == [] then NaN
    else
      var c := Shared(interests.value, expertise.value);
      ScoreRange(c, |interests.value|);
      Score(RoundDiv(100 * c, |interests.value|))
  }

  lemma ScoreRange(c: nat, n: nat)
    requires 0 < n && c <= n
    ensures 0 <= RoundDiv(100 * c, n) <= 100
  {
    var r := RoundDiv(100 * c, n);
    if r > 100 {
      MulMono(101, r, 2 * n);
    }
    if r < 0 {
      MulMono(r + 1, 0, 2 * n);
    }
  }

  /** Below 200 interests the score is 100 exactly when every interest is
      shared and 0 exactly when none is; with more interests one missing or
      one shared interest is lost in the rounding. */
  lemma ScoreExtremes(interests: seq<string>, expertise: seq<string>)
    requires 0 < |interests| < 200
    ensures MatchScore(Some(interests), Some(expertise)) == Score(100) <==>
      forall k :: 0 <= k < |interests| ==> interests[k] in expertise
    ensures MatchScore(Some(interests), Some(expertise)) == Score(0) <==>
      forall k :: 0 <= k < |interests| ==> interests[k] !in expertise
  {
    var n := |interests|;
    var c := Shared(interests, expertise);
    var r := MatchScore(Some(interests), Some(expertise)).value;
    assert 2 * n * r <= 200 * c + n < 2 * n * (r + 1);
    if c == n {
      if r < 100 {
        MulMono(r + 1, 100, 2 * n);
      }
    } else {
      assert 200 * c + n <= 201 * n - 200 < 200 * n;
      if r >= 100 {
        MulMono(100, r, 2 * n);
      }
    }
    if c == 0 {
      if r >= 1 {
        MulMono(1, r, 2 * n);
      }
    } else {
      if r <= 0 {
        MulMono(r + 1, 1, 2 * n);
      }
    }
  }

  /** Reordering or repeating the mentor's expertise leaves the score. */
  lemma MatchScoreSameSubjects(interests: Option<seq<string>>, e1: seq<string>, e2: seq<string>)
    requires forall x :: x in e1 <==> x in e2
    ensures MatchScore(interests, Some(e1)) == MatchScore(interests, Some(e2))
  {
    if interests.Some? {
      SharedSameSubjects(interests.value, e1, e2);
    }
  }

  /** Mentors tagged with their score, in input order. */
  function Tagged(interests: Option<seq<string>>, mentors: seq<MentorDoc>): (r: seq<(MentorDoc, Score)>)
    ensures |r| == |mentors|
    ensures forall k :: 0 <= k < |r| ==> r[k] == (mentors[k], MatchScore(interests, mentors[k].expertise))
  {
    seq(|mentors|, k requires 0 <= k < |mentors| => (mentors[k], MatchScore(interests, mentors[k].expertise)))
  }

  /** The comparator `b.matchScore - a.matchScore` as an ascending key. A
      NaN difference counts as 0, so a NaN score compares equal to every
      score; NaN only arises for an empty interest list, where every score is
      NaN or 0 and all of them compare equal. */
  function ScoreKey(e: (MentorDoc, Score)): int {
    if e.1.Score? then -e.1.value else 0
  }

  /** A NaN score means every mentor scores NaN or 0. */
  lemma NaNOnlyBesideZero(interests: Option<seq<string>>, m1: MentorDoc, m2: MentorDoc)
    requires MatchScore(interests, m1.expertise) == NaN
    ensures MatchScore(interests, m2.expertise) in {NaN, Score(0)}
  {
  }

  /** `sortByMatchScore`: the mentors tagged with their scores, best first,
      by a stable sort. */
  function SortByMatchScore(interests: Option<seq<string>>, mentors: seq<MentorDoc>): (r: seq<(MentorDoc, Score)>)
    ensures |r| == |mentors|
    ensures multiset(r) == multiset(Tagged(interests, mentors))
    ensures forall k :: 0 <= k < |r| ==> r[k].1 == MatchScore(interests, r[k].0.expertise)
    ensures forall i, j :: 0 <= i < j < |r| ==> ScoreKey(r[i]) <= ScoreKey(r[j])
  {
    var t := Tagged(interests, mentors);
    var r := SortBy(t, ScoreKey);
    forall k | 0 <= k < |r| ensures r[k].1 == MatchScore(interests, r[k].0.expertise) {
      assert r[k] in multiset(t);
    }
    r
  }

  /** Mentors whose scores compare equal keep their input order. */
  lemma SortByMatchScoreStable(interests: Option<seq<string>>, mentors: seq<MentorDoc>, k: int)
    ensures WithKey(SortByMatchScore(interests, mentors), ScoreKey, k) ==
      WithKey(Tagged(interests, mentors), ScoreKey, k)
  {
    SortByStable(Tagged(interests, mentors), ScoreKey, k);
  }

  lemma {:induction false} WithKeyAll<T>(s: seq<T>, key: T -> int, k: int)
    requires forall i :: 0 <= i < |s| ==> key(s[i]) == k
    ensures WithKey(s, key, k) == s
  {
    if s != [] {
      assert forall i :: 0 <= i < |s[1..]| ==> s[1..][i] == s[i + 1];
      WithKeyAll(s[1..], key, k);
      assert [s[0]] + s[1..] == s;
    }
  }

  /** With an empty interest list the mentors come back in input order. */
  lemma NoInterestsInputOrder(mentors: seq<MentorDoc>)
    ensures SortByMatchScore(Some([]), mentors) == Tagged(Some([]), mentors)
  {
    var t := Tagged(Some([]), mentors);
    var r := SortByMatchScore(Some([]), mentors);
    assert forall i :: 0 <= i < |t| ==> ScoreKey(t[i]) == 0;
    forall i | 0 <= i < |r| ensures ScoreKey(r[i]) == 0 {
      assert r[i] in multiset(t);
    }
    SortByMatchScoreStable(Some([]), mentors, 0);
    WithKeyAll(t, ScoreKey, 0);
    WithKeyAll(r, ScoreKey, 0);
  }
}
