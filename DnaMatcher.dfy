/**
 * The query processor of the STR database: count each STR in a DNA sample,
 * score every person by the number of STR counts they share with the sample,
 * and report the people with the best positive score.
 */
module DnaMatching {
  import opened Wrappers
  import opened JavaText
  import opened DnaRecords

  // ---------------------------------------------------------------------------
  // Counting an STR in a sample
  // ---------------------------------------------------------------------------

  /** numSubstrings: append "$" and split the sample on the STR; the number of
      pieces less one. An empty STR splits the sample between every pair of
      characters, which yields one piece per character of `s` plus the "$". */
  function NumSubstrings(s: string, sub: string): int {
    if sub == "" then |s| else |Split(s + "$", sub)| - 1
  }

  /** The reference count: non-overlapping occurrences of `sub`, scanning left
      to right and resuming after each occurrence. */
  function Occurrences(s: string, sub: string): nat
    requires |sub| > 0
    decreases |s|
  {
    if |s| < |sub| then 0
    else if s[..|sub|] == sub then 1 + Occurrences(s[|sub|..], sub)
    else Occurrences(s[1..], sub)
  }

  /** Occurrences never overlap, so they fit in the sample. */
  lemma {:induction false} OccurrencesFit(s: string, sub: string)
    requires |sub| > 0
    ensures Occurrences(s, sub) * |sub| <= |s|
    decreases |s|
  {
    if |s| < |sub| {
    } else if s[..|sub|] == sub {
      OccurrencesFit(s[|sub|..], sub);
    } else {
      OccurrencesFit(s[1..], sub);
    }
  }

  /** Skipping a stretch in which `sub` does not start changes no count. */
  lemma {:induction false} SkipNoOccurrence(s: string, sub: string, i: nat)
    requires |sub| > 0 && i <= |s|
    requires forall j :: 0 <= j < i ==> !OccursAt(s, sub, j)
    ensures Occurrences(s, sub) == Occurrences(s[i..], sub)
    decreases i
  {
    if i > 0 {
      assert !OccursAt(s, sub, 0);
      if |s| >= |sub| {
        assert s[0..|sub|] == s[..|sub|];
      }
      var t := s[1..];
      forall j | 0 <= j < i - 1
        ensures !OccursAt(t, sub, j)
      {
        assert !OccursAt(s, sub, j + 1);
        if j + |sub| <= |t| {
          assert t[j..j + |sub|] == s[j + 1..j + 1 + |sub|];
        }
      }
      SkipNoOccurrence(t, sub, i - 1);
      assert t[i - 1..] == s[i..];
    }
  }

  /** Splitting on `sub` yields one piece more than there are occurrences. */
  lemma {:induction false} SplitRawCounts(t: string, sub: string)
    requires |sub| > 0
    ensures |SplitRaw(t, sub)| == 1 + Occurrences(t, sub)
    decreases |t|
  {
    match Find(t, sub)
    case None =>
      SkipNoOccurrence(t, sub, |t|);
      assert t[|t|..] == "";
    case Some(i) =>
      SkipNoOccurrence(t, sub, i);
      var u := t[i..];
      assert u[..|sub|] == t[i..i + |sub|];
      assert u[|sub|..] == t[i + |sub|..];
      SplitRawCounts(t[i + |sub|..], sub);
  }

  /** An STR without '$' cannot see the '$' that numSubstrings appends. */
  lemma {:induction false} DollarUnseen(s: string, sub: string)
    requires |sub| > 0 && '$' !in sub
    ensures Occurrences(s + "$", sub) == Occurrences(s, sub)
    decreases |s|
  {
    var t := s + "$";
    if |t| < |sub| {
    } else if t[..|sub|] == sub {
      assert t[|t| - 1] == '$' && t[|sub| - 1] == sub[|sub| - 1] != '$';
      assert t[..|sub|] == s[..|sub|];
      assert t[|sub|..] == s[|sub|..] + "$";
      DollarUnseen(s[|sub|..], sub);
    } else if |s| == 0 {
      assert t[1..] == "";
    } else {
      if |s| >= |sub| {
        assert t[..|sub|] == s[..|sub|];
      }
      assert t[1..] == s[1..] + "$";
      DollarUnseen(s[1..], sub);
    }
  }

  /** Splitting a string that ends in '$' on an STR without '$' leaves a
      non-empty last piece, so String.split drops no trailing piece. */
  lemma {:induction false} LastPieceKept(t: string, sub: string)
    requires |sub| > 0 && '$' !in sub
    requires |t| > 0 && t[|t| - 1] == '$'
    ensures SplitRaw(t, sub)[|SplitRaw(t, sub)| - 1] != ""
    decreases |t|
  {
    match Find(t, sub)
    case None =>
    case Some(i) =>
      var rest := t[i + |sub|..];
      assert rest[|rest| - 1] == t[|t| - 1];
      LastPieceKept(rest, sub);
  }

  /** numSubstrings counts the non-overlapping, left-to-right, case-sensitive
      occurrences of a literal STR. */
  lemma NumSubstringsCounts(s: string, sub: string)
    requires sub != "" && '$' !in sub
    ensures NumSubstrings(s, sub) == Occurrences(s, sub)
  {
    var t := s + "$";
    SplitRawCounts(t, sub);
    DollarUnseen(s, sub);
    if Find(t, sub).Some? {
      LastPieceKept(t, sub);
      var parts := SplitRaw(t, sub);
      assert DropTrailingEmpty(parts) == parts;
    } else {
      assert SplitRaw(t, sub) == [t];
    }
  }

  // ---------------------------------------------------------------------------
  // Scoring people
  // ---------------------------------------------------------------------------

  /** Every person has a count for each of the first `n` STRs; `match` indexes
      each person's counts up to the number of STRs. */
  predicate CountsCover(people: seq<Person>, n: nat) {
    forall p :: p in people ==> |p.dnaRepeats| >= n
  }

  /** The count of each STR in the sample, in header order (`repeatCounts`). */
  function RepeatCounts(repeats: seq<string>, pattern: string): (counts: seq<int>)
    ensures |counts| == |repeats|
  {
    seq(|repeats|, i requires 0 <= i < |repeats| => NumSubstrings(pattern, repeats[i]))
  }

  /** The number of STRs on which a person's count equals the sample's. */
  function Agreement(counts: seq<int>, p: Person): (score: nat)
    requires |p.dnaRepeats| >= |counts|
    ensures score <= |counts|
    decreases |counts|
  {
    if counts == [] then 0
    else
      var n := |counts| - 1;
      Agreement(counts[..n], p) + (if counts[n] == p.dnaRepeats[n] then 1 else 0)
  }

  /** A person agrees on every STR exactly when their score is the number of STRs. */
  lemma {:induction false} AgreementFull(counts: seq<int>, p: Person)
    requires |p.dnaRepeats| >= |counts|
    ensures Agreement(counts, p) == |counts| <==> forall i :: 0 <= i < |counts| ==> counts[i] == p.dnaRepeats[i]
    decreases |counts|
  {
    if counts != [] {
      var n := |counts| - 1;
      var init := counts[..n];
      AgreementFull(init, p);
      if Agreement(counts, p) == |counts| {
        forall i | 0 <= i < |counts|
          ensures counts[i] == p.dnaRepeats[i]
        {
          if i < n {
            assert init[i] == counts[i];
          }
        }
      }
      if forall i :: 0 <= i < |counts| ==> counts[i] == p.dnaRepeats[i] {
        assert forall i :: 0 <= i < n ==> init[i] == p.dnaRepeats[i];
      }
    }
  }

  /** Every person's score, in the order of `people`. */
  function Scores(counts: seq<int>, people: seq<Person>): (scores: seq<int>)
    requires CountsCover(people, |counts|)
    ensures |scores| == |people|
  {
    seq(|people|, j requires 0 <= j < |people| => Agreement(counts, people[j]))
  }

  /** The highest score, or 0 when nobody scores. */
  function Best(scores: seq<int>): int
    decreases |scores|
  {
    if scores == [] then 0
    else
      var b := Best(scores[..|scores| - 1]);
      if scores[|scores| - 1] > b then scores[|scores| - 1] else b
  }

  /** Best is at least 0, bounds every score and, when positive, is some score. */
  lemma {:induction false} BestIsMaximum(scores: seq<int>)
    ensures Best(scores) >= 0
    ensures forall j :: 0 <= j < |scores| ==> scores[j] <= Best(scores)
    ensures Best(scores) > 0 ==> exists j :: 0 <= j < |scores| && scores[j] == Best(scores)
    decreases |scores|
  {
    if scores != [] {
      var init := scores[..|scores| - 1];
      BestIsMaximum(init);
      assert forall j :: 0 <= j < |init| ==> init[j] == scores[j];
    }
  }

  /** A score that bounds every score and is attained is the best one. */
  lemma BestAttained(scores: seq<int>, b: int, j: nat)
    requires j < |scores| && scores[j] == b
    requires forall k :: 0 <= k < |scores| ==> scores[k] <= b
    ensures Best(scores) == b || (b < 0 && Best(scores) == 0)
  {
    BestIsMaximum(scores);
  }

  /** The people whose score is `b`, in the order of `people`. */
  function Winners(people: seq<Person>, scores: seq<int>, b: int): seq<Person>
    requires |scores| == |people|
    decreases |people|
  {
    if people == [] then []
    else
      var n := |people| - 1;
      Winners(people[..n], scores[..n], b) + (if scores[n] == b then [people[n]] else [])
  }

  /** Winners keeps, in order, exactly the people with score `b`. */
  lemma {:induction false} WinnersAre(people: seq<Person>, scores: seq<int>, b: int)
    requires |scores| == |people|
    ensures forall x :: x in Winners(people, scores, b) <==> exists j :: 0 <= j < |people| && people[j] == x && scores[j] == b
    ensures |Winners(people, scores, b)| > 0 <==> exists j :: 0 <= j < |people| && scores[j] == b
    decreases |people|
  {
    if people != [] {
      var n := |people| - 1;
      WinnersAre(people[..n], scores[..n], b);
      assert forall j :: 0 <= j < n ==> people[..n][j] == people[j] && scores[..n][j] == scores[j];
    }
  }

  // ---------------------------------------------------------------------------
  // The query
  // ---------------------------------------------------------------------------

  /** What a query returns: no match when nobody shares a single STR count
      (in particular with no STRs or no people); otherwise the people with the
      best score, which is exact when they share every count. */
  function MatchOf(repeats: seq<string>, people: seq<Person>, pattern: string): MatchResult
    requires CountsCover(people, |repeats|)
  {
    var scores := Scores(RepeatCounts(repeats, pattern), people);
    var best := Best(scores);
    if best >= 1 then
      MatchResult(if best == |repeats| then ExactMatch else CloseMatch, Some(Winners(people, scores, best)), best)
    else
      MatchResult(NoMatch, None, 0)
  }

  /** The query reports no match exactly when nobody shares an STR count; then
      it has no people and 0 STRs. */
  lemma NoMatchIff(repeats: seq<string>, people: seq<Person>, pattern: string)
    requires CountsCover(people, |repeats|)
    ensures var r := MatchOf(repeats, people, pattern);
      && (r.resultType == NoMatch <==> forall p :: p in people ==> Agreement(RepeatCounts(repeats, pattern), p) == 0)
      && (r.resultType == NoMatch <==> r.people.None?)
      && (r.resultType == NoMatch ==> r.numSTRs == 0)
  {
    var counts := RepeatCounts(repeats, pattern);
    var scores := Scores(counts, people);
    BestIsMaximum(scores);
    if Best(scores) > 0 {
      var j :| 0 <= j < |scores| && scores[j] == Best(scores);
      assert people[j] in people;
    } else {
      forall p | p in people
        ensures Agreement(counts, p) == 0
      {
        var k :| 0 <= k < |people| && people[k] == p;
        assert scores[k] == Agreement(counts, p);
      }
    }
  }

  /** A successful query returns a non-empty list of exactly the people with the
      highest score, which is between 1 and the number of STRs; it is exact
      when that score is the number of STRs, and then each of them shares every
      count with the sample. */
  lemma MatchIsBest(repeats: seq<string>, people: seq<Person>, pattern: string)
    requires CountsCover(people, |repeats|)
    ensures var r := MatchOf(repeats, people, pattern);
      var counts := RepeatCounts(repeats, pattern);
      r.resultType != NoMatch ==>
        && r.people.Some? && |r.people.value| > 0
        && 1 <= r.numSTRs <= |repeats|
        && (r.resultType == ExactMatch <==> r.numSTRs == |repeats|)
        && (forall p :: p in people ==> Agreement(counts, p) <= r.numSTRs)
        && (forall x :: x in r.people.value <==> x in people && Agreement(counts, x) == r.numSTRs)
        && (r.resultType == ExactMatch ==>
              forall x, i :: x in r.people.value && 0 <= i < |repeats| ==> counts[i] == x.dnaRepeats[i])
  {
    var r := MatchOf(repeats, people, pattern);
    var counts := RepeatCounts(repeats, pattern);
    var scores := Scores(counts, people);
    var best := Best(scores);
    BestIsMaximum(scores);
    WinnersAre(people, scores, best);
    if r.resultType != NoMatch {
      var j :| 0 <= j < |scores| && scores[j] == best;
      assert best <= |repeats|;
      forall p | p in people
        ensures Agreement(counts, p) <= best
      {
        var k :| 0 <= k < |people| && people[k] == p;
        assert scores[k] == Agreement(counts, p);
      }
      forall x
        ensures x in r.people.value <==> x in people && Agreement(counts, x) == best
      {
        if x in people && Agreement(counts, x) == best {
          var k :| 0 <= k < |people| && people[k] == x;
          assert scores[k] == best;
        }
      }
      if r.resultType == ExactMatch {
        forall x | x in r.people.value
          ensures forall i :: 0 <= i < |repeats| ==> counts[i] == x.dnaRepeats[i]
        {
          AgreementFull(counts, x);
        }
      }
    }
  }

  /** The query processor over a header of STRs and the people of the database. */
  class DNAMatcher {
    const repeats: seq<string>
    const people: seq<Person>

    constructor(repeats: seq<string>, people: seq<Person>)
      ensures this.repeats == repeats && this.people == people
    {
      this.repeats := repeats;
      this.people := people;
    }

    /** match: count the STRs, score the people, then lower a benchmark from the
        number of STRs until some person has it as their score. */
    method Match(pattern: string) returns (r: MatchResult)
      requires CountsCover(people, |repeats|)
      ensures r == MatchOf(repeats, people, pattern)
    {
      var numRepeats := |repeats|;
      var sums := ScoreAll(pattern);
      var matches, benchmark := Select(sums);
      if |matches| > 0 {
        var resultType := CloseMatch;
        benchmark := benchmark + 1;
        if benchmark == numRepeats {
          resultType := ExactMatch;
        }
        r := MatchResult(resultType, Some(matches), benchmark);
      } else {
        r := MatchResult(NoMatch, None, 0);
      }
    }

    /** The first two loops of match: count each STR in the sample, then score
        every person against those counts, in the order of `people`. */
    method ScoreAll(pattern: string) returns (sums: seq<int>)
      requires CountsCover(people, |repeats|)
      ensures sums == Scores(RepeatCounts(repeats, pattern), people)
      ensures forall j :: 0 <= j < |sums| ==> 0 <= sums[j] <= |repeats|
    {
      var numRepeats := |repeats|;
      var repeatCounts := CountRepeats(pattern);
      ghost var counts := RepeatCounts(repeats, pattern);
      sums := [];
      for j := 0 to |people|
        invariant |sums| == j
        invariant repeatCounts[..] == counts
        invariant forall k :: 0 <= k < j ==> sums[k] == Agreement(counts, people[k])
        invariant forall k :: 0 <= k < j ==> 0 <= sums[k] <= numRepeats
      {
        assert people[j] in people;
        var numSTRsInCommon := InCommon(repeatCounts, people[j]);
        sums := sums + [numSTRsInCommon];
      }
    }

    /** The first loop of match: how often each STR occurs in the sample. */
    method CountRepeats(pattern: string) returns (repeatCounts: array<int>)
      ensures fresh(repeatCounts) && repeatCounts[..] == RepeatCounts(repeats, pattern)
    {
      repeatCounts := new int[|repeats|];
      for i := 0 to |repeats|
        invariant forall k :: 0 <= k < i ==> repeatCounts[k] == NumSubstrings(pattern, repeats[k])
      {
        repeatCounts[i] := NumSubstrings(pattern, repeats[i]);
      }
    }

    /** The benchmark loop of match: lower the benchmark from the number of STRs
        until some person scores it. On leaving, either the people found are
        those with the best score, one above the benchmark, or nobody scores
        above 0. */
    method Select(sums: seq<int>) returns (matches: seq<Person>, benchmark: int)
      requires |sums| == |people|
      requires forall j :: 0 <= j < |sums| ==> sums[j] <= |repeats|
      ensures 0 <= benchmark
      ensures |matches| > 0 ==> Best(sums) == benchmark + 1 && matches == Winners(people, sums, benchmark + 1)
      ensures |matches| == 0 ==> Best(sums) == 0
    {
      matches := [];
      benchmark := |repeats|;
      while |matches| == 0 && benchmark > 0
        invariant 0 <= benchmark <= |repeats|
        invariant |matches| == 0 ==> forall j :: 0 <= j < |sums| ==> sums[j] <= benchmark
        invariant |matches| > 0 ==> matches == Winners(people, sums, benchmark + 1) && Best(sums) == benchmark + 1
        decreases benchmark
      {
        matches := Collect(sums, benchmark);
        if |matches| > 0 {
          var j :| 0 <= j < |people| && sums[j] == benchmark;
          BestAttained(sums, benchmark, j);
        }
        benchmark := benchmark - 1;
      }
      if |matches| == 0 {
        BestIsMaximum(sums);
      }
    }

    /** The inner loop of match that scores one person. */
    method InCommon(repeatCounts: array<int>, p: Person) returns (numSTRsInCommon: int)
      requires |p.dnaRepeats| >= repeatCounts.Length
      ensures numSTRsInCommon == Agreement(repeatCounts[..], p)
    {
      numSTRsInCommon := 0;
      for i := 0 to repeatCounts.Length
        invariant numSTRsInCommon == Agreement(repeatCounts[..i], p)
      {
        assert repeatCounts[..i + 1][..i] == repeatCounts[..i];
        if repeatCounts[i] == p.dnaRepeats[i] {
          numSTRsInCommon := numSTRsInCommon + 1;
        }
      }
      assert repeatCounts[..repeatCounts.Length] == repeatCounts[..];
    }

    /** The inner loop of match that collects the people whose score is the
        benchmark; it finds some exactly when some person has that score. */
    method Collect(sums: seq<int>, benchmark: int) returns (matches: seq<Person>)
      requires |sums| == |people|
      ensures matches == Winners(people, sums, benchmark)
      ensures |matches| > 0 <==> exists j :: 0 <= j < |people| && sums[j] == benchmark
    {
      matches := [];
      for j := 0 to |people|
        invariant matches == Winners(people[..j], sums[..j], benchmark)
      {
        assert people[..j + 1][..j] == people[..j] && sums[..j + 1][..j] == sums[..j];
        if sums[j] == benchmark {
          matches := matches + [people[j]];
        }
      }
      assert people[..|people|] == people && sums[..|people|] == sums;
      WinnersAre(people, sums, benchmark);
    }
  }
}
