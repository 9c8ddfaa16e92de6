/**
 * CountPredictor (hw5/src/CountPredictor.java): a word -> count map with a
 * lazily rebuilt cumulative-weight view, and the as-written selection rule of
 * `predict`.
 */
module NGramCount {
  import opened Wrappers
  import opened JavaText

  /** One entry of the cumulative view: a word and its running total. */
  type Entry = (string, int)

  /** How often `w` has been added: its count, or 0 when absent. */
  function Count(counts: map<string, int>, w: string): int {
    if w in counts then counts[w] else 0
  }

  /** The counts after `add(w)`: a blank word changes nothing, any other word
      gains exactly one occurrence and every other count stays as it was. */
  function AddWord(counts: map<string, int>, w: string): (r: map<string, int>)
    ensures IsBlank(w) ==> r == counts
    ensures !IsBlank(w) ==> r.Keys == counts.Keys + {w}
    ensures forall v :: Count(r, v) == Count(counts, v) + (if v == w && !IsBlank(w) then 1 else 0)
  {
    if IsBlank(w) then counts else counts[w := Count(counts, w) + 1]
  }

  /** Every stored word is non-blank and has been added at least once. */
  ghost predicate WellFormed(counts: map<string, int>) {
    forall w :: w in counts ==> counts[w] >= 1 && !IsBlank(w)
  }

  /** The sum of all counts. */
  ghost function Total(counts: map<string, int>): (t: int)
    ensures WellFormed(counts) ==> t >= |counts|
    decreases |counts|
  {
    if counts == map[] then 0
    else
      var w :| w in counts;
      MapRemoveSize(counts, w);
      counts[w] + Total(counts - {w})
  }

  lemma {:induction false} MapRemoveSize(m: map<string, int>, w: string)
    requires w in m
    ensures |m - {w}| == |m| - 1
  {
    assert (m - {w}).Keys == m.Keys - {w};
  }

  /** The total does not depend on which word is taken out first. */
  lemma TotalUnfold(m: map<string, int>)
    requires m != map[]
    ensures exists v :: v in m && Total(m) == m[v] + Total(m - {v})
  {
  }

  lemma RemoveTwice(m: map<string, int>, v: string, w: string)
    ensures m - {v} - {w} == m - {w} - {v}
  {
  }

  /** The total does not depend on which word is taken out first. */
  lemma {:induction false} TotalRemove(m: map<string, int>, w: string)
    requires w in m
    ensures Total(m) == m[w] + Total(m - {w})
    decreases |m|
  {
    TotalUnfold(m);
    var v :| v in m && Total(m) == m[v] + Total(m - {v});
    if v != w {
      MapRemoveSize(m, v);
      TotalRemove(m - {v}, w);
      MapRemoveSize(m, w);
      TotalRemove(m - {w}, v);
      RemoveTwice(m, v, w);
    }
  }

  /** `add` raises the total by one exactly when the word is not blank. */
  lemma {:induction false} AddWordTotal(counts: map<string, int>, w: string)
    ensures Total(AddWord(counts, w)) == Total(counts) + (if IsBlank(w) then 0 else 1)
  {
    if !IsBlank(w) {
      var r := AddWord(counts, w);
      TotalRemove(r, w);
      if w in counts {
        TotalRemove(counts, w);
        assert r - {w} == counts - {w};
      } else {
        assert r - {w} == counts;
      }
    }
  }

  /** The words of a cumulative view, in its order. */
  function Words(c: seq<Entry>): seq<string> {
    seq(|c|, i requires 0 <= i < |c| => c[i].0)
  }

  /** The sum of the counts of the listed words. */
  function SumOf(counts: map<string, int>, ws: seq<string>): int
    requires forall i :: 0 <= i < |ws| ==> ws[i] in counts
  {
    if ws == [] then 0 else SumOf(counts, ws[..|ws| - 1]) + counts[ws[|ws| - 1]]
  }

  predicate Distinct(ws: seq<string>) {
    forall i, j :: 0 <= i < j < |ws| ==> ws[i] != ws[j]
  }

  lemma {:induction false} SumOfFrame(m: map<string, int>, m': map<string, int>, ws: seq<string>)
    requires forall i :: 0 <= i < |ws| ==> ws[i] in m && ws[i] in m' && m[ws[i]] == m'[ws[i]]
    ensures SumOf(m, ws) == SumOf(m', ws)
  {
    if ws != [] {
      SumOfFrame(m, m', ws[..|ws| - 1]);
    }
  }

  /** Removing the last word of an enumeration that lists every stored word once
      leaves an enumeration of the remaining words. */
  lemma {:induction false} DropLastEnumeration(counts: map<string, int>, ws: seq<string>)
    requires Distinct(ws) && ws != []
    requires forall w :: w in counts <==> w in ws
    ensures forall w :: w in ws[..|ws| - 1] <==> w in counts && w != ws[|ws| - 1]
  {
    var last := ws[|ws| - 1];
    var init := ws[..|ws| - 1];
    forall w
      ensures w in init <==> w in counts && w != last
    {
      if w in init {
        var k :| 0 <= k < |init| && init[k] == w;
        assert ws[k] == w && k < |ws| - 1;
      }
      if w in counts && w != last {
        var k :| 0 <= k < |ws| && ws[k] == w;
        assert k < |ws| - 1;
        assert init[k] == w;
      }
    }
  }

  /** Summing the counts in any enumeration order that lists every word once gives the total. */
  lemma {:induction false} SumOfIsTotal(counts: map<string, int>, ws: seq<string>)
    requires Distinct(ws)
    requires forall w :: w in counts <==> w in ws
    ensures SumOf(counts, ws) == Total(counts)
    ensures |ws| == |counts|
  {
    if ws == [] {
      assert counts == map[];
    } else {
      var last := ws[|ws| - 1];
      var init := ws[..|ws| - 1];
      var rest := counts - {last};
      DropLastEnumeration(counts, ws);
      SumOfIsTotal(rest, init);
      SumOfFrame(counts, rest, init);
      TotalRemove(counts, last);
      MapRemoveSize(counts, last);
    }
  }

  /** The running total reached by a cumulative view (0 when empty). */
  function LastSum(c: seq<Entry>): int {
    if c == [] then 0 else c[|c| - 1].1
  }

  /** Each entry carries the previous running sum plus its own word's count. */
  ghost predicate RunningSums(c: seq<Entry>, counts: map<string, int>)
    decreases |c|
  {
    c == [] ||
    (RunningSums(c[..|c| - 1], counts) && c[|c| - 1].0 in counts &&
     c[|c| - 1].1 == LastSum(c[..|c| - 1]) + counts[c[|c| - 1].0])
  }

  /** `c` lists distinct stored words with their running sums. */
  ghost predicate CumulativePrefix(c: seq<Entry>, counts: map<string, int>) {
    && Distinct(Words(c))
    && (forall w :: w in Words(c) ==> w in counts)
    && RunningSums(c, counts)
  }

  /** `c` is a cumulative view of `counts`: each stored word once, in one
      enumeration order, paired with the running sum of the counts up to and
      including it. */
  ghost predicate IsCumulative(c: seq<Entry>, counts: map<string, int>) {
    && Distinct(Words(c))
    && (forall w :: w in counts <==> w in Words(c))
    && RunningSums(c, counts)
  }

  lemma {:induction false} CumulativeAppend(c: seq<Entry>, counts: map<string, int>, w: string)
    requires CumulativePrefix(c, counts) && w in counts && w !in Words(c)
    ensures Words(c + [(w, LastSum(c) + counts[w])]) == Words(c) + [w]
    ensures CumulativePrefix(c + [(w, LastSum(c) + counts[w])], counts)
  {
    var c' := c + [(w, LastSum(c) + counts[w])];
    assert Words(c') == Words(c) + [w];
    assert c'[..|c'| - 1] == c;
  }

  /** Each running sum of a cumulative view adds the entry's own count to the previous one. */
  lemma {:induction false} CumulativeStep(c: seq<Entry>, counts: map<string, int>, i: nat)
    requires RunningSums(c, counts) && i < |c|
    ensures c[i].0 in counts
    ensures c[i].1 == (if i == 0 then 0 else c[i - 1].1) + counts[c[i].0]
    decreases |c|
  {
    if i < |c| - 1 {
      CumulativeStep(c[..|c| - 1], counts, i);
    }
  }

  lemma {:induction false} LastSumIsSum(c: seq<Entry>, counts: map<string, int>)
    requires RunningSums(c, counts)
    ensures forall i :: 0 <= i < |c| ==> Words(c)[i] in counts
    ensures LastSum(c) == SumOf(counts, Words(c))
    decreases |c|
  {
    forall i | 0 <= i < |c|
      ensures Words(c)[i] in counts
    {
      CumulativeStep(c, counts, i);
    }
    if c != [] {
      LastSumIsSum(c[..|c| - 1], counts);
      assert Words(c)[..|c| - 1] == Words(c[..|c| - 1]);
    }
  }

  lemma {:induction false} CumulativeIncreasing(c: seq<Entry>, counts: map<string, int>, i: nat, j: nat)
    requires WellFormed(counts) && RunningSums(c, counts) && i < j < |c|
    ensures c[i].1 < c[j].1
    decreases j - i
  {
    CumulativeStep(c, counts, j);
    if i < j - 1 {
      CumulativeIncreasing(c, counts, i, j - 1);
    }
  }

  /** The running sums of a cumulative view strictly increase and end at the total. */
  lemma {:induction false} CumulativeShape(c: seq<Entry>, counts: map<string, int>)
    requires WellFormed(counts) && IsCumulative(c, counts)
    ensures forall i :: 0 <= i < |c| ==> c[i].0 in counts && c[i].1 == (if i == 0 then 0 else c[i - 1].1) + counts[c[i].0]
    ensures forall i, j :: 0 <= i < j < |c| ==> c[i].1 < c[j].1
    ensures |c| == |counts|
    ensures LastSum(c) == Total(counts)
  {
    forall i | 0 <= i < |c|
      ensures c[i].0 in counts && c[i].1 == (if i == 0 then 0 else c[i - 1].1) + counts[c[i].0]
    {
      CumulativeStep(c, counts, i);
    }
    forall i, j | 0 <= i < j < |c|
      ensures c[i].1 < c[j].1
    {
      CumulativeIncreasing(c, counts, i, j);
    }
    LastSumIsSum(c, counts);
    SumOfIsTotal(counts, Words(c));
  }

  /** The index of the entry with the largest weight not above `weight`
      (the earlier one on a tie), or None when every weight is above it. */
  function BestAtMost(c: seq<Entry>, weight: int): (r: Option<nat>)
    ensures r.Some? ==> r.value < |c|
    decreases |c|
  {
    if c == [] then None
    else
      var rest := BestAtMost(c[..|c| - 1], weight);
      var last := |c| - 1;
      if c[last].1 <= weight && (rest.None? || c[rest.value].1 < c[last].1) then Some(last)
      else rest
  }

  /** BestAtMost finds nothing exactly when every weight is above the drawn one,
      and otherwise an entry within it whose weight no other such entry exceeds. */
  lemma {:induction false} BestAtMostSpec(c: seq<Entry>, weight: int)
    ensures var r := BestAtMost(c, weight);
      && (r.None? <==> forall j :: 0 <= j < |c| ==> c[j].1 > weight)
      && (r.Some? ==> c[r.value].1 <= weight)
      && (r.Some? ==> forall j :: 0 <= j < |c| && c[j].1 <= weight ==> c[j].1 <= c[r.value].1)
    decreases |c|
  {
    if c != [] {
      var init := c[..|c| - 1];
      BestAtMostSpec(init, weight);
      assert forall j :: 0 <= j < |init| ==> init[j] == c[j];
    }
  }

  /** The selection of CountPredictor.predict as written: keep the entries whose
      cumulative weight is at most the drawn weight and return the word of the
      one with the largest weight, or null when none is left. */
  function SelectAsWritten(c: seq<Entry>, weight: int): Option<string> {
    match BestAtMost(c, weight)
    case None => None
    case Some(i) => Some(c[i].0)
  }

  /** In a cumulative view the as-written rule picks entry i exactly for the
      weights from its own running sum up to just below the next one. */
  lemma {:induction false} SelectAsWrittenPicks(c: seq<Entry>, counts: map<string, int>, weight: int, i: nat)
    requires WellFormed(counts) && IsCumulative(c, counts) && i < |c|
    ensures SelectAsWritten(c, weight) == Some(c[i].0)
        <==> c[i].1 <= weight && (i == |c| - 1 || weight < c[i + 1].1)
  {
    var b := BestAtMost(c, weight);
    BestAtMostSpec(c, weight);
    if c[i].1 <= weight && (i == |c| - 1 || weight < c[i + 1].1) {
      var k := b.value;
      if k < i {
        CumulativeIncreasing(c, counts, k, i);
      } else if k > i {
        if k > i + 1 {
          CumulativeIncreasing(c, counts, i + 1, k);
        }
      }
    }
    if SelectAsWritten(c, weight) == Some(c[i].0) {
      var k := b.value;
      assert Words(c)[k] == Words(c)[i];
      if i < |c| - 1 && c[i + 1].1 <= weight {
        CumulativeIncreasing(c, counts, i, i + 1);
      }
    }
  }

  /** On a non-empty predictor the as-written rule returns null exactly when the
      drawn weight is below the first running sum. */
  lemma {:induction false} SelectAsWrittenNull(c: seq<Entry>, counts: map<string, int>, weight: int)
    requires WellFormed(counts) && IsCumulative(c, counts) && counts != map[]
    ensures |c| > 0
    ensures SelectAsWritten(c, weight).None? <==> weight < c[0].1
  {
    CumulativeShape(c, counts);
    BestAtMostSpec(c, weight);
  }

  /** The largest draw always yields a word: the last entry's. */
  lemma {:induction false} SelectAsWrittenAtTotal(c: seq<Entry>, counts: map<string, int>)
    requires WellFormed(counts) && IsCumulative(c, counts) && counts != map[]
    ensures |c| > 0 && SelectAsWritten(c, Total(counts)) == Some(c[|c| - 1].0)
  {
    LastSumIsSum(c, counts);
    SumOfIsTotal(counts, Words(c));
    SelectAsWrittenPicks(c, counts, Total(counts), |c| - 1);
  }

  /** The fitness-proportionate rule the documentation describes: the first
      entry whose cumulative weight reaches the drawn weight. */
  function SelectCovering(c: seq<Entry>, weight: int): (r: Option<string>)
    ensures r.None? <==> forall j :: 0 <= j < |c| ==> c[j].1 < weight
    decreases |c|
  {
    if c == [] then None
    else if weight <= c[0].1 then Some(c[0].0)
    else SelectCovering(c[1..], weight)
  }

  lemma {:induction false} SelectCoveringFirst(c: seq<Entry>, weight: int, i: nat)
    requires i < |c| && weight <= c[i].1
    requires forall j :: 0 <= j < i ==> c[j].1 < weight
    ensures SelectCovering(c, weight) == Some(c[i].0)
  {
    if i > 0 {
      SelectCoveringFirst(c[1..], weight, i - 1);
    }
  }

  lemma {:induction false} SelectCoveringFound(c: seq<Entry>, weight: int)
    requires SelectCovering(c, weight).Some?
    ensures exists i ::
      (0 <= i < |c| && SelectCovering(c, weight) == Some(c[i].0) &&
       weight <= c[i].1 && forall j :: 0 <= j < i ==> c[j].1 < weight)
  {
    if weight > c[0].1 {
      SelectCoveringFound(c[1..], weight);
      var i :| 0 <= i < |c| - 1 && SelectCovering(c[1..], weight) == Some(c[1..][i].0)
        && weight <= c[1..][i].1 && forall j :: 0 <= j < i ==> c[1..][j].1 < weight;
      assert forall j :: 1 <= j < i + 1 ==> c[j].1 == c[1..][j - 1].1;
    } else {
      assert SelectCovering(c, weight) == Some(c[0].0);
    }
  }

  /** A weight above running sum i is above every earlier running sum. */
  lemma SumsBelow(c: seq<Entry>, counts: map<string, int>, i: nat, weight: int)
    requires WellFormed(counts) && RunningSums(c, counts) && i < |c| && c[i].1 < weight
    ensures forall j :: 0 <= j <= i ==> c[j].1 < weight
  {
    forall j | 0 <= j < i
      ensures c[j].1 < weight
    {
      CumulativeIncreasing(c, counts, j, i);
    }
  }

  /** The corrected rule: every weight in [1, total] yields a word, and entry i is
      chosen for exactly the weights in (previous running sum, own running sum],
      which are count(word) many. */
  lemma {:induction false} SelectCoveringPicks(c: seq<Entry>, counts: map<string, int>, weight: int, i: nat)
    requires WellFormed(counts) && IsCumulative(c, counts) && i < |c|
    requires 1 <= weight <= Total(counts)
    ensures c[i].0 in counts
    ensures SelectCovering(c, weight).Some?
    ensures SelectCovering(c, weight) == Some(c[i].0)
        <==> (if i == 0 then 0 else c[i - 1].1) < weight <= c[i].1
    ensures c[i].1 - (if i == 0 then 0 else c[i - 1].1) == counts[c[i].0]
  {
    CumulativeStep(c, counts, i);
    LastSumIsSum(c, counts);
    SumOfIsTotal(counts, Words(c));
    assert c[|c| - 1].1 >= weight;
    var prev := if i == 0 then 0 else c[i - 1].1;
    if prev < weight <= c[i].1 {
      if i > 0 {
        SumsBelow(c, counts, i - 1, weight);
      }
      SelectCoveringFirst(c, weight, i);
    }
    SelectCoveringFound(c, weight);
    var k :| 0 <= k < |c| && SelectCovering(c, weight) == Some(c[k].0) &&
      weight <= c[k].1 && forall j :: 0 <= j < k ==> c[j].1 < weight;
    if SelectCovering(c, weight) == Some(c[i].0) {
      assert Words(c)[k] == Words(c)[i];
      assert k == i;
      if i > 0 {
        assert c[i - 1].1 < weight;
      }
    }
  }

  /** A non-empty predictor for which predict, as written, returns null: the
      only word was added twice and the weight drawn is 1. */
  lemma {:induction false} NullOnNonEmptyAsWritten()
    ensures IsCumulative([("cat", 2)], map["cat" := 2])
    ensures SelectAsWritten([("cat", 2)], 1) == None
  {
    var c := [("cat", 2)];
    assert Words(c) == ["cat"];
    assert Words(c)[..1] == ["cat"];
  }

  /** The view of the documentation example ("text" 1, "word" 2, "example" 1):
      as written, "text" wins two of the four weights and "word" one, although
      "word" was counted twice. */
  lemma {:induction false} SkewAsWritten()
    ensures IsCumulative([("text", 1), ("word", 3), ("example", 4)], map["text" := 1, "word" := 2, "example" := 1])
    ensures SelectAsWritten([("text", 1), ("word", 3), ("example", 4)], 1) == Some("text")
    ensures SelectAsWritten([("text", 1), ("word", 3), ("example", 4)], 2) == Some("text")
    ensures SelectAsWritten([("text", 1), ("word", 3), ("example", 4)], 3) == Some("word")
    ensures SelectAsWritten([("text", 1), ("word", 3), ("example", 4)], 4) == Some("example")
  {
    var c: seq<Entry> := [("text", 1), ("word", 3), ("example", 4)];
    var m := map["text" := 1, "word" := 2, "example" := 1];
    assert Words(c) == ["text", "word", "example"];
    var c1: seq<Entry> := [("text", 1)];
    var c2: seq<Entry> := [("text", 1), ("word", 3)];
    assert c1[..0] == [] && c2[..1] == c1 && c[..2] == c2;
    assert RunningSums(c1, m);
    assert RunningSums(c2, m);
    assert RunningSums(c, m);
  }

  /** The weight `nextInt(total) + 1` that predict draws, for a given draw. */
  function DrawWeight(draw: nat, total: int): (r: int)
    requires total > 0
    ensures 1 <= r <= total
    decreases draw
  {
    if draw < total then draw + 1 else DrawWeight(draw - total, total)
  }

  /** DrawWeight is one more than Random.nextInt(total) on the same draw. */
  lemma {:induction false} DrawWeightIsNextInt(draw: nat, total: int)
    requires total > 0
    ensures DrawWeight(draw, total) == NextInt(draw, total) + 1
    decreases draw
  {
    if draw >= total {
      DrawWeightIsNextInt(draw - total, total);
    }
  }

  /** Every weight in [1, total] is drawn by some draw. */
  lemma EveryWeightDrawn(weight: int, total: int)
    requires 1 <= weight <= total
    ensures exists draw: nat :: DrawWeight(draw, total) == weight
  {
    assert DrawWeight(weight - 1, total) == weight;
  }

  /**
   * The word -> count map of one context and its cached cumulative view
   * (`cumulativeEntries`; None stands for null, the stale cache).
   */
  class CountPredictor {
    var counts: map<string, int>
    var cumulative: Option<seq<Entry>>

    ghost predicate Valid()
      reads this
    {
      WellFormed(counts) && (cumulative.Some? ==> IsCumulative(cumulative.value, counts))
    }

    constructor ()
      ensures Valid() && counts == map[] && cumulative == None
    {
      counts := map[];
      cumulative := None;
    }

    /** add: a blank word is ignored; otherwise its count goes up by one and the cache is cleared. */
    method Add(word: string)
      requires Valid()
      modifies this
      ensures Valid()
      ensures counts == AddWord(old(counts), word)
      ensures cumulative == if IsBlank(word) then old(cumulative) else None
    {
      if IsBlank(word) {
        return;
      }
      var count := Count(counts, word) + 1;
      counts := counts[word := count];
      cumulative := None;
    }

    /** generateWeights: rebuild the cumulative view only when the cache is null. */
    method GenerateWeights()
      requires Valid()
      modifies this
      ensures Valid() && counts == old(counts)
      ensures cumulative.Some?
      ensures old(cumulative).Some? ==> cumulative == old(cumulative)
    {
      if cumulative.Some? {
        return;
      }
      var entries: seq<Entry> := [];
      var left := counts.Keys;
      var running := 0;
      while left != {}
        invariant left <= counts.Keys
        invariant forall w :: w in counts ==> (w in left <==> w !in Words(entries))
        invariant CumulativePrefix(entries, counts)
        invariant running == LastSum(entries)
        invariant counts == old(counts)
        decreases left
      {
        var w :| w in left;
        CumulativeAppend(entries, counts, w);
        running := running + counts[w];
        entries := entries + [(w, running)];
        left := left - {w};
      }
      cumulative := Some(entries);
    }

    /** The sum of all counts (the parallel reduce, sequentially). */
    method TotalCounts() returns (total: int)
      requires Valid()
      ensures total == Total(counts)
    {
      total := 0;
      var rest := counts;
      while rest != map[]
        invariant total + Total(rest) == Total(counts)
        decreases |rest|
      {
        var w :| w in rest;
        TotalRemove(rest, w);
        MapRemoveSize(rest, w);
        total := total + rest[w];
        rest := rest - {w};
      }
    }

    /** predict: null on an empty map; otherwise draw a weight in [1, total]
        (`DrawWeight(draw, total)` stands for `nextInt(total) + 1`) and apply the as-written
        selection to the (rebuilt if stale) cumulative view. */
    method Predict(draw: nat) returns (w: Option<string>)
      requires Valid()
      modifies this
      ensures Valid() && counts == old(counts)
      ensures old(cumulative).Some? ==> cumulative == old(cumulative)
      ensures counts == map[] ==> w == None && cumulative == old(cumulative)
      ensures counts != map[] ==>
        cumulative.Some? && w == SelectAsWritten(cumulative.value, DrawWeight(draw, Total(counts)))
      ensures w.Some? ==> w.value in counts
    {
      if |counts| == 0 {
        return None;
      }
      GenerateWeights();
      var total := TotalCounts();
      var weight := DrawWeight(draw, total);
      w := SelectAsWritten(cumulative.value, weight);
      if w.Some? {
        var i := BestAtMost(cumulative.value, weight).value;
        assert Words(cumulative.value)[i] == w.value;
      }
    }
  }
}
