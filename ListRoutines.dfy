/**
 * The list routines whose running times the evaluator compares: two ways of
 * counting the digits of a list, a routine that keeps replacing the head of
 * a list, and the filler that loads a list with random digits. A
 * java.util.List<Integer> is an object whose contents the routines read or
 * update in place; random.nextInt(10) is the draw NextInt(d, 10) of a given
 * number d.
 */
module ListRoutines {
  import opened JavaText

  /** A java.util.List<Integer>, by its contents. */
  class IntList {
    var elements: seq<int>

    constructor(elements: seq<int>)
      ensures this.elements == elements
    {
      this.elements := elements;
    }
  }

  /** Every value is a digit 0..9, which the counting routines index by. */
  predicate AllDigits(numbers: seq<int>) {
    forall k :: 0 <= k < |numbers| ==> 0 <= numbers[k] < 10
  }

  /** The frequency array, built one value at a time; cell d holds the number
      of occurrences of d. */
  function Frequencies(numbers: seq<int>): (counts: seq<int>)
    requires AllDigits(numbers)
    ensures |counts| == 10
    ensures forall d :: 0 <= d < 10 ==> counts[d] == multiset(numbers)[d]
    decreases |numbers|
  {
    if numbers == [] then seq(10, d => 0)
    else
      var n := |numbers| - 1;
      var init := numbers[..n];
      assert numbers == init + [numbers[n]];
      var before := Frequencies(init);
      before[numbers[n] := before[numbers[n]] + 1]
  }

  /** The sum of an array of counts. */
  function Total(counts: seq<int>): int
    decreases |counts|
  {
    if counts == [] then 0 else Total(counts[..|counts| - 1]) + counts[|counts| - 1]
  }

  /** Adding one to a cell adds one to the total. */
  lemma {:induction false} TotalIncrement(counts: seq<int>, d: nat)
    requires d < |counts|
    ensures Total(counts[d := counts[d] + 1]) == Total(counts) + 1
    decreases |counts|
  {
    var n := |counts| - 1;
    var bumped := counts[d := counts[d] + 1];
    if d < n {
      assert bumped[..n] == counts[..n][d := counts[d] + 1];
      TotalIncrement(counts[..n], d);
    } else {
      assert bumped[..n] == counts[..n];
    }
  }

  /** Counts that are all zero total zero. */
  lemma {:induction false} TotalOfZeros(counts: seq<int>)
    requires forall d :: 0 <= d < |counts| ==> counts[d] == 0
    ensures Total(counts) == 0
    decreases |counts|
  {
    if counts != [] {
      TotalOfZeros(counts[..|counts| - 1]);
    }
  }

  /** The counts of a list of digits add up to its size. */
  lemma {:induction false} CountsSumToSize(numbers: seq<int>)
    requires AllDigits(numbers)
    ensures Total(Frequencies(numbers)) == |numbers|
    decreases |numbers|
  {
    if numbers == [] {
      TotalOfZeros(Frequencies(numbers));
    } else {
      var n := |numbers| - 1;
      CountsSumToSize(numbers[..n]);
      TotalIncrement(Frequencies(numbers[..n]), numbers[n]);
    }
  }

  /** getCounts: an indexed loop over the list that increments the cell of each value. */
  method GetCounts(numbers: IntList) returns (counts: array<int>)
    requires AllDigits(numbers.elements)
    ensures fresh(counts) && counts[..] == Frequencies(numbers.elements)
  {
    counts := new int[10](d => 0);
    for i := 0 to |numbers.elements|
      invariant counts[..] == Frequencies(numbers.elements[..i])
    {
      assert numbers.elements[..i + 1][..i] == numbers.elements[..i];
      counts[numbers.elements[i]] := counts[numbers.elements[i]] + 1;
    }
    assert numbers.elements[..|numbers.elements|] == numbers.elements;
  }

  /** getCountsV2: the same count, walking the list with an iterator. */
  method GetCountsV2(numbers: IntList) returns (counts: array<int>)
    requires AllDigits(numbers.elements)
    ensures fresh(counts) && counts[..] == Frequencies(numbers.elements)
  {
    counts := new int[10](d => 0);
    var seen := 0;
    var rest := numbers.elements;
    while rest != []
      invariant seen + |rest| == |numbers.elements| && rest == numbers.elements[seen..]
      invariant counts[..] == Frequencies(numbers.elements[..seen])
      decreases |rest|
    {
      var number := rest[0];
      assert numbers.elements[..seen + 1] == numbers.elements[..seen] + [number];
      counts[number] := counts[number] + 1;
      seen := seen + 1;
      rest := rest[1..];
    }
    assert numbers.elements[..seen] == numbers.elements;
  }

  /** addRemove: `len` times remove the head and insert a random digit at the
      head, then copy the list into an array. Only the head ever changes, and
      it ends as the last digit drawn. */
  method AddRemove(numbers: IntList, draws: seq<nat>) returns (result: array<int>)
    requires |draws| >= |numbers.elements|
    modifies numbers
    ensures |numbers.elements| == |old(numbers.elements)|
    ensures numbers.elements != [] ==>
      && numbers.elements[0] == NextInt(draws[|numbers.elements| - 1], 10)
      && numbers.elements[1..] == old(numbers.elements)[1..]
    ensures numbers.elements == [] <==> old(numbers.elements) == []
    ensures fresh(result) && result[..] == numbers.elements
  {
    var len := |numbers.elements|;
    result := new int[len];
    var drawn := 0;
    while len > 0
      invariant len + drawn == |result[..]| == |numbers.elements|
      invariant numbers.elements == [] <==> old(numbers.elements) == []
      invariant numbers.elements != [] ==> numbers.elements[1..] == old(numbers.elements)[1..]
      invariant drawn > 0 ==> numbers.elements[0] == NextInt(draws[drawn - 1], 10)
      decreases len
    {
      len := len - 1;
      numbers.elements := numbers.elements[1..];
      numbers.elements := [NextInt(draws[drawn], 10)] + numbers.elements;
      drawn := drawn + 1;
    }
    ghost var after := numbers.elements;
    var i := 0;
    for k := 0 to |numbers.elements|
      invariant numbers.elements == after && result.Length == |after|
      invariant i == k
      invariant forall j :: 0 <= j < k ==> result[j] == numbers.elements[j]
    {
      result[i] := numbers.elements[k];
      i := i + 1;
    }
  }

  /** addNums: clear the list, then append `n` random digits (none when `n` is
      not positive). */
  method AddNums(numbers: IntList, n: int, draws: seq<nat>)
    requires |draws| >= n
    modifies numbers
    ensures |numbers.elements| == if n > 0 then n else 0
    ensures forall k :: 0 <= k < |numbers.elements| ==> numbers.elements[k] == NextInt(draws[k], 10)
    ensures AllDigits(numbers.elements)
  {
    numbers.elements := [];
    var left := n;
    while left > 0
      invariant left <= n && |numbers.elements| == if n > 0 then n - left else 0
      invariant left < 0 ==> left == n
      invariant forall k :: 0 <= k < |numbers.elements| ==> numbers.elements[k] == NextInt(draws[k], 10)
      decreases left
    {
      left := left - 1;
      numbers.elements := numbers.elements + [NextInt(draws[|numbers.elements|], 10)];
    }
  }
}
