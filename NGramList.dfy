/**
 * ListPredictor (hw5/src/ListPredictor.java): the list-backed variant of the
 * predictor, which keeps one list element per added word.
 */
module NGramList {
  import opened Wrappers
  import opened JavaText
  import NGramCount

  /** The list after `add(w)`: a blank word is ignored, any other is appended. */
  function AddToList(predicted: seq<string>, w: string): seq<string> {
    if IsBlank(w) then predicted else predicted + [w]
  }

  /** How often each word occurs in the list, as a word -> count map. */
  function Multiplicities(predicted: seq<string>): (m: map<string, int>)
    ensures forall w :: NGramCount.Count(m, w) == multiset(predicted)[w]
  {
    map w | w in predicted :: multiset(predicted)[w]
  }

  /** The two variants agree: after the same `add`, the list holds each word as
      many times as the count map counts it. */
  lemma {:induction false} AddAgrees(predicted: seq<string>, w: string)
    ensures Multiplicities(AddToList(predicted, w)) == NGramCount.AddWord(Multiplicities(predicted), w)
  {
    var l := Multiplicities(AddToList(predicted, w));
    var r := NGramCount.AddWord(Multiplicities(predicted), w);
    forall v
      ensures NGramCount.Count(l, v) == NGramCount.Count(r, v)
    {
    }
    forall v
      ensures v in l <==> v in r
    {
      assert v in l <==> NGramCount.Count(l, v) > 0;
      assert v in r ==> NGramCount.Count(r, v) > 0;
    }
    assert l.Keys == r.Keys;
  }

  /** Replaying the same sequence of additions on an empty list and on an empty
      count map gives matching multiplicities. */
  function AddAllToList(predicted: seq<string>, ws: seq<string>): seq<string>
    decreases |ws|
  {
    if ws == [] then predicted else AddAllToList(AddToList(predicted, ws[0]), ws[1..])
  }

  function AddAllToCounts(counts: map<string, int>, ws: seq<string>): map<string, int>
    decreases |ws|
  {
    if ws == [] then counts else AddAllToCounts(NGramCount.AddWord(counts, ws[0]), ws[1..])
  }

  lemma {:induction false} ReplayAgrees(predicted: seq<string>, ws: seq<string>)
    ensures Multiplicities(AddAllToList(predicted, ws)) == AddAllToCounts(Multiplicities(predicted), ws)
    decreases |ws|
  {
    if ws != [] {
      AddAgrees(predicted, ws[0]);
      ReplayAgrees(AddToList(predicted, ws[0]), ws[1..]);
    }
  }

  /** The backing list of one context, duplicates kept in insertion order. */
  class ListPredictor {
    var predicted: seq<string>

    constructor ()
      ensures predicted == []
    {
      predicted := [];
    }

    /** add: a blank word is ignored; otherwise it is appended, earlier elements kept. */
    method Add(word: string)
      modifies this
      ensures predicted == AddToList(old(predicted), word)
      ensures |predicted| == |old(predicted)| + (if IsBlank(word) then 0 else 1)
      ensures predicted[..|old(predicted)|] == old(predicted)
    {
      if IsBlank(word) {
        return;
      }
      predicted := predicted + [word];
    }

    /** predict: null exactly when the list is empty, otherwise the element at the
        drawn index (`NextInt(draw, size)` stands for `nextInt(size)`); the list is left as it was. */
    method Predict(draw: nat) returns (w: Option<string>)
      ensures w.None? <==> |predicted| == 0
      ensures w.Some? ==> w.value == predicted[NextInt(draw, |predicted|)]
    {
      var size := |predicted|;
      if size <= 0 {
        return None;
      }
      w := Some(predicted[NextInt(draw, size)]);
    }

    /** Every element of a non-empty list is returned for some draw. */
    lemma {:induction false} EveryElementReachable(i: nat)
      requires i < |predicted|
      ensures exists draw: nat :: NextInt(draw, |predicted|) == i
    {
      NextIntCovers(i, |predicted|);
    }
  }
}
