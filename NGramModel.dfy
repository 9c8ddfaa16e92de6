/**
 * NGramController (hw5/src/NGramController.java): word stripping, feeding text
 * into a table from context keys to CountPredictors, and predicting the next
 * word with a random fallback.
 */
module NGramModel {
  import opened Wrappers
  import opened JavaText
  import opened NGramCount

  /** stripWord: drop the first character while it is not a letter, then the
      last while it is not a letter, then lower-case what is left. */
  function Strip(word: string): string
    decreases |word|
  {
    if |word| > 0 && !IsLetter(word[0]) then Strip(word[1..])
    else if |word| > 0 && !IsLetter(word[|word| - 1]) then Strip(word[..|word| - 1])
    else ToLower(word)
  }

  predicate NoUpper(s: string) {
    forall i :: 0 <= i < |s| ==> !('A' <= s[i] <= 'Z')
  }

  lemma LowerCharLetter(c: char)
    ensures !('A' <= LowerChar(c) <= 'Z')
    ensures IsLetter(LowerChar(c)) <==> IsLetter(c)
  {
  }

  /** A stripped word is lower-case and is empty or starts and ends with a letter. */
  lemma {:induction false} StripShape(word: string)
    ensures NoUpper(Strip(word))
    ensures Strip(word) == [] || (IsLetter(Strip(word)[0]) && IsLetter(Strip(word)[|Strip(word)| - 1]))
    decreases |word|
  {
    if |word| > 0 && !IsLetter(word[0]) {
      StripShape(word[1..]);
    } else if |word| > 0 && !IsLetter(word[|word| - 1]) {
      StripShape(word[..|word| - 1]);
    } else {
      var r := ToLower(word);
      forall k | 0 <= k < |r|
        ensures !('A' <= r[k] <= 'Z')
      {
        LowerCharLetter(word[k]);
      }
      if r != [] {
        LowerCharLetter(word[0]);
        LowerCharLetter(word[|word| - 1]);
      }
    }
  }

  /** stripWord yields the empty string exactly when the word holds no letter. */
  lemma {:induction false} StripEmptyIff(word: string)
    ensures Strip(word) == [] <==> forall k :: 0 <= k < |word| ==> !IsLetter(word[k])
    decreases |word|
  {
    if |word| > 0 && !IsLetter(word[0]) {
      StripEmptyIff(word[1..]);
      assert forall k :: 1 <= k < |word| ==> word[1..][k - 1] == word[k];
    } else if |word| > 0 && !IsLetter(word[|word| - 1]) {
      StripEmptyIff(word[..|word| - 1]);
    } else if |word| > 0 {
      assert |Strip(word)| == |word|;
    }
  }

  /** Only the outer ends are stripped: the result is the lower-cased stretch of
      the word from its first letter to its last. */
  lemma {:induction false} StripIsLetterSpan(word: string, i: nat, j: nat)
    requires i < j <= |word| && IsLetter(word[i]) && IsLetter(word[j - 1])
    requires forall k :: 0 <= k < i ==> !IsLetter(word[k])
    requires forall k :: j <= k < |word| ==> !IsLetter(word[k])
    ensures Strip(word) == ToLower(word[i..j])
    decreases |word|
  {
    if i > 0 {
      var rest := word[1..];
      assert forall k :: 0 <= k < |rest| ==> rest[k] == word[k + 1];
      assert rest[i - 1..j - 1] == word[i..j];
      StripIsLetterSpan(rest, i - 1, j - 1);
    } else if j < |word| {
      var init := word[..|word| - 1];
      assert forall k :: 0 <= k < |init| ==> init[k] == word[k];
      assert init[i..j] == word[i..j];
      StripIsLetterSpan(init, i, j);
    } else {
      assert word[i..j] == word;
    }
  }

  /** Stripping twice changes nothing. */
  lemma {:induction false} StripIdempotent(word: string)
    ensures Strip(Strip(word)) == Strip(word)
  {
    var r := Strip(word);
    StripShape(word);
    assert Strip(r) == ToLower(r);
    NoUpperLowerFixed(r);
  }

  lemma NoUpperLowerFixed(s: string)
    requires NoUpper(s)
    ensures ToLower(s) == s
  {
    assert forall k :: 0 <= k < |s| ==> ToLower(s)[k] == s[k];
  }

  /** stripWord, with its two trimming loops. */
  method StripWord(word: string) returns (r: string)
    ensures r == Strip(word)
  {
    var w := word;
    while |w| > 0 && !IsLetter(w[0])
      invariant Strip(w) == Strip(word)
    {
      w := w[1..];
    }
    while |w| > 0 && !IsLetter(w[|w| - 1])
      invariant Strip(w) == Strip(word)
      invariant |w| == 0 || IsLetter(w[0])
    {
      w := w[..|w| - 1];
    }
    r := ToLower(w);
  }

  /** The context key and the target of window i: stripWord of tokens i..i+n-2
      joined by single spaces, and stripWord of token i+n-1. */
  function Window(words: seq<string>, n: int, i: int): (string, string)
    requires n >= 2 && 0 <= i && i + n <= |words|
  {
    (Strip(Join(words[i..i + n - 1], " ")), Strip(words[i + n - 1]))
  }

  /** The number of windows feed visits over `size` tokens: i runs from 0 to size - n. */
  function WindowCount(size: int, n: int): nat {
    if size >= n then size - n + 1 else 0
  }

  /** The first m windows, in the order feed visits them. */
  function Windows(words: seq<string>, n: int, m: nat): (ws: seq<(string, string)>)
    requires n >= 2 && m <= WindowCount(|words|, n)
    ensures |ws| == m
  {
    if m == 0 then [] else Windows(words, n, m - 1) + [Window(words, n, m - 1)]
  }

  /** Every window sits at its own index. */
  lemma {:induction false} WindowsAt(words: seq<string>, n: int, m: nat, i: nat)
    requires n >= 2 && m <= WindowCount(|words|, n) && i < m
    ensures Windows(words, n, m)[i] == Window(words, n, i)
  {
    if i < m - 1 {
      WindowsAt(words, n, m - 1, i);
    }
  }

  /** The key and target of window i, computed as feed does with two stripWord calls. */
  method WindowOf(words: seq<string>, n: int, i: int) returns (key: string, next: string)
    requires n >= 2 && 0 <= i && i + n <= |words|
    ensures (key, next) == Window(words, n, i)
  {
    key := StripWord(Join(words[i..i + n - 1], " "));
    next := StripWord(words[i + n - 1]);
  }

  /** The predictor contents of each context key. */
  type Table = map<string, map<string, int>>

  /** One window's update: the key's predictor (a fresh empty one for an unseen key) gets the target added. */
  function AddWindow(t: Table, w: (string, string)): Table {
    t[w.0 := AddWord(if w.0 in t then t[w.0] else map[], w.1)]
  }

  /** The table after feeding the windows in order. */
  function FeedTable(t: Table, ws: seq<(string, string)>): Table
    decreases |ws|
  {
    if ws == [] then t else AddWindow(FeedTable(t, ws[..|ws| - 1]), ws[|ws| - 1])
  }

  /** Feeding one more window applies that window to the table fed so far. */
  lemma FeedTableStep(t: Table, words: seq<string>, n: int, i: nat)
    requires n >= 2 && i < WindowCount(|words|, n)
    ensures FeedTable(t, Windows(words, n, i + 1)) == AddWindow(FeedTable(t, Windows(words, n, i)), Window(words, n, i))
  {
    var prefix := Windows(words, n, i + 1);
    assert prefix[..i] == Windows(words, n, i);
  }

  /** How many of the windows pair key `k` with target `w`. */
  function Occurrences(ws: seq<(string, string)>, k: string, w: string): nat
    decreases |ws|
  {
    if ws == [] then 0
    else Occurrences(ws[..|ws| - 1], k, w) + (if ws[|ws| - 1] == (k, w) then 1 else 0)
  }

  /** The count of word w under key k after a count of at most one per window. */
  function CountIn(t: Table, k: string, w: string): int {
    if k in t then Count(t[k], w) else 0
  }

  /** The keys of the windows. */
  function KeysOf(ws: seq<(string, string)>): (ks: set<string>)
    ensures forall i :: 0 <= i < |ws| ==> ws[i].0 in ks
    ensures forall k :: k in ks ==> exists i :: 0 <= i < |ws| && ws[i].0 == k
    decreases |ws|
  {
    if ws == [] then {} else KeysOf(ws[..|ws| - 1]) + {ws[|ws| - 1].0}
  }

  /** Feeding keeps every key, adds exactly the window keys, and raises the count
      of each non-blank target under its key by the number of windows that pair them;
      blank targets are never counted. */
  lemma {:induction false} FeedTableCounts(t: Table, ws: seq<(string, string)>)
    ensures FeedTable(t, ws).Keys == t.Keys + KeysOf(ws)
    ensures forall k, w ::
      CountIn(FeedTable(t, ws), k, w) == CountIn(t, k, w) + (if IsBlank(w) then 0 else Occurrences(ws, k, w))
    decreases |ws|
  {
    if ws != [] {
      FeedTableCounts(t, ws[..|ws| - 1]);
    }
  }

  /** Feeding never removes a key nor lowers a count. */
  lemma {:induction false} FeedTableGrows(t: Table, ws: seq<(string, string)>)
    ensures t.Keys <= FeedTable(t, ws).Keys
    ensures forall k, w :: CountIn(t, k, w) <= CountIn(FeedTable(t, ws), k, w)
  {
    FeedTableCounts(t, ws);
  }

  /** The lookup key of predictNext: the last n-1 tokens of the stripped sentence,
      rejoined and stripped, or the stripped sentence when it has fewer tokens. */
  function ContextKey(sentence: string, n: int): string
    requires n >= 2
  {
    var words := Split(Strip(sentence), " ");
    var len := |words|;
    Strip(if len >= n - 1 then Join(words[len - n + 1..], " ") else sentence)
  }

  /** N <= 1 is an IllegalArgumentException. */
  datatype ConfigError = IllegalOrder

  /** The outcomes of predictNext. */
  datatype Prediction =
    | Predicted(text: string)
      // r.nextInt(0) on an empty table throws IllegalArgumentException
    | EmptyModel
      // the fallback loop has not found a word within the supplied draws; Java keeps looping
    | OutOfDraws

  /** The key that a retry's key draw picks from the key array: `keys[nextInt(size)]`. */
  function RetryKey(keys: seq<string>, keyDraw: nat): (k: string)
    requires |keys| > 0
    ensures k in keys
  {
    keys[NextInt(keyDraw, |keys|)]
  }

  /** `keys` is `keySet().toArray()` of a map: each key once. */
  ghost predicate KeyArray<V>(keys: seq<string>, m: map<string, V>) {
    && |keys| == |m|
    && (forall k :: k in m <==> k in keys)
    && (forall i, j :: 0 <= i < j < |keys| ==> keys[i] != keys[j])
  }

  /** The controller: the order N and the table `ngrams` from context keys to predictors. */
  class NGramController {
    const N: int
    var ngrams: map<string, CountPredictor>
    /** The counts held under every key. */
    ghost var table: Table
    /** The controller and its predictors. */
    ghost var Repr: set<object>

    ghost predicate Valid()
      reads this, Repr
    {
      && this in Repr && ngrams.Values <= Repr
      && N >= 2
      && (forall p :: p in ngrams.Values ==> p.Valid())
      && (forall k, k' :: k in ngrams && k' in ngrams && k != k' ==> ngrams[k] != ngrams[k'])
      && table.Keys == ngrams.Keys
      && (forall k :: k in ngrams ==> ngrams[k].counts == table[k])
    }

    constructor (n: int)
      requires n >= 2
      ensures Valid() && fresh(Repr) && N == n && ngrams == map[] && table == map[]
    {
      N := n;
      ngrams := map[];
      table := map[];
      Repr := {this};
    }

    /** One window of feed: the predictor stored under `key`, created first when
        the key is new, gets `next` added. */
    method AddToKey(key: string, next: string)
      requires Valid()
      modifies Repr
      ensures Valid() && fresh(Repr - old(Repr))
      ensures table == AddWindow(old(table), (key, next))
      ensures forall k :: k in old(ngrams) ==> k in ngrams && ngrams[k] == old(ngrams[k])
    {
      if key !in ngrams {
        AddEmpty(key);
      }
      AddToPredictor(key, next);
    }

    /** A new, empty predictor is stored under the unseen `key`. */
    method AddEmpty(key: string)
      requires Valid() && key !in ngrams
      modifies this
      ensures Valid() && key in ngrams && fresh(ngrams[key])
      ensures ngrams == old(ngrams)[key := ngrams[key]] && Repr == old(Repr) + {ngrams[key]}
      ensures table == old(table)[key := map[]]
    {
      var p := new CountPredictor();
      ngrams := ngrams[key := p];
      table := table[key := map[]];
      Repr := Repr + {p};
    }

    /** The predictor stored under `key` gets `next` added; no other predictor changes. */
    method AddToPredictor(key: string, next: string)
      requires Valid() && key in ngrams
      modifies this, ngrams[key]
      ensures Valid() && ngrams == old(ngrams) && Repr == old(Repr)
      ensures table == old(table)[key := AddWord(old(table[key]), next)]
    {
      var p := ngrams[key];
      ghost var others := ngrams - {key};
      assert forall k :: k in others ==> others[k] != p;
      p.Add(next);
      table := table[key := p.counts];
      assert forall k :: k in others ==> others[k].Valid();
    }

    /** The body of feed's loop for the window starting at token i. */
    method FeedWindow(words: seq<string>, i: int)
      requires Valid() && 0 <= i && i + N <= |words|
      modifies Repr
      ensures Valid() && fresh(Repr - old(Repr))
      ensures table == AddWindow(old(table), Window(words, N, i))
    {
      var key, next := WindowOf(words, N, i);
      AddToKey(key, next);
    }

    /** feed: slide an N-token window over `s.split(" ")`; each window's target is
        added to the predictor of its key. */
    method Feed(s: string)
      requires Valid()
      modifies Repr
      ensures Valid() && fresh(Repr - old(Repr))
      ensures var words := Split(s, " ");
        table == FeedTable(old(table), Windows(words, N, WindowCount(|words|, N)))
    {
      var words := Split(s, " ");
      var size := |words|;
      var i := 0;
      while i <= size - N
        invariant 0 <= i <= WindowCount(size, N)
        invariant Valid() && fresh(Repr - old(Repr))
        invariant table == FeedTable(old(table), Windows(words, N, i))
      {
        FeedWindow(words, i);
        FeedTableStep(old(table), words, N, i);
        i := i + 1;
      }
      assert i == WindowCount(size, N);
    }

    /** ngram.predict() on the predictor stored under `key`; no other predictor changes. */
    method PredictAt(key: string, draw: nat) returns (w: Option<string>)
      requires Valid() && key in ngrams
      modifies ngrams[key]
      ensures Valid() && ngrams == old(ngrams) && table == old(table)
      ensures ngrams[key].Valid()
      ensures forall k :: k in ngrams && old(ngrams[k].cumulative).Some? ==>
        ngrams[k].cumulative == old(ngrams[k].cumulative)
      ensures ngrams[key].counts == map[] ==> w == None
      ensures ngrams[key].counts != map[] ==>
        && ngrams[key].cumulative.Some?
        && w == SelectAsWritten(ngrams[key].cumulative.value, DrawWeight(draw, Total(ngrams[key].counts)))
      ensures w.Some? ==> w.value in ngrams[key].counts
      ensures Built(key) && w == Attempt(key, draw)
    {
      var p := ngrams[key];
      assert p in ngrams.Values;
      w := p.Predict(draw);
      assert ngrams[key] == p;
      assert p.counts != map[] ==>
        p.cumulative.Some? && w == SelectAsWritten(p.cumulative.value, DrawWeight(draw, Total(p.counts)));
    }

    /** The predictor under `k` holds no word, or its cumulative view is built. */
    ghost predicate Built(k: string)
      reads this, Repr
      requires Valid()
    {
      k in ngrams && ngrams[k].Valid() && (table[k] != map[] ==> ngrams[k].cumulative.Some?)
    }

    /** What predict on the predictor under `k` yields for `draw`, once its view is
        built: null for no words, otherwise the as-written selection on the view. */
    ghost function Attempt(k: string, draw: nat): Option<string>
      reads this, Repr
      requires Valid() && Built(k)
    {
      if table[k] == map[] then None
      else SelectAsWritten(ngrams[k].cumulative.value, DrawWeight(draw, Total(table[k])))
    }

    /** One iteration of the fallback loop, with draws `r`, ended with null. */
    ghost predicate Failed(keys: seq<string>, r: (nat, nat))
      reads this, Repr
      requires Valid() && |keys| > 0
    {
      Built(RetryKey(keys, r.0)) && Attempt(RetryKey(keys, r.0), r.1) == None
    }

    /** Retry j is the first one whose predictor yields a word, and `text` is the
        sentence with that word appended. */
    ghost predicate FirstHit(sentence: string, keys: seq<string>, retries: seq<(nat, nat)>, j: int, text: string)
      reads this, Repr
      requires Valid() && |keys| > 0
    {
      && 0 <= j < |retries|
      && (forall i :: 0 <= i < j ==> Failed(keys, retries[i]))
      && Built(RetryKey(keys, retries[j].0))
      && var w := Attempt(RetryKey(keys, retries[j].0), retries[j].1);
         w.Some? && text == sentence + " " + w.value
    }

    /** The outcome of the fallback loop over `keys` with the given retry draws:
        no keys is the `nextInt(0)` exception; otherwise the first retry whose
        predictor yields a word decides the answer, and running out of draws means
        every retry yielded null. */
    ghost predicate FallbackGives(sentence: string, keys: seq<string>, retries: seq<(nat, nat)>, o: Prediction)
      reads this, Repr
      requires Valid()
    {
      if |keys| == 0 then o == EmptyModel
      else match o
        case EmptyModel => false
        case OutOfDraws => forall j :: 0 <= j < |retries| ==> Failed(keys, retries[j])
        case Predicted(text) => exists j :: FirstHit(sentence, keys, retries, j, text)
    }

    /** Iteration j of the fallback loop: `ngrams.get(keys[nextInt(size)]).predict()`;
        the retries that failed before stay failed. */
    method Retry(keys: seq<string>, retries: seq<(nat, nat)>, j: nat) returns (w: Option<string>)
      requires Valid() && |keys| > 0 && j < |retries|
      requires forall k :: k in keys ==> k in ngrams
      requires forall i :: 0 <= i < j ==> Failed(keys, retries[i])
      modifies ngrams.Values
      ensures Valid() && ngrams == old(ngrams) && table == old(table)
      ensures forall k :: k in ngrams && old(ngrams[k].cumulative).Some? ==>
        ngrams[k].cumulative == old(ngrams[k].cumulative)
      ensures forall i :: 0 <= i < j ==> Failed(keys, retries[i])
      ensures Built(RetryKey(keys, retries[j].0)) && w == Attempt(RetryKey(keys, retries[j].0), retries[j].1)
      ensures w.Some? ==> w.value in ngrams[RetryKey(keys, retries[j].0)].counts
    {
      var randomKey := keys[NextInt(retries[j].0, |keys|)];
      w := PredictAt(randomKey, retries[j].1);
    }

    /** The fallback loop of predictNext: for each pair of draws, the key at
        `NextInt(keyDraw, size)` of the key array is asked for a prediction, until one
        yields a word; `nextInt(0)` on an empty table throws. */
    method Fallback(sentence: string, keys: seq<string>, retries: seq<(nat, nat)>) returns (o: Prediction)
      requires Valid() && |keys| == |ngrams|
      requires forall k :: k in keys ==> k in ngrams
      modifies ngrams.Values
      ensures Valid() && ngrams == old(ngrams) && table == old(table)
      ensures forall k :: k in ngrams && old(ngrams[k].cumulative).Some? ==>
        ngrams[k].cumulative == old(ngrams[k].cumulative)
      ensures o.EmptyModel? <==> ngrams == map[]
      ensures FallbackGives(sentence, keys, retries, o)
      ensures o.Predicted? ==>
        exists k, w :: k in ngrams && w in ngrams[k].counts && o.text == sentence + " " + w
    {
      var size := |keys|;
      if size == 0 {
        return EmptyModel;
      }
      var j := 0;
      while j < |retries|
        invariant j <= |retries|
        invariant Valid() && ngrams == old(ngrams) && table == old(table)
        invariant forall k :: k in ngrams && old(ngrams[k].cumulative).Some? ==>
          ngrams[k].cumulative == old(ngrams[k].cumulative)
        invariant forall i :: 0 <= i < j ==> Failed(keys, retries[i])
      {
        var w := Retry(keys, retries, j);
        if w.Some? {
          o := Predicted(sentence + " " + w.value);
          assert FirstHit(sentence, keys, retries, j, o.text);
          return;
        }
        j := j + 1;
      }
      return OutOfDraws;
    }

    /** When every stored predictor is empty, no retry can yield a word: a fallback
        over a non-empty table runs out of draws whatever the draws are. */
    lemma AllEmptyRunsOut(sentence: string, keys: seq<string>, retries: seq<(nat, nat)>, o: Prediction)
      requires Valid() && KeyArray(keys, ngrams) && ngrams != map[]
      requires forall k :: k in table ==> table[k] == map[]
      requires FallbackGives(sentence, keys, retries, o)
      ensures o == OutOfDraws
    {
    }

    /** predictNext: ask the predictor of the sentence's context key; when there is
        none or it yields null, pick random keys (`NextInt(keyDraw, size)` stands for
        `nextInt(size)`) until some predictor yields a word. The retries are the
        draws of the fallback loop, one pair per iteration. */
    method PredictNext(sentence: string, draw: nat, retries: seq<(nat, nat)>) returns (o: Prediction)
      requires Valid()
      modifies ngrams.Values
      ensures Valid() && ngrams == old(ngrams) && table == old(table)
      ensures o.EmptyModel? <==> ngrams == map[]
      ensures o.Predicted? ==>
        exists k, w :: k in ngrams && w in ngrams[k].counts && o.text == sentence + " " + w
      ensures var key := ContextKey(sentence, N);
        key in ngrams ==> Built(key)
      ensures var key := ContextKey(sentence, N);
        key in ngrams && Attempt(key, draw).Some? ==> o == Predicted(sentence + " " + Attempt(key, draw).value)
      ensures var key := ContextKey(sentence, N);
        key !in ngrams || Attempt(key, draw).None? ==>
          exists keys :: KeyArray(keys, ngrams) && FallbackGives(sentence, keys, retries, o)
    {
      var keys := ListKeys(ngrams);
      var substring := ContextKeyOf(sentence, N);
      if substring !in ngrams {
        o := Fallback(sentence, keys, retries);
        return;
      }
      var prediction := PredictAt(substring, draw);
      if prediction.Some? {
        return Predicted(sentence + " " + prediction.value);
      }
      o := Fallback(sentence, keys, retries);
    }
  }

  /** "a 1".split(" ") is ["a", "1"]. */
  lemma SplitBlankTarget()
    ensures Split("a 1", " ") == ["a", "1"]
  {
    var s := "a 1";
    assert s[0..1] == "a" && s[1..2] == " " && s[..1] == "a" && s[2..] == "1";
    assert FindFrom(s, " ", 1) == Some(1);
    assert FindFrom(s, " ", 0) == Some(1);
    assert FindFrom("1", " ", 0) == None;
    assert SplitRaw("1", " ") == ["1"];
    assert SplitRaw(s, " ") == ["a", "1"];
  }

  /** feed("a 1") with N = 2: the only window pairs key "a" with the target
      stripWord("1") = "", which add ignores, so "a" holds an empty predictor. */
  lemma BlankTargetTable()
    ensures var words := Split("a 1", " ");
      FeedTable(map[], Windows(words, 2, WindowCount(|words|, 2))) == map["a" := map[]]
  {
    SplitBlankTarget();
    assert Strip("1") == Strip("") == "";
    assert Strip("a") == "a";
    assert Window(["a", "1"], 2, 0) == ("a", "");
    assert Windows(["a", "1"], 2, 1) == [("a", "")];
  }

  /** The context key of the sentence "b" for N = 2 is "b" itself. */
  lemma UnknownContext()
    ensures ContextKey("b", 2) == "b"
  {
    assert "b"[0..1] == "b";
    assert FindFrom("b", " ", 1) == None;
    assert FindFrom("b", " ", 0) == None;
    assert Split("b", " ") == ["b"];
    assert Strip("b") == "b";
  }

  /** new NGramController(2) fed "a 1": the table holds "a" with an empty predictor. */
  method FedBlankTarget() returns (c: NGramController)
    ensures fresh(c.Repr) && c.Valid() && c.N == 2
    ensures c.table == map["a" := map[]]
  {
    c := new NGramController(2);
    c.Feed("a 1");
    BlankTargetTable();
  }

  /** predictNext("b") on the model fed "a 1" with N = 2, as written: the key "b"
      is unknown, the fallback draws "a" every time, and its empty predictor always
      yields null, so no finite sequence of retries ends the loop. */
  method HangsAfterBlankTarget(draw: nat, retries: seq<(nat, nat)>) returns (o: Prediction)
    ensures o == OutOfDraws
  {
    var c := FedBlankTarget();
    UnknownContext();
    o := c.PredictNext("b", draw, retries);
    assert "b" !in c.ngrams;
    ghost var keys :| KeyArray(keys, c.ngrams) && c.FallbackGives("b", keys, retries, o);
    c.AllEmptyRunsOut("b", keys, retries, o);
  }

  /** The keys, in key-array order, whose predictors hold at least one word. */
  function LiveKeys(t: Table, keys: seq<string>): (live: seq<string>)
    requires forall k :: k in keys ==> k in t
    ensures forall k :: k in live <==> k in keys && t[k] != map[]
    decreases |keys|
  {
    if keys == [] then []
    else
      var last := keys[|keys| - 1];
      LiveKeys(t, keys[..|keys| - 1]) + (if t[last] != map[] then [last] else [])
  }

  /** The fallback as evidently intended: the key is drawn only among predictors
      that hold a word, and the covering selection on its cumulative view then
      yields a word; a table without any word is reported instead of looping. */
  ghost function IntendedFallback(sentence: string, t: Table, views: map<string, seq<Entry>>,
                                  keys: seq<string>, keyDraw: nat, draw: nat): Prediction
    requires forall k :: k in keys ==> k in t && k in views && WellFormed(t[k])
  {
    var live := LiveKeys(t, keys);
    if live == [] then EmptyModel
    else
      var k := RetryKey(live, keyDraw);
      match SelectCovering(views[k], DrawWeight(draw, Total(t[k])))
      case Some(w) => Predicted(sentence + " " + w)
      case None => OutOfDraws
  }

  /** On a predictor holding a word, the covering selection yields one of its words
      for every drawn weight. */
  lemma CoveringPicksStored(c: seq<Entry>, counts: map<string, int>, weight: int)
    requires WellFormed(counts) && IsCumulative(c, counts) && counts != map[]
    requires 1 <= weight <= Total(counts)
    ensures SelectCovering(c, weight).Some? && SelectCovering(c, weight).value in counts
  {
    CumulativeShape(c, counts);
    SelectCoveringPicks(c, counts, weight, 0);
    SelectCoveringFound(c, weight);
    var i :| 0 <= i < |c| && SelectCovering(c, weight) == Some(c[i].0) &&
      weight <= c[i].1 && forall j :: 0 <= j < i ==> c[j].1 < weight;
    assert Words(c)[i] == c[i].0;
  }

  /** The intended fallback decides in one draw: it reports an empty model exactly
      when no predictor holds a word, never runs out, and otherwise appends a word
      stored under some key. */
  lemma IntendedFallbackDecides(sentence: string, t: Table, views: map<string, seq<Entry>>,
                                keys: seq<string>, keyDraw: nat, draw: nat)
    requires forall k :: k in t <==> k in keys
    requires forall k :: k in t ==> WellFormed(t[k]) && k in views && IsCumulative(views[k], t[k])
    ensures var o := IntendedFallback(sentence, t, views, keys, keyDraw, draw);
      && (o.EmptyModel? <==> forall k :: k in t ==> t[k] == map[])
      && !o.OutOfDraws?
      && (o.Predicted? ==> exists k, w :: k in t && w in t[k] && o.text == sentence + " " + w)
  {
    var live := LiveKeys(t, keys);
    if live != [] {
      var k := RetryKey(live, keyDraw);
      CoveringPicksStored(views[k], t[k], DrawWeight(draw, Total(t[k])));
    } else {
      forall k | k in t
        ensures t[k] == map[]
      {
        assert k in keys;
      }
    }
  }

  /** The lookup key of predictNext, computed with its two stripWord calls. */
  method ContextKeyOf(sentence: string, n: int) returns (key: string)
    requires n >= 2
    ensures key == ContextKey(sentence, n)
  {
    var stripped := StripWord(sentence);
    var words := Split(stripped, " ");
    var len := |words|;
    var substring := if len >= n - 1 then Join(words[len - n + 1..], " ") else sentence;
    key := StripWord(substring);
  }

  /** The keys of a map in some order, each once (HashMap.keySet().toArray()). */
  method ListKeys<V>(m: map<string, V>) returns (ks: seq<string>)
    ensures |ks| == |m|
    ensures forall k :: k in m <==> k in ks
    ensures forall i, j :: 0 <= i < j < |ks| ==> ks[i] != ks[j]
  {
    ks := [];
    var left := m.Keys;
    while left != {}
      invariant left <= m.Keys
      invariant forall k :: k in m ==> (k in left <==> k !in ks)
      invariant forall k :: k in ks ==> k in m
      invariant forall i, j :: 0 <= i < j < |ks| ==> ks[i] != ks[j]
      invariant |ks| + |left| == |m.Keys|
      decreases left
    {
      var k :| k in left;
      ks := ks + [k];
      left := left - {k};
    }
  }

  /** new NGramController(N): IllegalArgumentException for N <= 1, otherwise an
      empty model of order N. */
  method Create(n: int) returns (r: Result<NGramController, ConfigError>)
    ensures r.Failure? <==> n <= 1
    ensures r.Success? ==> fresh(r.value) && fresh(r.value.Repr) && r.value.Valid() && r.value.N == n && r.value.table == map[]
  {
    if n <= 1 {
      return Failure(IllegalOrder);
    }
    var c := new NGramController(n);
    return Success(c);
  }
}
