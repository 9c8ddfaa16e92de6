/**
 * A hammered dulcimer of bass strings, each a Karplus-Strong ring buffer: a
 * queue of sound values that a strike fills with noise and that every sample
 * rotates, feeding back the decayed average of its first two values. Sound
 * values are exact reals; random.nextDouble() is a given draw.
 */
module Dulcimers {
  import opened Wrappers
  import opened JavaText

  // ---------------------------------------------------------------------------
  // Notes and their offsets from middle C
  // ---------------------------------------------------------------------------

  /** The chromatic scale from C, as `NOTES` lists it. */
  const Notes: seq<string> := ["C", "C#", "D", "D#", "E", "F", "F#", "G", "G#", "A", "A#", "B"]

  /** List.indexOf: the first position of `name`, or -1. */
  function IndexOf(names: seq<string>, name: string): int
    decreases |names|
  {
    if names == [] then -1
    else if names[0] == name then 0
    else
      var rest := IndexOf(names[1..], name);
      if rest == -1 then -1 else rest + 1
  }

  /** indexOf finds the first position holding the name, and gives -1 exactly
      for a name that is not listed. */
  lemma {:induction false} IndexOfFinds(names: seq<string>, name: string)
    ensures var i := IndexOf(names, name);
      && -1 <= i < |names|
      && (i == -1 <==> name !in names)
      && (i >= 0 ==> names[i] == name && forall k :: 0 <= k < i ==> names[k] != name)
    decreases |names|
  {
    if names != [] && names[0] != name {
      IndexOfFinds(names[1..], name);
      assert names == [names[0]] + names[1..];
    }
  }

  /** How many times `c` occurs in `s`. */
  function CountOf(s: string, c: char): nat
    decreases |s|
  {
    if s == [] then 0 else (if s[0] == c then 1 else 0) + CountOf(s[1..], c)
  }

  /** A character occurs exactly when it is counted. */
  lemma {:induction false} CountedIffIn(s: string, c: char)
    ensures CountOf(s, c) > 0 <==> c in s
    decreases |s|
  {
    if s != [] {
      CountedIffIn(s[1..], c);
      assert s == [s[0]] + s[1..];
    }
  }

  /** String.replace(c, ""): `s` without any `c`. */
  function RemoveAll(s: string, c: char): string
    decreases |s|
  {
    if s == [] then []
    else (if s[0] == c then [] else [s[0]]) + RemoveAll(s[1..], c)
  }

  /** String.replaceFirst(c, ""): `s` without its first `c`. */
  function RemoveFirst(s: string, c: char): (r: string)
    requires c in s
    ensures |r| == |s| - 1
    decreases |s|
  {
    if s[0] == c then s[1..]
    else
      assert c in s[1..] by {
        assert s == [s[0]] + s[1..];
      }
      [s[0]] + RemoveFirst(s[1..], c)
  }

  /** Removing the first `c` lowers the count of `c` by one and keeps every other count. */
  lemma {:induction false} RemoveFirstCounts(s: string, c: char, d: char)
    requires c in s
    ensures CountOf(RemoveFirst(s, c), d) == CountOf(s, d) - (if d == c then 1 else 0)
    decreases |s|
  {
    if s[0] != c {
      assert c in s[1..] by {
        assert s == [s[0]] + s[1..];
      }
      RemoveFirstCounts(s[1..], c, d);
      var r := RemoveFirst(s, c);
      assert r[1..] == RemoveFirst(s[1..], c);
    }
  }

  /** The note's name without octave marks. */
  function Bare(note: string): string {
    RemoveAll(RemoveAll(note, '+'), '-')
  }

  /** The offset of a note from middle C in half steps: its position in the
      scale with every '+' and '-' removed (-1 when it is not a note), less 3,
      one octave up per '+', one down per '-', and 4 half steps up to undo the
      transposition of the sample-length formula. */
  function Offset(note: string): int {
    IndexOf(Notes, Bare(note)) - 3
      + 12 * CountOf(note, '+') - 12 * CountOf(note, '-') + 4
  }

  /** RemoveAll and CountOf distribute over concatenation. */
  lemma {:induction false} AppendDistributes(a: string, b: string, c: char)
    ensures RemoveAll(a + b, c) == RemoveAll(a, c) + RemoveAll(b, c)
    ensures CountOf(a + b, c) == CountOf(a, c) + CountOf(b, c)
    decreases |a|
  {
    if a != [] {
      assert (a + b)[0] == a[0] && (a + b)[1..] == a[1..] + b;
      AppendDistributes(a[1..], b, c);
    } else {
      assert a + b == b;
    }
  }

  /** A string without `c` is left alone by RemoveAll and counts no `c`. */
  lemma {:induction false} Without(s: string, c: char)
    requires c !in s
    ensures RemoveAll(s, c) == s && CountOf(s, c) == 0
    decreases |s|
  {
    if s != [] {
      assert c !in s[1..];
      Without(s[1..], c);
      assert s == [s[0]] + s[1..];
    }
  }

  /** No two names of the scale are equal. */
  lemma NotesDistinct(i: nat, j: nat)
    requires i < j < |Notes|
    ensures Notes[i] != Notes[j]
  {
    assert Notes[i][0] != Notes[j][0] || |Notes[i]| != |Notes[j]|;
  }

  /** A note of the scale, written plainly, is its position plus one half step
      above middle C ("C" is 1, "B" is 12). */
  lemma ScaleOffsets(i: nat)
    requires i < |Notes|
    ensures Offset(Notes[i]) == i + 1
  {
    var note := Notes[i];
    assert '+' !in note && '-' !in note;
    Without(note, '+');
    Without(note, '-');
    IndexOfFinds(Notes, note);
    assert note in Notes;
    var k := IndexOf(Notes, note);
    if k < i {
      NotesDistinct(k, i);
    }
  }

  /** An octave mark added at the end leaves the bare name alone. */
  lemma BareIgnoresMarks(note: string)
    ensures Bare(note + "+") == Bare(note) && Bare(note + "-") == Bare(note)
  {
    AppendDistributes(note, "+", '+');
    AppendDistributes(note, "-", '+');
    var plain := RemoveAll(note, '+');
    AppendDistributes(plain, "-", '-');
    assert RemoveAll("+", '+') == [] && RemoveAll("-", '+') == "-" && RemoveAll("-", '-') == [];
    assert RemoveAll(note + "+", '+') == plain;
    assert RemoveAll(note + "-", '+') == plain + "-";
  }

  /** Each '+' raises a note by an octave and each '-' lowers it by one. */
  lemma OctaveShift(note: string)
    ensures Offset(note + "+") == Offset(note) + 12
    ensures Offset(note + "-") == Offset(note) - 12
  {
    BareIgnoresMarks(note);
    AppendDistributes(note, "+", '+');
    AppendDistributes(note, "+", '-');
    AppendDistributes(note, "-", '+');
    AppendDistributes(note, "-", '-');
  }

  /** A name outside the scale counts as index -1: only the octave marks move it. */
  lemma UnknownNote(note: string)
    requires Bare(note) !in Notes
    ensures Offset(note) == 12 * CountOf(note, '+') - 12 * CountOf(note, '-')
  {
    IndexOfFinds(Notes, Bare(note));
  }

  // ---------------------------------------------------------------------------
  // The sound queue
  // ---------------------------------------------------------------------------

  /** The feedback value after `front` and `next`: their average, decayed. */
  function Decayed(front: real, next: real): real {
    0.996 / 2.0 * (front + next)
  }

  /** One sample: the value returned and the queue left behind. A queue with
      fewer than two values gives 0.0, having already lost its one value. */
  function SampleOf(q: seq<real>): (r: (real, seq<real>))
    ensures |q| >= 2 ==> r.0 == q[0] && |r.1| == |q| && r.1[..|q| - 1] == q[1..]
    ensures |q| < 2 ==> r == (0.0, [])
  {
    if |q| >= 2 then (q[0], q[1..] + [Decayed(q[0], q[1])]) else (0.0, [])
  }

  /** The values of `k` successive samples. */
  function Samples(q: seq<real>, k: nat): seq<real>
    decreases k
  {
    if k == 0 then [] else [SampleOf(q).0] + Samples(SampleOf(q).1, k - 1)
  }

  /** Sampling plays a queue of at least two values back in order: the first
      |a| samples of a + b are the values of a. */
  lemma {:induction false} SamplesReplay(a: seq<real>, b: seq<real>, k: nat)
    requires |a + b| >= 2 && k <= |a|
    ensures Samples(a + b, k) == a[..k]
    decreases k
  {
    if k > 0 {
      var q := a + b;
      var next := SampleOf(q).1;
      assert next == a[1..] + (b + [Decayed(q[0], q[1])]);
      SamplesReplay(a[1..], b + [Decayed(q[0], q[1])], k - 1);
      assert a[..k] == [a[0]] + a[1..][..k - 1];
    }
  }

  /** The queue a strike leaves: one value nextDouble() - 0.5 per draw. */
  function Noise(draws: seq<real>): (noise: seq<real>)
    ensures |noise| == |draws|
    ensures forall i :: 0 <= i < |draws| && 0.0 <= draws[i] < 1.0 ==> -0.5 <= noise[i] < 0.5
  {
    seq(|draws|, i requires 0 <= i < |draws| => draws[i] - 0.5)
  }

  /** After a strike, the string plays the noise back, value by value. */
  lemma StruckStringPlaysNoise(draws: seq<real>, k: nat)
    requires |draws| >= 2 && k <= |draws|
    ensures Samples(Noise(draws), k) == Noise(draws)[..k]
  {
    SamplesReplay(Noise(draws), [], k);
    assert Noise(draws) + [] == Noise(draws);
  }

  /** A queue of `n` zeros. */
  function Silence(n: nat): (q: seq<real>)
    ensures |q| == n && forall i :: 0 <= i < n ==> q[i] == 0.0
  {
    seq(n, i => 0.0)
  }

  /** One string of the dulcimer, tuned to a note. */
  class DulcimerString {
    const note: string
    var soundData: seq<real>

    /** A silent string: `lengthOf` gives the queue length that the
        floating-point sample-rate formula assigns to an offset. */
    constructor(note: string, lengthOf: int -> nat)
      ensures this.note == note
      ensures soundData == Silence(lengthOf(Offset(note)))
    {
      this.note := note;
      soundData := [];
      new;
      var offset := OffsetFromMiddleC();
      soundData := Silence(lengthOf(offset));
    }

    /** sample: poll the front, peek at the next value, and feed back their
        decayed average; with no next value give 0.0. */
    method Sample() returns (sample: real)
      modifies this
      ensures (sample, soundData) == SampleOf(old(soundData))
    {
      if soundData == [] {
        return 0.0;
      }
      var front := soundData[0];
      soundData := soundData[1..];
      if soundData == [] {
        return 0.0;
      }
      var next := soundData[0];
      soundData := soundData + [Decayed(front, next)];
      sample := front;
    }

    /** strike: as many times as the queue is long, poll the front and add a
        noise value at the back. */
    method Strike(draws: seq<real>)
      requires |draws| >= |soundData|
      modifies this
      ensures soundData == Noise(draws[..|old(soundData)|])
    {
      ghost var q := soundData;
      for i := 0 to |soundData|
        invariant |soundData| == |q|
        invariant soundData == q[i..] + Noise(draws[..i])
      {
        assert draws[..i + 1] == draws[..i] + [draws[i]];
        assert Noise(draws[..i + 1]) == Noise(draws[..i]) + [draws[i] - 0.5];
        soundData := soundData[1..];
        soundData := soundData + [draws[i] - 0.5];
      }
    }

    /** getOffsetFromMiddleC: the scale position of the bare note, then one
        loop per octave mark, each removing the first mark it finds. */
    method OffsetFromMiddleC() returns (offset: int)
      ensures offset == Offset(note)
    {
      var n := note;
      offset := IndexOf(Notes, Bare(n)) - 3;
      ghost var start := offset;
      while '+' in n
        invariant CountOf(n, '-') == CountOf(note, '-')
        invariant offset == start + 12 * (CountOf(note, '+') - CountOf(n, '+'))
        decreases |n|
      {
        RemoveFirstCounts(n, '+', '+');
        RemoveFirstCounts(n, '+', '-');
        n := RemoveFirst(n, '+');
        offset := offset + 12;
      }
      CountedIffIn(n, '+');
      while '-' in n
        invariant offset == start + 12 * CountOf(note, '+') - 12 * (CountOf(note, '-') - CountOf(n, '-'))
        decreases |n|
      {
        RemoveFirstCounts(n, '-', '-');
        n := RemoveFirst(n, '-');
        offset := offset - 12;
      }
      CountedIffIn(n, '-');
      offset := offset + 4;
    }
  }

  // ---------------------------------------------------------------------------
  // The dulcimer
  // ---------------------------------------------------------------------------

  /** The sum of the first samples of some queues. */
  function Mix(queues: seq<seq<real>>): real
    decreases |queues|
  {
    if queues == [] then 0.0 else Mix(queues[..|queues| - 1]) + SampleOf(queues[|queues| - 1]).0
  }

  /** A freshly built string: tuned to `note`, with a silent queue as long as
      `lengthOf` makes it for the note's offset. */
  predicate Silent(s: DulcimerString, note: string, lengthOf: int -> nat)
    reads s
  {
    s.note == note && s.soundData == Silence(lengthOf(Offset(note)))
  }

  class Dulcimer {
    var baseStrings: seq<DulcimerString>

    /** The strings are distinct objects, so striking one leaves the others. */
    predicate Valid()
      reads this
    {
      forall i, j :: 0 <= i < j < |baseStrings| ==> baseStrings[i] != baseStrings[j]
    }

    /** The queues of the strings, bottom to top. */
    function Queues(): (queues: seq<seq<real>>)
      reads this, baseStrings
      ensures |queues| == |baseStrings|
    {
      seq(|baseStrings|, i reads this, baseStrings requires 0 <= i < |baseStrings| => baseStrings[i].soundData)
    }

    /** One silent string per whitespace-separated token of `bassNotes`, bottom to top. */
    constructor(bassNotes: string, lengthOf: int -> nat)
      ensures Valid()
      ensures |baseStrings| == |SplitWhitespace(bassNotes)|
      ensures forall i :: 0 <= i < |baseStrings| ==>
        fresh(baseStrings[i]) && Silent(baseStrings[i], SplitWhitespace(bassNotes)[i], lengthOf)
    {
      var tokens := SplitWhitespace(bassNotes);
      var strings := StringsFor(tokens, lengthOf);
      baseStrings := strings;
    }

    /** The loop of the constructor: a new string per token, in order. */
    static method StringsFor(tokens: seq<string>, lengthOf: int -> nat) returns (strings: seq<DulcimerString>)
      ensures |strings| == |tokens|
      ensures forall i, j :: 0 <= i < j < |strings| ==> strings[i] != strings[j]
      ensures forall i :: 0 <= i < |strings| ==> fresh(strings[i]) && Silent(strings[i], tokens[i], lengthOf)
    {
      ghost var lengths := seq(|tokens|, i requires 0 <= i < |tokens| => lengthOf(Offset(tokens[i])));
      strings := [];
      for t := 0 to |tokens|
        invariant |strings| == t
        invariant forall i, j :: 0 <= i < j < t ==> strings[i] != strings[j]
        invariant forall i :: 0 <= i < t ==>
          fresh(strings[i]) && strings[i].note == tokens[i] && strings[i].soundData == Silence(lengths[i])
      {
        var s := new DulcimerString(tokens[t], lengthOf);
        assert s.soundData == Silence(lengths[t]);
        strings := strings + [s];
      }
    }

    /** hammer: strike string `stringNum` when it exists; do nothing otherwise. */
    method Hammer(stringNum: int, draws: seq<real>)
      requires Valid()
      requires 0 <= stringNum < |baseStrings| ==> |draws| >= |baseStrings[stringNum].soundData|
      modifies baseStrings
      ensures baseStrings == old(baseStrings) && Valid()
      ensures forall i :: 0 <= i < |baseStrings| ==>
        baseStrings[i].soundData ==
          if i == stringNum then Noise(draws[..|old(baseStrings[i].soundData)|]) else old(baseStrings[i].soundData)
    {
      if stringNum >= 0 && stringNum < |baseStrings| {
        baseStrings[stringNum].Strike(draws);
      }
    }

    /** play: sample every string once and mix the samples; the mix is what
        goes to the audio output. */
    method Play() returns (combinedFrequencies: real)
      requires Valid()
      modifies baseStrings
      ensures baseStrings == old(baseStrings) && Valid()
      ensures forall i :: 0 <= i < |baseStrings| ==> baseStrings[i].soundData == SampleOf(old(baseStrings[i].soundData)).1
      ensures combinedFrequencies == Mix(old(Queues()))
    {
      ghost var before := Queues();
      combinedFrequencies := 0.0;
      for i := 0 to |baseStrings|
        invariant forall k :: 0 <= k < i ==> baseStrings[k].soundData == SampleOf(before[k]).1
        invariant forall k :: i <= k < |baseStrings| ==> baseStrings[k].soundData == before[k]
        invariant combinedFrequencies == Mix(before[..i])
      {
        assert before[..i + 1][..i] == before[..i];
        var sample := baseStrings[i].Sample();
        combinedFrequencies := combinedFrequencies + sample;
      }
      assert before[..|baseStrings|] == before;
    }
  }
}
