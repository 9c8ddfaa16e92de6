/**
 * QuestionTree (hw4/src/QuestionTree.java): a binary tree of "Q:"/"A:" texts
 * with a cursor, read in preorder one line per node and written back in the
 * same order.
 *
 * The QuestionNode objects are modelled as a value tree: the program never
 * shares a node between two places (read and addQuestion always allocate new
 * children, and the old answer is copied), so the tree reachable from the root
 * determines everything the class can observe. A null child is Nil and a null
 * text is None.
 */
module QuestionTrees {
  import opened Wrappers
  import opened JavaText

  const QuestionPrefix: string := "Q:"
  const AnswerPrefix: string := "A:"

  datatype Tree = Nil | Node(text: Option<string>, left: Tree, right: Tree)

  /** A path from the root: true goes to the left child ("yes"), false to the right. */
  type Path = seq<bool>

  /** The node a path leads to, or Nil once it steps off the tree. */
  function At(t: Tree, p: Path): Tree
    decreases |p|
  {
    if p == [] || t == Nil then (if p == [] then t else Nil)
    else At(if p[0] then t.left else t.right, p[1..])
  }

  /** The tree with the node at path p (which must exist) replaced by n. */
  function ReplaceAt(t: Tree, p: Path, n: Tree): Tree
    requires At(t, p) != Nil
    decreases |p|
  {
    if p == [] then n
    else if p[0] then Node(t.text, ReplaceAt(t.left, p[1..], n), t.right)
    else Node(t.text, t.left, ReplaceAt(t.right, p[1..], n))
  }

  /** After the replacement the path leads to the new node. */
  lemma {:induction false} AtReplaced(t: Tree, p: Path, n: Tree)
    requires At(t, p) != Nil
    ensures At(ReplaceAt(t, p, n), p) == n
    decreases |p|
  {
    if p != [] {
      AtReplaced(if p[0] then t.left else t.right, p[1..], n);
    }
  }

  predicate IsPrefix(a: Path, b: Path) {
    |a| <= |b| && b[..|a|] == a
  }

  /** Every path that neither passes through p nor leads to an ancestor of its
      node leads where it led before. */
  lemma {:induction false} AtUntouched(t: Tree, p: Path, n: Tree, q: Path)
    requires At(t, p) != Nil
    requires !IsPrefix(p, q) && !IsPrefix(q, p)
    ensures At(ReplaceAt(t, p, n), q) == At(t, q)
    decreases |p|
  {
    assert p != [] && q != [];
    if p[0] == q[0] {
      PrefixTail(p, q);
      PrefixTail(q, p);
      AtUntouched(if p[0] then t.left else t.right, p[1..], n, q[1..]);
    }
  }

  /** Two paths with the same first step are prefixes of each other as their tails are. */
  lemma PrefixTail(a: Path, b: Path)
    requires a != [] && b != [] && a[0] == b[0]
    ensures IsPrefix(a, b) <==> IsPrefix(a[1..], b[1..])
  {
    if |a| <= |b| {
      assert b[..|a|] == [b[0]] + b[1..][..|a| - 1];
      assert a == [a[0]] + a[1..];
    }
  }

  /** The ancestors of the replaced node keep their texts. */
  lemma {:induction false} AncestorsKeepText(t: Tree, p: Path, n: Tree, q: Path)
    requires At(t, p) != Nil
    requires IsPrefix(q, p) && q != p
    ensures At(t, q) != Nil && At(ReplaceAt(t, p, n), q) != Nil
    ensures At(ReplaceAt(t, p, n), q).text == At(t, q).text
    decreases |p|
  {
    if q != [] {
      assert q[1..] == p[1..][..|q| - 1];
      AncestorsKeepText(if p[0] then t.left else t.right, p[1..], n, q[1..]);
    }
  }

  /** A node's text as string concatenation renders it: null prints as "null". */
  function Rendered(text: Option<string>): string {
    match text
    case None => "null"
    case Some(s) => s
  }

  /** The texts of the tree in preorder: node, left subtree, right subtree. */
  function Preorder(t: Tree): seq<string> {
    if t == Nil then [] else [Rendered(t.text)] + Preorder(t.left) + Preorder(t.right)
  }

  /** The static QuestionNode.toString(node): "\n" before every node's text, in preorder. */
  function Dump(t: Tree): string {
    if t == Nil then "" else "\n" + Rendered(t.text) + Dump(t.left) + Dump(t.right)
  }

  /** Each line of a sequence, preceded by a newline. */
  function Prefixed(lines: seq<string>): string {
    if lines == [] then "" else "\n" + lines[0] + Prefixed(lines[1..])
  }

  lemma {:induction false} PrefixedAppend(a: seq<string>, b: seq<string>)
    ensures Prefixed(a + b) == Prefixed(a) + Prefixed(b)
    decreases |a|
  {
    if a == [] {
      assert a + b == b;
    } else {
      assert (a + b)[0] == a[0];
      assert (a + b)[1..] == a[1..] + b;
      PrefixedAppend(a[1..], b);
    }
  }

  /** toString(node) writes exactly the preorder texts, each after a newline. */
  lemma {:induction false} DumpIsPrefixedPreorder(t: Tree)
    ensures Dump(t) == Prefixed(Preorder(t))
  {
    if t != Nil {
      DumpIsPrefixedPreorder(t.left);
      DumpIsPrefixedPreorder(t.right);
      PrefixedAppend(Preorder(t.left), Preorder(t.right));
      var rest := Preorder(t.left) + Preorder(t.right);
      assert Preorder(t) == [Rendered(t.text)] + rest;
      assert Preorder(t)[1..] == rest;
    }
  }

  /** Dropping the leading newline of Prefixed leaves the lines joined by newlines. */
  lemma {:induction false} PrefixedIsJoin(lines: seq<string>)
    requires lines != []
    ensures Prefixed(lines)[1..] == Join(lines, "\n")
    decreases |lines|
  {
    if |lines| > 1 {
      PrefixedIsJoin(lines[1..]);
      assert Prefixed(lines[1..]) == "\n" + Prefixed(lines[1..])[1..];
    }
  }

  /** The index of the first newline in s at or after i, or |s|. */
  function LineEnd(s: string, i: nat): (e: nat)
    requires i <= |s|
    ensures i <= e <= |s|
    ensures forall k :: i <= k < e ==> s[k] != '\n'
    ensures e < |s| ==> s[e] == '\n'
    decreases |s| - i
  {
    if i == |s| || s[i] == '\n' then i else LineEnd(s, i + 1)
  }

  /** The lines a Scanner returns with nextLine until hasNextLine fails, with
      '\n' as the only line terminator: a last line without a terminator is still
      returned, and the input "" has no lines. */
  function ScanLines(s: string): seq<string>
    decreases |s|
  {
    if s == [] then []
    else
      var e := LineEnd(s, 0);
      if e == |s| then [s] else [s[..e]] + ScanLines(s[e + 1..])
  }

  predicate OneLine(text: string) {
    forall k :: 0 <= k < |text| ==> text[k] != '\n'
  }

  /** A scan that starts with a whole line returns that line first. */
  lemma ScanFirstLine(x: string, tail: string)
    requires OneLine(x)
    ensures ScanLines(x + "\n" + tail) == [x] + ScanLines(tail)
  {
    var s := x + "\n" + tail;
    assert s[|x|] == '\n';
    assert forall k :: 0 <= k < |x| ==> s[k] == x[k];
    assert LineEnd(s, 0) == |x|;
    assert s[..|x|] == x;
    assert s[|x| + 1..] == tail;
  }

  /** A non-empty last line without a terminator is scanned as it is. */
  lemma ScanLastLine(x: string)
    requires OneLine(x) && x != ""
    ensures ScanLines(x) == [x]
  {
    assert LineEnd(x, 0) == |x|;
  }

  /** Scanning lines joined by newlines gives them back, provided no line holds a
      newline and the last one is not empty (a trailing empty line is lost). */
  lemma {:induction false} ScanJoin(lines: seq<string>)
    requires forall i :: 0 <= i < |lines| ==> OneLine(lines[i])
    requires lines != [] ==> lines[|lines| - 1] != ""
    ensures ScanLines(Join(lines, "\n")) == lines
    decreases |lines|
  {
    if |lines| == 1 {
      ScanLastLine(lines[0]);
    } else if |lines| > 1 {
      assert Join(lines, "\n") == lines[0] + "\n" + Join(lines[1..], "\n");
      ScanFirstLine(lines[0], Join(lines[1..], "\n"));
      ScanJoin(lines[1..]);
    }
  }

  /** read(sc, node) over the scanner's remaining lines: the node read and the
      lines left. With no line left the node keeps its null text and gets no
      children; a line starting with "Q:" is followed by its two subtrees. */
  function Read(lines: seq<string>): (r: (Tree, seq<string>))
    ensures r.0 != Nil
    ensures |r.1| <= |lines| && r.1 == lines[|lines| - |r.1|..]
    ensures lines != [] ==> |r.1| < |lines|
    decreases |lines|
  {
    if lines == [] then (Node(None, Nil, Nil), [])
    else
      var text := lines[0];
      if StartsWith(text, QuestionPrefix) then
        var (left, rest) := Read(lines[1..]);
        var (right, rest') := Read(rest);
        (Node(Some(text), left, right), rest')
      else
        (Node(Some(text), Nil, Nil), lines[1..])
  }

  /** A tree read back unchanged: every node has a text, and exactly the nodes
      whose text starts with "Q:" have children, both of them. */
  predicate WellFormed(t: Tree) {
    && t != Nil
    && t.text.Some?
    && if StartsWith(t.text.value, QuestionPrefix)
       then WellFormed(t.left) && WellFormed(t.right)
       else t.left == Nil && t.right == Nil
  }

  /** Every text of the tree is one non-empty line. */
  predicate Writable(t: Tree) {
    t != Nil ==> t.text.Some? && t.text.value != "" && OneLine(t.text.value) && Writable(t.left) && Writable(t.right)
  }

  /** One step of Read on a question line: its two subtrees follow it. */
  lemma ReadQuestion(text: string, after: seq<string>, left: Tree, middle: seq<string>, right: Tree, rest: seq<string>)
    requires StartsWith(text, QuestionPrefix)
    requires Read(after) == (left, middle) && Read(middle) == (right, rest)
    ensures Read([text] + after) == (Node(Some(text), left, right), rest)
  {
    assert ([text] + after)[1..] == after;
  }

  /** One step of Read on any other line: a leaf. */
  lemma ReadAnswer(text: string, rest: seq<string>)
    requires !StartsWith(text, QuestionPrefix)
    ensures Read([text] + rest) == (Node(Some(text), Nil, Nil), rest)
  {
    assert ([text] + rest)[1..] == rest;
  }

  /** The preorder lines of a node with a text, regrouped for reading. */
  lemma PreorderOfNode(t: Tree, rest: seq<string>)
    requires t != Nil && t.text.Some?
    ensures Preorder(t) + rest == [t.text.value] + (Preorder(t.left) + (Preorder(t.right) + rest))
  {
  }

  /** Reading the preorder texts of a well-formed tree rebuilds it and consumes
      exactly its lines. */
  lemma {:induction false} ReadPreorder(t: Tree, rest: seq<string>)
    requires WellFormed(t)
    ensures Read(Preorder(t) + rest) == (t, rest)
  {
    var text := t.text.value;
    if StartsWith(text, QuestionPrefix) {
      var l, r := Preorder(t.left), Preorder(t.right);
      PreorderOfNode(t, rest);
      ReadPreorder(t.left, r + rest);
      ReadPreorder(t.right, rest);
      ReadQuestion(text, l + (r + rest), t.left, r + rest, t.right, rest);
    } else {
      PreorderOfNode(t, rest);
      ReadAnswer(text, rest);
    }
  }

  lemma {:induction false} PreorderWritable(t: Tree)
    requires Writable(t)
    ensures forall i :: 0 <= i < |Preorder(t)| ==> OneLine(Preorder(t)[i]) && Preorder(t)[i] != ""
  {
    if t != Nil {
      PreorderWritable(t.left);
      PreorderWritable(t.right);
      var l, r := Preorder(t.left), Preorder(t.right);
      assert Preorder(t) == [t.text.value] + l + r;
      forall i | 0 <= i < |Preorder(t)|
        ensures OneLine(Preorder(t)[i]) && Preorder(t)[i] != ""
      {
        if i > 0 && i <= |l| {
          assert Preorder(t)[i] == l[i - 1];
        } else if i > |l| {
          assert Preorder(t)[i] == r[i - 1 - |l|];
        }
      }
    }
  }

  /** The text QuestionTree.toString produces for a tree: the node dump without
      its leading newline. */
  function Serialise(t: Tree): string
    requires t != Nil
  {
    Dump(t)[1..]
  }

  /** toString lists the preorder texts joined by newlines. */
  lemma SerialiseIsJoinedPreorder(t: Tree)
    requires t != Nil
    ensures Serialise(t) == Join(Preorder(t), "\n")
  {
    DumpIsPrefixedPreorder(t);
    PrefixedIsJoin(Preorder(t));
  }

  /** Saving a well-formed tree of one-line texts and reading the file back
      (QuestionTree(filename)) rebuilds the same tree. */
  lemma ReadSerialised(t: Tree)
    requires WellFormed(t) && Writable(t)
    ensures ScanLines(Serialise(t)) == Preorder(t)
    ensures Read(ScanLines(Serialise(t))).0 == t
  {
    SerialiseIsJoinedPreorder(t);
    PreorderWritable(t);
    ScanJoin(Preorder(t));
    ReadPreorder(t, []);
    assert Preorder(t) + [] == Preorder(t);
  }

  /** "yes" or "y", ignoring case. */
  predicate IsYes(ans: string) {
    EqualsIgnoreCase(ans, "yes") || EqualsIgnoreCase(ans, "y")
  }

  /** The subtree addQuestion puts at the cursor: the question, with the new
      answer on the "yes" side iff corrAns is yes, and a copy of the old text. */
  function Learned(guess: Tree, q: string, item: string, corrAns: string): (r: Tree)
    requires guess != Nil
  {
    var oldAns := Node(guess.text, Nil, Nil);
    var newAns := Node(Some(AnswerPrefix + item), Nil, Nil);
    if IsYes(corrAns) then Node(Some(QuestionPrefix + q), newAns, oldAns)
    else Node(Some(QuestionPrefix + q), oldAns, newAns)
  }

  /** The learned subtree asks the question and leads to the new item exactly on
      the side of corrAns, to the old guess on the other. */
  lemma LearnedShape(guess: Tree, q: string, item: string, corrAns: string)
    requires guess != Nil
    ensures var r := Learned(guess, q, item, corrAns);
      && r.text == Some(QuestionPrefix + q)
      && At(r, [IsYes(corrAns)]) == Node(Some(AnswerPrefix + item), Nil, Nil)
      && At(r, [!IsYes(corrAns)]) == Node(guess.text, Nil, Nil)
  {
    var r := Learned(guess, q, item, corrAns);
    assert At(r, [true]) == r.left && At(r, [false]) == r.right;
  }

  lemma {:induction false} ReplaceWellFormed(t: Tree, p: Path, n: Tree)
    requires WellFormed(t) && At(t, p) != Nil && WellFormed(n)
    ensures WellFormed(ReplaceAt(t, p, n))
    decreases |p|
  {
    if p != [] {
      ReplaceWellFormed(if p[0] then t.left else t.right, p[1..], n);
    }
  }

  lemma {:induction false} AtWellFormed(t: Tree, p: Path)
    requires WellFormed(t) && At(t, p) != Nil
    ensures WellFormed(At(t, p))
    decreases |p|
  {
    if p != [] {
      AtWellFormed(if p[0] then t.left else t.right, p[1..]);
    }
  }

  /** Learning at a guess keeps the tree readable: the cursor node becomes a
      question with two answers below it. */
  lemma LearnKeepsWellFormed(t: Tree, p: Path, q: string, item: string, corrAns: string)
    requires WellFormed(t) && At(t, p) != Nil && At(t, p).text.Some?
    requires !StartsWith(At(t, p).text.value, QuestionPrefix)
    requires !StartsWith(AnswerPrefix + item, QuestionPrefix)
    ensures WellFormed(ReplaceAt(t, p, Learned(At(t, p), q, item, corrAns)))
  {
    AtWellFormed(t, p);
    var n := Learned(At(t, p), q, item, corrAns);
    assert StartsWith(QuestionPrefix + q, QuestionPrefix) by {
      assert (QuestionPrefix + q)[..2] == QuestionPrefix;
    }
    assert WellFormed(n);
    ReplaceWellFormed(t, p, n);
  }

  /** The answer prefix never reads as a question: "A:" + item is a guess. */
  lemma AnswerIsNoQuestion(item: string)
    ensures !StartsWith(AnswerPrefix + item, QuestionPrefix)
    ensures StartsWith(AnswerPrefix + item, AnswerPrefix)
  {
    assert (AnswerPrefix + item)[..2] == AnswerPrefix;
  }

  /** The tree the constructor builds: the default guess "A:cat", or the tree
      read from the file's lines into a root whose text was cleared. */
  function InitialTree(file: Option<seq<string>>): Tree {
    match file
    case None => Node(Some(AnswerPrefix + "cat"), Nil, Nil)
    case Some(lines) => Read(lines).0
  }

  /** The game: the tree below the final root and the cursor `curr`, as a path. */
  class QuestionTree {
    var root: Tree
    var cursor: Path

    /** QuestionTree(filename): None stands for a null filename or a file that
        cannot be opened, which leave the default tree "A:cat"; otherwise the
        root's text is cleared and the file's lines are read into it. */
    constructor (file: Option<seq<string>>)
      ensures root == InitialTree(file) && cursor == []
    {
      root := InitialTree(file);
      cursor := [];
    }

    /** The node `curr` designates; Nil stands for null. */
    function Current(): Tree
      reads this
    {
      At(root, cursor)
    }

    /** restartGame: the cursor goes back to the root; the tree is untouched. */
    method RestartGame()
      modifies this
      ensures cursor == [] && root == old(root)
    {
      cursor := [];
    }

    /** isGuess: the current text starts with "A:". A null cursor or null text is
        a NullPointerException, excluded here. */
    function IsGuess(): (r: bool)
      reads this
      requires Current() != Nil && Current().text.Some?
      ensures r ==> !StartsWith(Current().text.value, QuestionPrefix)
      ensures r <==> GetCurrentText().Some? && Current().text.value == AnswerPrefix + GetCurrentText().value
    {
      StartsWith(Current().text.value, AnswerPrefix)
    }

    /** getCurrentText: the current text without its two-character prefix; a text
        shorter than two characters is a StringIndexOutOfBoundsException (None). */
    function GetCurrentText(): (r: Option<string>)
      reads this
      requires Current() != Nil && Current().text.Some?
      ensures r.Some? <==> |Current().text.value| >= 2
      ensures r.Some? ==> Current().text.value == Current().text.value[..2] + r.value
    {
      var text := Current().text.value;
      if |text| < 2 then None else Some(text[2..])
    }

    /** nextQuestion: "yes"/"y" in any case moves to the left child, anything else
        to the right one (which may be null). */
    method NextQuestion(ans: string)
      requires Current() != Nil
      modifies this
      ensures root == old(root) && cursor == old(cursor) + [IsYes(ans)]
      ensures Current() == (if IsYes(ans) then old(Current()).left else old(Current()).right)
    {
      AtExtend(root, cursor, IsYes(ans));
      cursor := cursor + [IsYes(ans)];
    }

    /** addQuestion: the current node becomes the question with the new answer and
        a copy of the old text as its children; the cursor stays. */
    method AddQuestion(q: string, item: string, corrAns: string)
      requires Current() != Nil
      modifies this
      ensures cursor == old(cursor)
      ensures root == ReplaceAt(old(root), cursor, Learned(old(Current()), q, item, corrAns))
    {
      root := ReplaceAt(root, cursor, Learned(Current(), q, item, corrAns));
    }

    /** toString. */
    function ToString(): (s: string)
      reads this
      requires root != Nil
      ensures s == Join(Preorder(root), "\n")
    {
      SerialiseIsJoinedPreorder(root);
      Serialise(root)
    }
  }

  /** One more step of a path goes to the corresponding child. */
  lemma {:induction false} AtExtend(t: Tree, p: Path, b: bool)
    requires At(t, p) != Nil
    ensures At(t, p + [b]) == (if b then At(t, p).left else At(t, p).right)
    decreases |p|
  {
    if p == [] {
      assert [b][1..] == [];
    } else {
      assert (p + [b])[1..] == p[1..] + [b];
      AtExtend(if p[0] then t.left else t.right, p[1..], b);
    }
  }

  /** After addQuestion the cursor node asks the question, its corrAns side is the
      new guess and its other side the old text; its ancestors keep their texts
      and every other node is as before. */
  lemma AddQuestionEffect(t: Tree, p: Path, q: string, item: string, corrAns: string, other: Path)
    requires At(t, p) != Nil
    ensures var t' := ReplaceAt(t, p, Learned(At(t, p), q, item, corrAns));
      && At(t', p) == Learned(At(t, p), q, item, corrAns)
      && At(t', p + [IsYes(corrAns)]) == Node(Some(AnswerPrefix + item), Nil, Nil)
      && At(t', p + [!IsYes(corrAns)]) == Node(At(t, p).text, Nil, Nil)
      && (!IsPrefix(p, other) && !IsPrefix(other, p) ==> At(t', other) == At(t, other))
      && (IsPrefix(other, p) && other != p ==>
            At(t, other) != Nil && At(t', other) != Nil && At(t', other).text == At(t, other).text)
  {
    var n := Learned(At(t, p), q, item, corrAns);
    var t' := ReplaceAt(t, p, n);
    AtReplaced(t, p, n);
    AtExtend(t', p, true);
    AtExtend(t', p, false);
    if !IsPrefix(p, other) && !IsPrefix(other, p) {
      AtUntouched(t, p, n, other);
    }
    if IsPrefix(other, p) && other != p {
      AncestorsKeepText(t, p, n, other);
    }
  }

  /** A fresh default tree is the single guess "A:cat", which reads back unchanged. */
  lemma DefaultIsGuess()
    ensures var t := InitialTree(None);
      && t == Node(Some("A:cat"), Nil, Nil)
      && StartsWith(t.text.value, AnswerPrefix) && WellFormed(t)
  {
    assert AnswerPrefix + "cat" == "A:cat";
    AnswerIsNoQuestion("cat");
  }
}
