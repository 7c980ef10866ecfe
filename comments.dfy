/** The comment filter that `DataFile::try_read` applies to a file's text
    before decoding it: the text is split into lines the way Rust's
    `str::lines` splits it, every line whose first character is `#` is
    dropped, and the remaining lines are concatenated with no separator. */
module Comments {

  /** Index of the first line feed of `s`, or `|s|` when there is none. */
  function NewlineIndex(s: string): (i: nat)
    ensures i <= |s|
    ensures forall k :: 0 <= k < i ==> s[k] != '\n'
    ensures i < |s| ==> s[i] == '\n'
    ensures i < |s| || '\n' !in s
  {
    if s == [] || s[0] == '\n' then 0 else 1 + NewlineIndex(s[1..])
  }

  predicate EndsWithCarriageReturn(line: string) {
    |line| > 0 && line[|line| - 1] == '\r'
  }

  /** A line taken from before a line feed loses the carriage return of a
      `\r\n` ending. */
  function TrimCarriageReturn(line: string): (r: string)
    ensures !EndsWithCarriageReturn(line) ==> r == line
    ensures EndsWithCarriageReturn(line) ==> r + "\r" == line
  {
    if EndsWithCarriageReturn(line) then line[..|line| - 1] else line
  }

  /** The lines of `text` as Rust's `str::lines` yields them: the text is cut
      at every `\n`, a `\r` directly before a `\n` is dropped, a final line
      feed does not start an empty last line, and empty text has no lines. */
  function Lines(text: string): (ls: seq<string>)
    ensures ls == [] <==> text == []
    decreases |text|
  {
    if text == [] then []
    else
      var i := NewlineIndex(text);
      if i == |text| then [text]
      else [TrimCarriageReturn(text[..i])] + Lines(text[i + 1..])
  }

  /** `starts_with("#")`: a line is a comment when `#` is a prefix of it. */
  predicate IsComment(line: string)
    ensures IsComment(line) <==> "#" <= line
  {
    |line| > 0 && line[0] == '#'
  }

  /** The lines of `ls` that are not comments, in their original order. */
  function KeptLines(ls: seq<string>): (kept: seq<string>)
    ensures forall l :: l in kept ==> l in ls && !IsComment(l)
    ensures forall l :: l in ls && !IsComment(l) ==> l in kept
  {
    if ls == [] then []
    else if IsComment(ls[0]) then KeptLines(ls[1..])
    else [ls[0]] + KeptLines(ls[1..])
  }

  /** `collect::<String>()` over a sequence of lines: plain concatenation. */
  function Concat(ls: seq<string>): (s: string)
    ensures ls != [] ==> ls[0] <= s
    ensures s == [] <==> forall l :: l in ls ==> l == []
  {
    if ls == [] then []
    else
      MembersOfTail(ls);
      ls[0] + Concat(ls[1..])
  }

  /** The comment filter of `try_read`. */
  function StripComments(text: string): (r: string)
    ensures '\n' !in r
    ensures !IsComment(r)
  {
    var kept := KeptLines(Lines(text));
    LinesHaveNoLineFeed(text);
    ConcatOfCodeLines(kept);
    Concat(kept)
  }

  /** Joins lines back into text, each line followed by a line feed. */
  function Unlines(ls: seq<string>): string {
    if ls == [] then [] else ls[0] + "\n" + Unlines(ls[1..])
  }

  /** Lines that `Lines` can give back unchanged: no line feed inside, and no
      carriage return at the end (it would be read as part of `\r\n`). */
  predicate PlainLine(l: string) {
    '\n' !in l && !EndsWithCarriageReturn(l)
  }

  /** Position `at` of `text` is the start of a line. */
  predicate AtLineStart(text: string, at: nat) {
    at <= |text| && (at == 0 || text[at - 1] == '\n')
  }

  /** A comment line `comment` to be inserted before position `at`. */
  datatype Note = Note(at: nat, comment: string)

  predicate Insertable(text: string, n: Note) {
    AtLineStart(text, n.at) && IsComment(n.comment) && '\n' !in n.comment
  }

  function InsertNote(text: string, n: Note): (r: string)
    requires Insertable(text, n)
    ensures |r| == |text| + |n.comment| + 1
  {
    text[..n.at] + n.comment + "\n" + text[n.at..]
  }

  /** Every note of `notes` falls at the start of a line of the text that the
      notes before it produced. */
  predicate ValidNotes(text: string, notes: seq<Note>)
    decreases |notes|
  {
    notes == [] || (Insertable(text, notes[0]) && ValidNotes(InsertNote(text, notes[0]), notes[1..]))
  }

  /** `text` with the comment lines of `notes` inserted one after the other:
      what a configuration-management tool does when it annotates a file. */
  function Annotate(text: string, notes: seq<Note>): (r: string)
    requires ValidNotes(text, notes)
    decreases |notes|
  {
    if notes == [] then text else Annotate(InsertNote(text, notes[0]), notes[1..])
  }

  // ---------------------------------------------------------------------
  // Lemmas

  /** No line holds a line feed. */
  lemma {:induction false} LinesHaveNoLineFeed(text: string)
    ensures forall l :: l in Lines(text) ==> '\n' !in l
    decreases |text|
  {
    if text == [] {
      assert Lines(text) == [];
    } else if NewlineIndex(text) == |text| {
      assert Lines(text) == [text];
      assert '\n' !in text;
    } else {
      var i := NewlineIndex(text);
      var first, tail := TrimCarriageReturn(text[..i]), Lines(text[i + 1..]);
      FirstLineHasNoLineFeed(text);
      LinesHaveNoLineFeed(text[i + 1..]);
      LinesUnfold(text);
      MembersOfAppend([first], tail);
      forall l | l in Lines(text)
        ensures '\n' !in l
      {
        if l != first {
          assert l in tail;
        }
      }
    }
  }

  lemma FirstLineHasNoLineFeed(text: string)
    requires NewlineIndex(text) < |text|
    ensures '\n' !in TrimCarriageReturn(text[..NewlineIndex(text)])
  {
    var line := TrimCarriageReturn(text[..NewlineIndex(text)]);
    forall k | 0 <= k < |line|
      ensures line[k] != '\n'
    {
      assert line[k] == text[k];
    }
  }

  lemma MembersOfAppend<T>(x: seq<T>, y: seq<T>)
    ensures forall e :: e in x + y <==> e in x || e in y
  {
  }

  lemma MembersOfTail<T>(s: seq<T>)
    requires s != []
    ensures s[0] in s
    ensures forall e :: e in s <==> e == s[0] || e in s[1..]
  {
    forall e | e in s
      ensures e == s[0] || e in s[1..]
    {
      var k :| 0 <= k < |s| && s[k] == e;
      if k > 0 {
        assert s[1..][k - 1] == e;
      }
    }
  }

  lemma HeadAndTail<T>(s: seq<T>)
    requires s != []
    ensures [s[0]] + s[1..] == s
  {
  }

  /** Concatenating lines free of line feeds and comments gives text free of
      both. */
  lemma {:induction false} ConcatOfCodeLines(ls: seq<string>)
    requires forall l :: l in ls ==> '\n' !in l && !IsComment(l)
    ensures '\n' !in Concat(ls)
    ensures !IsComment(Concat(ls))
  {
    if ls != [] {
      MembersOfTail(ls);
      ConcatOfCodeLines(ls[1..]);
    }
  }

  lemma {:induction false} ConcatAppend(xs: seq<string>, ys: seq<string>)
    ensures Concat(xs + ys) == Concat(xs) + Concat(ys)
  {
    if xs == [] {
      assert xs + ys == ys;
    } else {
      assert (xs + ys)[1..] == xs[1..] + ys;
      ConcatAppend(xs[1..], ys);
    }
  }

  lemma {:induction false} KeptLinesAppend(xs: seq<string>, ys: seq<string>)
    ensures KeptLines(xs + ys) == KeptLines(xs) + KeptLines(ys)
  {
    if xs == [] {
      assert xs + ys == ys;
    } else {
      assert (xs + ys)[1..] == xs[1..] + ys;
      KeptLinesAppend(xs[1..], ys);
    }
  }

  /** Filtering keeps a sequence with no comment line as it is. */
  lemma {:induction false} KeptLinesOfCode(ls: seq<string>)
    requires forall l :: l in ls ==> !IsComment(l)
    ensures KeptLines(ls) == ls
  {
    if ls != [] {
      MembersOfTail(ls);
      KeptLinesOfCode(ls[1..]);
    }
  }

  /** The first line feed of `a + b` is that of `a` when `a` has one. */
  lemma NewlineIndexAppend(a: string, b: string)
    requires NewlineIndex(a) < |a|
    ensures NewlineIndex(a + b) == NewlineIndex(a)
  {
    var i, j := NewlineIndex(a), NewlineIndex(a + b);
    assert (a + b)[i] == a[i];
    if j < i {
      assert (a + b)[j] == a[j];
    }
  }

  /** Text that ends at a line boundary splits into lines independently of
      what follows it. */
  lemma {:induction false} LinesAppend(a: string, b: string)
    requires a == [] || a[|a| - 1] == '\n'
    ensures Lines(a + b) == Lines(a) + Lines(b)
    decreases |a|
  {
    if a == [] {
      assert a + b == b;
    } else {
      assert a[|a| - 1] in a;
      SplitAfterFirstLine(a, b);
      LinesAppend(a[NewlineIndex(a) + 1..], b);
      LinesAppendStep(a, b);
    }
  }

  /** The step of `LinesAppend`: the first line of `a` leads both sides. */
  lemma {:induction false} LinesAppendStep(a: string, b: string)
    requires NewlineIndex(a) < |a| && a[|a| - 1] == '\n'
    requires var rest := a[NewlineIndex(a) + 1..]; Lines(rest + b) == Lines(rest) + Lines(b)
    ensures Lines(a + b) == Lines(a) + Lines(b)
  {
    var i := NewlineIndex(a);
    var rest := a[i + 1..];
    var first := [TrimCarriageReturn(a[..i])];
    LinesAfterFirstLine(a, b);
    LinesUnfold(a);
    ConsThenAppend(Lines(a + b), Lines(a), Lines(b), first, Lines(rest + b), Lines(rest));
  }

  /** The first line of `a` is the first line of `a + b`. */
  lemma {:induction false} LinesAfterFirstLine(a: string, b: string)
    requires NewlineIndex(a) < |a| && a[|a| - 1] == '\n'
    ensures Lines(a + b) ==
      [TrimCarriageReturn(a[..NewlineIndex(a)])] + Lines(a[NewlineIndex(a) + 1..] + b)
  {
    SplitAfterFirstLine(a, b);
    LinesUnfold(a + b);
  }

  /** `x` and `y` share the head `h`, and `x`'s tail is `y`'s tail followed by `z`. */
  lemma ConsThenAppend<T>(x: seq<T>, y: seq<T>, z: seq<T>, h: seq<T>, xt: seq<T>, yt: seq<T>)
    requires x == h + xt && y == h + yt && xt == yt + z
    ensures x == y + z
  {
    AppendAssociative(h, yt, z);
  }

  lemma AppendAssociative<T>(x: seq<T>, y: seq<T>, z: seq<T>)
    ensures x + (y + z) == (x + y) + z
  {
  }

  /** Splitting `a + b` at the first line feed of `a`. */
  lemma SplitAfterFirstLine(a: string, b: string)
    requires NewlineIndex(a) < |a| && a[|a| - 1] == '\n'
    ensures NewlineIndex(a + b) == NewlineIndex(a)
    ensures (a + b)[..NewlineIndex(a)] == a[..NewlineIndex(a)]
    ensures (a + b)[NewlineIndex(a) + 1..] == a[NewlineIndex(a) + 1..] + b
    ensures var rest := a[NewlineIndex(a) + 1..]; rest == [] || rest[|rest| - 1] == '\n'
  {
    NewlineIndexAppend(a, b);
  }

  /** One step of `Lines` on text that has a line feed. */
  lemma {:induction false} LinesUnfold(t: string)
    requires NewlineIndex(t) < |t|
    ensures Lines(t) == [TrimCarriageReturn(t[..NewlineIndex(t)])] + Lines(t[NewlineIndex(t) + 1..])
  {
    var i := NewlineIndex(t);
    assert t != [];
    assert i < |t|;
    calc {
      Lines(t);
      if i == |t| then [t] else [TrimCarriageReturn(t[..i])] + Lines(t[i + 1..]);
      [TrimCarriageReturn(t[..i])] + Lines(t[i + 1..]);
    }
  }

  /** A line without a line feed is one line. */
  lemma LinesOfSingleLine(l: string)
    requires '\n' !in l
    ensures Lines(l) == if l == [] then [] else [l]
  {
  }

  /** The first line feed of `l + b`, when `l` has none, is the first of `b`. */
  lemma {:induction false} NewlineIndexAfter(l: string, b: string)
    requires '\n' !in l
    ensures NewlineIndex(l + b) == |l| + NewlineIndex(b)
  {
    if l == [] {
      assert l + b == b;
    } else {
      assert l[0] in l;
      assert (l + b)[1..] == l[1..] + b;
      assert forall c :: c in l[1..] ==> c in l;
      NewlineIndexAfter(l[1..], b);
    }
  }

  /** A line followed by a line feed is one line, without the carriage
      return of a `\r\n` ending. */
  lemma LinesOfTerminatedLine(l: string)
    requires '\n' !in l
    ensures Lines(l + "\n") == [TrimCarriageReturn(l)]
  {
    var t := l + "\n";
    NewlineIndexAfter(l, "\n");
    var i := NewlineIndex(t);
    assert t[..i] == l;
    assert t[i + 1..] == [];
  }

  /** Dropping a final carriage return never changes whether a line is a
      comment. */
  lemma TrimKeepsCommentness(l: string)
    ensures IsComment(TrimCarriageReturn(l)) == IsComment(l)
  {
  }

  /** `Lines` undoes `Unlines` on plain lines. */
  lemma {:induction false} LinesOfUnlines(ls: seq<string>)
    requires forall l :: l in ls ==> PlainLine(l)
    ensures Lines(Unlines(ls)) == ls
  {
    if ls != [] {
      MembersOfTail(ls);
      LinesOfUnlines(ls[1..]);
      LinesOfUnlinesStep(ls);
    }
  }

  lemma LinesOfUnlinesStep(ls: seq<string>)
    requires ls != [] && PlainLine(ls[0])
    requires Lines(Unlines(ls[1..])) == ls[1..]
    ensures Lines(Unlines(ls)) == ls
  {
    var head := ls[0] + "\n";
    assert Unlines(ls) == head + Unlines(ls[1..]);
    LinesAppend(head, Unlines(ls[1..]));
    LinesOfTerminatedLine(ls[0]);
    HeadAndTail(ls);
  }

  // ---------------------------------------------------------------------
  // What the filter keeps

  /** Stripping text made of whole lines is exactly the concatenation, in
      their original order, of the lines that are not comments. */
  lemma StripUnlines(ls: seq<string>)
    requires forall l :: l in ls ==> PlainLine(l)
    ensures StripComments(Unlines(ls)) == Concat(KeptLines(ls))
  {
    LinesOfUnlines(ls);
  }

  /** Text that ends at a line boundary is stripped independently of what
      follows it. */
  lemma StripAppend(a: string, b: string)
    requires a == [] || a[|a| - 1] == '\n'
    ensures StripComments(a + b) == StripComments(a) + StripComments(b)
  {
    LinesAppend(a, b);
    KeptLinesAppend(Lines(a), Lines(b));
    ConcatAppend(KeptLines(Lines(a)), KeptLines(Lines(b)));
  }

  /** A single line is dropped when it starts with `#` and kept whole
      otherwise, `#` characters after its first one included. */
  lemma StripSingleLine(l: string)
    requires '\n' !in l
    ensures StripComments(l) == if IsComment(l) then [] else l
  {
    LinesOfSingleLine(l);
    if l == [] {
      assert KeptLines([]) == [];
    } else if IsComment(l) {
      assert [l][1..] == [];
      assert KeptLines([l]) == KeptLines([]) == [];
    } else {
      assert [l][1..] == [];
      assert KeptLines([l]) == [l] + KeptLines([]) == [l];
      assert Concat([l]) == l + Concat([]) == l;
    }
  }

  /** A line ended by a line feed is dropped when it starts with `#` and is
      kept otherwise, without the line ending. */
  lemma StripTerminatedLine(l: string)
    requires '\n' !in l
    ensures StripComments(l + "\n") == if IsComment(l) then [] else TrimCarriageReturn(l)
  {
    LinesOfTerminatedLine(l);
    TrimKeepsCommentness(l);
    var t := TrimCarriageReturn(l);
    assert [t][1..] == [];
    if IsComment(l) {
      assert KeptLines([t]) == KeptLines([]);
    } else {
      assert KeptLines([t]) == [t];
      assert Concat([t]) == t + Concat([]);
    }
  }

  /** A `#` that is not the first character of its line is kept: in a line
      `l + "#" + m` whose first character is not `#`, stripping keeps it. */
  lemma HashInsideLineKept(l: string, m: string)
    requires '\n' !in l + m && l != [] && l[0] != '#'
    ensures StripComments(l + "#" + m) == l + "#" + m
  {
    var line := l + "#" + m;
    assert '\n' !in line by {
      assert forall c :: c in line ==> c in l + m || c == '#';
    }
    assert line[0] == l[0];
    StripSingleLine(line);
  }

  /** The filter is idempotent. */
  lemma StripIdempotent(text: string)
    ensures StripComments(StripComments(text)) == StripComments(text)
  {
    StripSingleLine(StripComments(text));
  }

  /** Inserting one comment line at the start of a line does not change the
      stripped text. */
  lemma StripIgnoresNote(text: string, n: Note)
    requires Insertable(text, n)
    ensures StripComments(InsertNote(text, n)) == StripComments(text)
  {
    var a, b := text[..n.at], text[n.at..];
    var c := n.comment + "\n";
    assert InsertNote(text, n) == a + (c + b);
    assert text == a + b;
    calc {
      StripComments(a + (c + b));
      { StripAppend(a, c + b); }
      StripComments(a) + StripComments(c + b);
      { StripAppend(c, b); StripTerminatedLine(n.comment); }
      StripComments(a) + StripComments(b);
      { StripAppend(a, b); }
      StripComments(a + b);
    }
  }

  /** Any number of comment lines inserted at line starts leave the stripped
      text as it was. */
  lemma {:induction false} StripAnnotated(text: string, notes: seq<Note>)
    requires ValidNotes(text, notes)
    ensures StripComments(Annotate(text, notes)) == StripComments(text)
    decreases |notes|
  {
    if notes != [] {
      StripIgnoresNote(text, notes[0]);
      StripAnnotated(InsertNote(text, notes[0]), notes[1..]);
    }
  }
}
