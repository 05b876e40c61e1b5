/**
 * The resume file: the command-line arguments that freeze the tasks already
 * done, one argument per line. During a run it grows by one `-f` entry per
 * task that succeeds; after a failure it is rewritten from the tasks to freeze,
 * joined by newlines without a final one. Arguments are read back from it one
 * per line, as Python's `splitlines` cuts them.
 */
module ResumeFile {
  import opened TaskGraph

  /** The two arguments freezing one task: `-f` and the anchored task name. */
  function FreezeArgs(g: Graph, tasks: seq<TaskId>): (r: seq<string>)
    requires ValidIds(g, tasks)
    ensures |r| == 2 * |tasks|
  {
    if tasks == [] then []
    else
      assert tasks[0] in tasks && forall x :: x in tasks[1..] ==> x in tasks;
      ["-f", "^" + g[tasks[0]].name + "$"] + FreezeArgs(g, tasks[1..])
  }

  /** The file as written during a run: each entry followed by a newline; it reads back as the tasks' `-f` arguments. */
  function IncrementalResume(g: Graph, tasks: seq<TaskId>): (r: string)
    requires ValidIds(g, tasks)
    ensures SingleLineNames(g) ==> SplitLines(r) == FreezeArgs(g, tasks)
  {
    if tasks == [] then ""
    else
      assert tasks[0] in tasks && forall x :: x in tasks[1..] ==> x in tasks;
      var rest := IncrementalResume(g, tasks[1..]);
      AnchoredEntry(g[tasks[0]].name, rest);
      Entry(g, tasks[0]) + rest
  }

  /** The entry written when a task succeeds: the lines `-f` and `^name$`. */
  function Entry(g: Graph, t: TaskId): string
    requires t < |g|
  {
    "-f\n^" + g[t].name + "$\n"
  }

  /** `"\n".join(lines)`. */
  function JoinLines(lines: seq<string>): string
  {
    if lines == [] then ""
    else if |lines| == 1 then lines[0]
    else lines[0] + "\n" + JoinLines(lines[1..])
  }

  /** The file as rewritten after a failure; it reads back as the tasks' `-f` arguments, like the incremental one. */
  function RegeneratedResume(g: Graph, tasks: seq<TaskId>): (r: string)
    requires ValidIds(g, tasks)
    ensures SingleLineNames(g) ==> SplitLines(r) == FreezeArgs(g, tasks)
  {
    RegeneratedReadsBack(g, tasks);
    JoinLines(FreezeArgs(g, tasks))
  }

  /** The file rewritten when a run aborts after `d` succeeded. */
  lemma AbortResumeText(g: Graph, d: TaskId)
    requires d < |g| && g[d].name == "d"
    ensures RegeneratedResume(g, [d]) == "-f\n^d$"
  {
    var nd := "^" + g[d].name + "$";
    assert [d][1..] == [];
    assert FreezeArgs(g, [d]) == ["-f", nd];
    JoinTwo("-f", nd);
    assert RegeneratedResume(g, [d]) == "-f" + "\n" + nd;
    assert nd == "^d$";
  }

  /** The file rewritten when a keep-going run ends after `d` and `b` succeeded. */
  lemma KeepGoingResumeText(g: Graph, d: TaskId, b: TaskId)
    requires d < |g| && b < |g| && g[d].name == "d" && g[b].name == "b"
    ensures RegeneratedResume(g, [d, b]) == "-f\n^d$\n-f\n^b$"
  {
    var nd, nb := "^" + g[d].name + "$", "^" + g[b].name + "$";
    assert [d, b][1..] == [b] && [b][1..] == [];
    assert FreezeArgs(g, [d, b]) == ["-f", nd] + ["-f", nb] == ["-f", nd, "-f", nb];
    JoinFour("-f", nd, "-f", nb);
    assert RegeneratedResume(g, [d, b]) == "-f" + "\n" + nd + "\n" + "-f" + "\n" + nb;
    assert nd == "^d$" && nb == "^b$";
  }

  lemma JoinTwo(a: string, b: string)
    ensures JoinLines([a, b]) == a + "\n" + b
  {
    assert [a, b][1..] == [b];
  }

  lemma JoinFour(a: string, b: string, c: string, d: string)
    ensures JoinLines([a, b, c, d]) == a + "\n" + b + "\n" + c + "\n" + d
  {
    assert [a, b, c, d][1..] == [b, c, d] && [b, c, d][1..] == [c, d];
    JoinTwo(c, d);
  }

  /** With single-line task names, the joined `-f` arguments read back as themselves. */
  lemma RegeneratedReadsBack(g: Graph, tasks: seq<TaskId>)
    requires ValidIds(g, tasks)
    ensures SingleLineNames(g) ==> SplitLines(JoinLines(FreezeArgs(g, tasks))) == FreezeArgs(g, tasks)
  {
    if SingleLineNames(g) {
      FreezeArgsLines(g, tasks);
      JoinLinesReadsBack(FreezeArgs(g, tasks));
    }
  }

  /** The position of the first newline, or the length when there is none. */
  function NewlineAt(s: string): (i: nat)
    ensures i <= |s| && '\n' !in s[..i] && (i < |s| ==> s[i] == '\n')
  {
    if s == "" then 0
    else if s[0] == '\n' then 0
    else
      var j := NewlineAt(s[1..]);
      assert s[..j + 1] == [s[0]] + s[1..][..j];
      1 + j
  }

  /** Python's `text.splitlines()` for text whose only line break is `\n`. */
  function SplitLines(text: string): seq<string>
    decreases |text|
  {
    if text == "" then []
    else
      var i := NewlineAt(text);
      if i == |text| then [text] else [text[..i]] + SplitLines(text[i + 1..])
  }

  /** No task name holds a line break. */
  predicate SingleLineNames(g: Graph)
  {
    forall t :: 0 <= t < |g| ==> '\n' !in g[t].name
  }

  /** Each line of a joined text is read back as itself. */
  lemma SplitLine(line: string, rest: string)
    requires '\n' !in line
    ensures SplitLines(line + "\n" + rest) == [line] + SplitLines(rest)
  {
    var text := line + "\n" + rest;
    assert text[|line|] == '\n';
    assert NewlineAt(text) == |line|;
    assert text[..|line|] == line;
    assert text[|line| + 1..] == rest;
  }

  /** A single non-empty line without a line break is read back as itself. */
  lemma SplitLastLine(line: string)
    requires line != "" && '\n' !in line
    ensures SplitLines(line) == [line]
  {
  }

  lemma AnchoredName(g: Graph, t: TaskId)
    requires SingleLineNames(g) && t < |g|
    ensures '\n' !in "^" + g[t].name + "$"
  {
  }

  /** The text of one entry for a name without line breaks reads back as its two arguments. */
  lemma AnchoredEntry(name: string, rest: string)
    ensures '\n' !in name ==> SplitLines("-f\n^" + name + "$\n" + rest) == ["-f", "^" + name + "$"] + SplitLines(rest)
  {
    if '\n' !in name {
      EntryText(name, rest);
      SplitTwoLines("-f", "^" + name + "$", rest);
    }
  }

  /** The text of an entry is its two arguments, each followed by a newline. */
  lemma EntryText(name: string, rest: string)
    ensures "-f\n^" + name + "$\n" + rest == "-f" + "\n" + ("^" + name + "$") + "\n" + rest
  {
  }

  /** Two lines without line breaks are read back as themselves, whatever follows them. */
  lemma SplitTwoLines(first: string, second: string, rest: string)
    requires '\n' !in first && '\n' !in second
    ensures SplitLines(first + "\n" + second + "\n" + rest) == [first, second] + SplitLines(rest)
  {
    var tail := second + "\n" + rest;
    assert first + "\n" + second + "\n" + rest == first + "\n" + tail;
    SplitLine(first, tail);
    SplitLine(second, rest);
  }

  /** One entry reads back as its two arguments, whatever follows it. */
  lemma EntryReadsBack(g: Graph, t: TaskId, rest: string)
    requires SingleLineNames(g) && t < |g|
    ensures SplitLines(Entry(g, t) + rest) == ["-f", "^" + g[t].name + "$"] + SplitLines(rest)
  {
    AnchoredEntry(g[t].name, rest);
  }

  /** Lines without line breaks, none empty, are read back from their join. */
  lemma {:induction false} JoinLinesReadsBack(lines: seq<string>)
    requires forall k :: 0 <= k < |lines| ==> lines[k] != "" && '\n' !in lines[k]
    ensures SplitLines(JoinLines(lines)) == lines
  {
    if |lines| == 1 {
      SplitLastLine(lines[0]);
    } else if |lines| > 1 {
      SplitLine(lines[0], JoinLines(lines[1..]));
      JoinLinesReadsBack(lines[1..]);
    }
  }

  lemma {:induction false} FreezeArgsLines(g: Graph, tasks: seq<TaskId>)
    requires ValidIds(g, tasks) && SingleLineNames(g)
    ensures forall k :: 0 <= k < |FreezeArgs(g, tasks)| ==> FreezeArgs(g, tasks)[k] != "" && '\n' !in FreezeArgs(g, tasks)[k]
  {
    if tasks != [] {
      assert tasks[0] in tasks && forall x :: x in tasks[1..] ==> x in tasks;
      AnchoredName(g, tasks[0]);
      FreezeArgsLines(g, tasks[1..]);
    }
  }

  /** The incremental file grows by one entry per succeeded task. */
  lemma {:induction false} IncrementalResumeAppend(g: Graph, tasks: seq<TaskId>, t: TaskId)
    requires ValidIds(g, tasks) && t < |g|
    ensures IncrementalResume(g, tasks + [t]) == IncrementalResume(g, tasks) + Entry(g, t)
  {
    if tasks == [] {
      assert IncrementalResume(g, [t]) == Entry(g, t) + IncrementalResume(g, []);
    } else {
      var longer := tasks + [t];
      assert longer[0] == tasks[0] && longer[1..] == tasks[1..] + [t];
      assert tasks[0] in tasks && forall x :: x in tasks[1..] ==> x in tasks;
      assert forall x :: x in longer ==> x in tasks || x == t;
      IncrementalResumeAppend(g, tasks[1..], t);
      var head, tail := Entry(g, tasks[0]), IncrementalResume(g, tasks[1..]);
      assert IncrementalResume(g, longer) == head + (tail + Entry(g, t));
      AppendAssociates(head, tail, Entry(g, t));
    }
  }

  lemma AppendAssociates(a: string, b: string, c: string)
    ensures a + (b + c) == a + b + c
  {
  }
}
