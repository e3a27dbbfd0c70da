/** What the line-oriented splitters share: a statement is built by appending
    each of its lines followed by a newline, and is emitted trimmed. The model
    keeps the lines of each statement so that the partition of the input
    lines can be stated; the scripts' accumulator string is `Render` of them. */
module Statements {
  import opened Text

  /** The accumulator text `currentStatement` after `line + '\n'` has been
      appended for each line in turn. */
  function Render(lines: seq<string>): string {
    if |lines| == 0 then "" else lines[0] + "\n" + Render(lines[1..])
  }

  /** The emitted statement for a group of lines: `currentStatement.trim()`. */
  function Statement(group: seq<string>): (r: string)
    ensures IsTrimmed(r)
    ensures r == [] <==> IsBlank(Render(group))
  {
    TrimShape(Render(group));
    Trim(Render(group))
  }

  /** The terminator test of all splitters: the trimmed line ends with `;`. */
  predicate EndsStatement(line: string) {
    EndsWith(Trim(line), ";")
  }

  /** The lines of consecutive groups, in order. */
  function Flatten(groups: seq<seq<string>>): seq<string> {
    if |groups| == 0 then [] else groups[0] + Flatten(groups[1..])
  }

  /** Appending the first line and then the rest appends them all. */
  lemma AppendCons(prefix: seq<string>, lines: seq<string>)
    requires |lines| > 0
    ensures prefix + [lines[0]] + lines[1..] == prefix + lines
  {
    assert [lines[0]] + lines[1..] == lines;
  }

  /** Concatenation of lines is associative. */
  lemma AppendAssoc(a: seq<string>, b: seq<string>, c: seq<string>)
    ensures a + b + c == a + (b + c)
  {
  }

  /** Rendering a prefix and the rest of the lines renders all of them. */
  lemma RenderPrefix(lines: seq<string>, k: nat)
    requires k <= |lines|
    ensures Render(lines[..k]) + Render(lines[k..]) == Render(lines)
  {
    RenderAppend(lines[..k], lines[k..]);
    assert lines[..k] + lines[k..] == lines;
  }

  lemma {:induction false} RenderAppend(a: seq<string>, b: seq<string>)
    ensures Render(a + b) == Render(a) + Render(b)
    decreases |a|
  {
    if |a| > 0 {
      assert (a + b)[1..] == a[1..] + b;
      RenderAppend(a[1..], b);
      assert Render(a + b) == a[0] + "\n" + (Render(a[1..]) + Render(b));
    } else {
      assert a + b == b;
    }
  }

  lemma {:induction false} FlattenAppend(a: seq<seq<string>>, b: seq<seq<string>>)
    ensures Flatten(a + b) == Flatten(a) + Flatten(b)
    decreases |a|
  {
    if |a| > 0 {
      assert (a + b)[1..] == a[1..] + b;
      FlattenAppend(a[1..], b);
      assert Flatten(a + b) == a[0] + (Flatten(a[1..]) + Flatten(b));
    } else {
      assert a + b == b;
    }
  }

  /** Helper: a single group flattens to itself. */
  lemma FlattenOne(g: seq<string>)
    ensures Flatten([g]) == g
  {
    assert [g][1..] == [];
  }

  /** A line that ends a statement is not blank. */
  lemma TerminatorNotBlank(line: string)
    requires EndsStatement(line)
    ensures !IsBlank(line)
  {
    TrimShape(line);
  }

  /** A group with a non-blank line renders to non-blank text, so its statement
      is non-empty. */
  lemma {:induction false} NonBlankLineMakesStatement(group: seq<string>, i: nat)
    requires i < |group| && !IsBlank(group[i])
    ensures !IsBlank(Render(group))
    ensures Statement(group) != []
    decreases i
  {
    if i == 0 {
      var j :| 0 <= j < |group[0]| && !IsSpace(group[0][j]);
      assert Render(group)[j] == group[0][j];
    } else {
      NonBlankLineMakesStatement(group[1..], i - 1);
      var r := Render(group[1..]);
      var j :| 0 <= j < |r| && !IsSpace(r[j]);
      assert Render(group)[|group[0]| + 1 + j] == r[j];
    }
  }

  /** Rendering the lines of a split restores the text plus one final newline:
      no code point is gained or lost by the line-by-line treatment. */
  lemma {:induction false} RenderSplit(s: string)
    ensures Render(Split(s, '\n')) == s + "\n"
  {
    var pieces := Split(s, '\n');
    JoinSplit(s, '\n');
    RenderIsJoin(pieces);
  }

  lemma {:induction false} RenderIsJoin(pieces: seq<string>)
    requires |pieces| >= 1
    ensures Render(pieces) == Join(pieces, '\n') + "\n"
    decreases |pieces|
  {
    if |pieces| > 1 {
      RenderIsJoin(pieces[1..]);
    } else {
      assert pieces[1..] == [];
    }
  }

  /** A fold moved from `(e0, p0)` to `(e1, p1)` by processing `lines`: every
      line joined exactly one group, in order. */
  predicate Continues(e0: seq<seq<string>>, p0: seq<string>, e1: seq<seq<string>>, p1: seq<string>, lines: seq<string>) {
    Flatten(e1) + p1 == Flatten(e0) + p0 + lines
  }

  lemma ContinuesChain(e0: seq<seq<string>>, p0: seq<string>, e1: seq<seq<string>>, p1: seq<string>,
                       e2: seq<seq<string>>, p2: seq<string>, x: seq<string>, y: seq<string>)
    requires Continues(e0, p0, e1, p1, x) && Continues(e1, p1, e2, p2, y)
    ensures Continues(e0, p0, e2, p2, x + y)
  {
    assert Flatten(e0) + p0 + x + y == Flatten(e0) + p0 + (x + y);
  }

  /** Closing the pending group with `line`. */
  lemma ContinuesByEmit(emitted: seq<seq<string>>, pending: seq<string>, line: string)
    ensures Continues(emitted, pending, emitted + [pending + [line]], [], [line])
  {
    FlattenAppend(emitted, [pending + [line]]);
    FlattenOne(pending + [line]);
  }

  /** Every emitted group has a last line, and it ends a statement. */
  predicate Terminated(emitted: seq<seq<string>>) {
    forall i :: 0 <= i < |emitted| ==> |emitted[i]| > 0 && EndsStatement(emitted[i][|emitted[i]| - 1])
  }

  /** The groups a finished fold yields: everything emitted, then the pending
      tail if it is not blank (`if (currentStatement.trim())`). */
  function Finish(emitted: seq<seq<string>>, pending: seq<string>): seq<seq<string>> {
    emitted + (if IsBlank(Render(pending)) then [] else [pending])
  }

  /** When a fold has split `lines` into terminated groups and a pending
      tail, the finished groups cover the lines in order, the only lines left
      over form a blank tail, and every group yields a non-empty statement. */
  lemma FinishPartitions(lines: seq<string>, emitted: seq<seq<string>>, pending: seq<string>)
    requires Flatten(emitted) + pending == lines && Terminated(emitted)
    ensures var g := Finish(emitted, pending);
      && |Flatten(g)| <= |lines| && Flatten(g) == lines[..|Flatten(g)|]
      && IsBlank(Render(lines[|Flatten(g)|..]))
      && forall i :: 0 <= i < |g| ==> !IsBlank(Render(g[i])) && Statement(g[i]) != []
  {
    var g := Finish(emitted, pending);
    FlattenAppend(emitted, if IsBlank(Render(pending)) then [] else [pending]);
    if IsBlank(Render(pending)) {
      assert Flatten(g) == Flatten(emitted) by { assert Flatten([]) == []; assert g == emitted; }
      assert lines[|Flatten(g)|..] == pending;
    } else {
      FlattenOne(pending);
      assert Flatten(g) == lines;
      assert lines[|Flatten(g)|..] == [];
    }
    forall i | 0 <= i < |g| ensures !IsBlank(Render(g[i])) && Statement(g[i]) != [] {
      if i < |emitted| {
        var e := emitted[i];
        TerminatorNotBlank(e[|e| - 1]);
        NonBlankLineMakesStatement(e, |e| - 1);
      }
    }
  }

  /** A cut of `lines` at the lines `isEnd` accepts: `emitted` and `pending`
      partition `lines`, each emitted group ends at an accepted line, and no
      other line (inside a group or pending) is accepted. */
  predicate CutBy(isEnd: string -> bool, lines: seq<string>, emitted: seq<seq<string>>, pending: seq<string>) {
    && Flatten(emitted) + pending == lines
    && (forall i :: 0 <= i < |emitted| ==> |emitted[i]| > 0 && isEnd(emitted[i][|emitted[i]| - 1]))
    && (forall i, j :: 0 <= i < |emitted| && 0 <= j < |emitted[i]| - 1 ==> !isEnd(emitted[i][j]))
    && (forall j :: 0 <= j < |pending| ==> !isEnd(pending[j]))
  }

  /** The reference cut: a statement ends at every line whose trimmed form
      ends in `;`, and nowhere else. */
  predicate CutAtTerminators(lines: seq<string>, emitted: seq<seq<string>>, pending: seq<string>) {
    CutBy(EndsStatement, lines, emitted, pending)
  }

  /** There is only one cut of a list of lines at a given kind of line. */
  lemma {:induction false} CutIsUnique(isEnd: string -> bool, lines: seq<string>, e1: seq<seq<string>>, p1: seq<string>, e2: seq<seq<string>>, p2: seq<string>)
    requires CutBy(isEnd, lines, e1, p1) && CutBy(isEnd, lines, e2, p2)
    ensures e1 == e2 && p1 == p2
    decreases |lines|
  {
    FirstGroupEndsFirst(isEnd, lines, e1, p1);
    FirstGroupEndsFirst(isEnd, lines, e2, p2);
    if |e1| == 0 || |e2| == 0 {
      assert p1 == lines && p2 == lines;
    } else {
      var g1, g2 := e1[0], e2[0];
      assert |g1| == |g2|;
      assert g1 == lines[..|g1|] == g2;
      var rest := lines[|g1|..];
      assert rest == Flatten(e1[1..]) + p1;
      assert rest == Flatten(e2[1..]) + p2;
      CutIsUnique(isEnd, rest, e1[1..], p1, e2[1..], p2);
      assert e1 == [g1] + e1[1..];
      assert e2 == [g2] + e2[1..];
    }
  }

  /** The first group of a cut ends at the first accepted line; with no group,
      no line is accepted. */
  lemma FirstGroupEndsFirst(isEnd: string -> bool, lines: seq<string>, e: seq<seq<string>>, p: seq<string>)
    requires CutBy(isEnd, lines, e, p)
    ensures |e| == 0 ==> forall j :: 0 <= j < |lines| ==> !isEnd(lines[j])
    ensures |e| > 0 ==> 0 < |e[0]| <= |lines| && lines[..|e[0]|] == e[0] && isEnd(lines[|e[0]| - 1])
    ensures |e| > 0 ==> forall j :: 0 <= j < |e[0]| - 1 ==> !isEnd(lines[j])
  {
    if |e| == 0 {
      assert Flatten(e) == [];
      assert p == lines;
    } else {
      assert lines == e[0] + (Flatten(e[1..]) + p);
      assert forall j :: 0 <= j < |e[0]| ==> lines[j] == e[0][j];
    }
  }

  /** Adding one line to a cut: an accepted line closes the pending group,
      any other line joins it. */
  lemma CutExtend(isEnd: string -> bool, done: seq<string>, emitted: seq<seq<string>>, pending: seq<string>, line: string)
    requires CutBy(isEnd, done, emitted, pending)
    ensures isEnd(line) ==> CutBy(isEnd, done + [line], emitted + [pending + [line]], [])
    ensures !isEnd(line) ==> CutBy(isEnd, done + [line], emitted, pending + [line])
  {
    var g := pending + [line];
    if isEnd(line) {
      FlattenAppend(emitted, [g]);
      FlattenOne(g);
      var e' := emitted + [g];
      assert forall j :: 0 <= j < |g| - 1 ==> g[j] == pending[j];
      forall i, j | 0 <= i < |e'| && 0 <= j < |e'[i]| - 1 ensures !isEnd(e'[i][j]) {
        if i < |emitted| { assert e'[i] == emitted[i]; }
      }
    }
  }
}
