/** The statement splitter of `applyMigrationFixed`: the same comment removal
    and line fold as the parity splitter, but function mode is switched on only
    by `CREATE OR REPLACE FUNCTION` and switched off only by a line whose
    trimmed form is exactly `$$;`. There is no `$$` counter and no separate
    test for empty cleaned text. */
module LiteralSplitter {
  import opened Text
  import opened Statements
  import SqlComments

  /** The keyword test that switches function mode on (case-sensitive,
      anywhere in the trimmed line); a bare `CREATE FUNCTION` does not, and
      neither does a line without an upper-case `P`. */
  function OpensFunction(trimmed: string): (b: bool)
    ensures StartsWith(trimmed, "CREATE OR REPLACE FUNCTION") ==> b
    ensures 'C' !in trimmed || 'P' !in trimmed ==> !b
  {
    if Contains(trimmed, "CREATE OR REPLACE FUNCTION") then
      ContainsHasAll(trimmed, "CREATE OR REPLACE FUNCTION", 0);
      ContainsHasAll(trimmed, "CREATE OR REPLACE FUNCTION", 12);
      true
    else false
  }

  /** The keyword is found wherever it sits in the line. */
  lemma KeywordAnywhere(before: string, after: string)
    ensures OpensFunction(before + "CREATE OR REPLACE FUNCTION" + after)
  {
    ContainsInfix(before, "CREATE OR REPLACE FUNCTION", after);
  }

  /** The only line, once trimmed, that ends function mode. */
  const FunctionEnd: string := "$$;"

  /** The fold state: statements emitted so far (as their lines), the lines of
      the statement being accumulated, and the `inFunction` flag. */
  datatype State = State(emitted: seq<seq<string>>, pending: seq<string>, inFunction: bool)

  const Start: State := State([], [], false)

  /** Whether processing `line` in state `st` closes the current statement:
      the trimmed line ends in `;` and either function mode is off (and not
      switched on by this line) or the trimmed line is exactly `$$;`. */
  predicate Closes(st: State, line: string) {
    var inFunction := st.inFunction || OpensFunction(Trim(line));
    EndsStatement(line) && (!inFunction || Trim(line) == FunctionEnd)
  }

  /** `to` follows `from` after `lines`: each line joined exactly one
      statement, in order, and what `from` had emitted stays emitted. */
  predicate Extends(from: State, to: State, lines: seq<string>) {
    Continues(from.emitted, from.pending, to.emitted, to.pending, lines) && from.emitted <= to.emitted
  }

  lemma ExtendsChain(a: State, b: State, c: State, x: seq<string>, y: seq<string>)
    requires Extends(a, b, x) && Extends(b, c, y)
    ensures Extends(a, c, x + y)
  {
    ContinuesChain(a.emitted, a.pending, b.emitted, b.pending, c.emitted, c.pending, x, y);
  }

  /** The emission branch: the pending lines and `line` become one statement
      and function mode is off. */
  function Emit(st: State, line: string): (st': State)
    ensures Extends(st, st', [line])
    ensures st'.emitted == st.emitted + [st.pending + [line]] && st'.pending == [] && !st'.inFunction
  {
    ContinuesByEmit(st.emitted, st.pending, line);
    State(st.emitted + [st.pending + [line]], [], false)
  }

  /** The accumulation branch: `line` joins the pending statement. */
  function Extend(st: State, line: string, inFunction: bool): (st': State)
    ensures Extends(st, st', [line])
    ensures st'.emitted == st.emitted && st'.pending == st.pending + [line] && st'.inFunction == inFunction
  {
    State(st.emitted, st.pending + [line], inFunction)
  }

  /** One iteration of the loop over lines. */
  function Step(st: State, line: string): (st': State)
    // every line joins exactly one statement, in order
    ensures Extends(st, st', [line])
    // a statement is emitted exactly when the line closes it, and emitting turns function mode off
    ensures Closes(st, line) ==> st'.emitted == st.emitted + [st.pending + [line]] && st'.pending == [] && !st'.inFunction
    ensures !Closes(st, line) ==> st'.emitted == st.emitted && st'.pending == st.pending + [line]
    // without an emission, function mode only switches on
    ensures !Closes(st, line) ==> (st'.inFunction <==> st.inFunction || OpensFunction(Trim(line)))
  {
    var trimmed := Trim(line);
    var inFunction := st.inFunction || OpensFunction(trimmed);
    if EndsWith(trimmed, ";") then
      var inFunction' := if inFunction && trimmed == FunctionEnd then false else inFunction;
      if !inFunction' then Emit(st, line)
      else Extend(st, line, inFunction')
    else Extend(st, line, inFunction)
  }

  /** The loop over all lines, from state `st`. */
  function Run(st: State, lines: seq<string>): (r: State)
    ensures Extends(st, r, lines)
    decreases |lines|
  {
    if |lines| == 0 then
      assert Flatten(st.emitted) + st.pending + [] == Flatten(st.emitted) + st.pending;
      st
    else
      var st' := Step(st, lines[0]);
      var r := Run(st', lines[1..]);
      ExtendsChain(st, st', r, [lines[0]], lines[1..]);
      assert [lines[0]] + lines[1..] == lines;
      r
  }

  /** The invariant of the loop: every emitted statement ends at a line whose
      trimmed form ends in `;`; with nothing pending the mode is off. */
  predicate Valid(st: State) {
    Terminated(st.emitted) && (st.pending == [] ==> !st.inFunction)
  }

  lemma StepKeepsValid(st: State, line: string)
    requires Valid(st)
    ensures Valid(Step(st, line))
  {
    var st' := Step(st, line);
    if Closes(st, line) {
      assert EndsStatement(line);
      assert forall i :: 0 <= i < |st.emitted| ==> st'.emitted[i] == st.emitted[i];
    }
  }

  lemma {:induction false} RunKeepsValid(st: State, lines: seq<string>)
    requires Valid(st)
    ensures Valid(Run(st, lines))
    decreases |lines|
  {
    if |lines| > 0 {
      StepKeepsValid(st, lines[0]);
      RunKeepsValid(Step(st, lines[0]), lines[1..]);
    }
  }

  /** From the initial state, the run splits exactly the given lines. */
  lemma RunFromStart(lines: seq<string>)
    ensures Flatten(Run(Start, lines).emitted) + Run(Start, lines).pending == lines
  {
    assert Flatten(Start.emitted) + Start.pending == [];
  }

  /** The statement groups of a list of lines. They cover the lines in order,
      the only lines left over form a blank tail, and every group yields a
      non-empty statement. */
  function Groups(lines: seq<string>): (g: seq<seq<string>>)
    ensures |Flatten(g)| <= |lines| && Flatten(g) == lines[..|Flatten(g)|]
    ensures IsBlank(Render(lines[|Flatten(g)|..]))
    ensures forall i :: 0 <= i < |g| ==> !IsBlank(Render(g[i])) && Statement(g[i]) != []
  {
    var r := Run(Start, lines);
    RunKeepsValid(Start, lines);
    RunFromStart(lines);
    FinishPartitions(lines, r.emitted, r.pending);
    Finish(r.emitted, r.pending)
  }

  /** `applyMigrationFixed`'s splitting of the migration text: the cleaned text
      is cut at `'\n'` and the statements are the trimmed groups. */
  function SplitStatements(sql: string): (stmts: seq<string>)
    ensures forall i :: 0 <= i < |stmts| ==> stmts[i] != "" && IsTrimmed(stmts[i])
  {
    var g := Groups(Split(SqlComments.Clean(sql), '\n'));
    seq(|g|, i requires 0 <= i < |g| => Statement(g[i]))
  }

  /** Without the empty-text test of the parity splitter, empty cleaned text
      still yields no statements: its one line is blank and is dropped as the
      tail. */
  lemma EmptyCleanTextHasNoStatements(sql: string)
    requires SqlComments.Clean(sql) == ""
    ensures SplitStatements(sql) == []
  {
    assert Split("", '\n') == [""];
    var r := Run(Start, [""]);
    assert [""][1..] == [];
    assert r == State([], [""], false);
    assert Render([""]) == "\n" by { assert [""][1..] == []; }
  }

  /** The statements are, in order, the groups of the cleaned text's lines, and
      rendering those lines gives back the cleaned text: nothing but a blank
      tail is lost. */
  lemma StatementsCoverCleanText(sql: string)
    ensures var lines := Split(SqlComments.Clean(sql), '\n');
      var g := Groups(lines);
      && |SplitStatements(sql)| == |g|
      && (forall i :: 0 <= i < |g| ==> SplitStatements(sql)[i] == Statement(g[i]))
      && Render(Flatten(g)) + Render(lines[|Flatten(g)|..]) == SqlComments.Clean(sql) + "\n"
      && IsBlank(Render(lines[|Flatten(g)|..]))
  {
    LinesCover(SqlComments.Clean(sql));
  }

  /** Helper: the grouped lines of a text and its blank tail render the text. */
  lemma LinesCover(text: string)
    ensures var lines := Split(text, '\n');
      var g := Groups(lines);
      && Render(Flatten(g)) + Render(lines[|Flatten(g)|..]) == text + "\n"
      && IsBlank(Render(lines[|Flatten(g)|..]))
  {
    var lines := Split(text, '\n');
    var g := Groups(lines);
    RenderSplit(text);
    RenderPrefix(lines, |Flatten(g)|);
  }

  /** Without `CREATE OR REPLACE FUNCTION` on any line, the splitter is the
      reference cut: a statement ends at exactly every line whose trimmed form
      ends in `;`, `CREATE FUNCTION` lines included. */
  lemma NoKeywordCutsAtEveryTerminator(lines: seq<string>)
    requires forall i :: 0 <= i < |lines| ==> !OpensFunction(Trim(lines[i]))
    ensures CutAtTerminators(lines, Run(Start, lines).emitted, Run(Start, lines).pending)
  {
    assert CutAtTerminators([], [], []) by { assert Flatten([]) == []; }
    NoKeywordRunFrom(Start, [], lines);
    assert [] + lines == lines;
  }

  lemma {:induction false} NoKeywordRunFrom(st: State, done: seq<string>, lines: seq<string>)
    requires !st.inFunction
    requires CutAtTerminators(done, st.emitted, st.pending)
    requires forall i :: 0 <= i < |lines| ==> !OpensFunction(Trim(lines[i]))
    ensures CutAtTerminators(done + lines, Run(st, lines).emitted, Run(st, lines).pending)
    decreases |lines|
  {
    if |lines| > 0 {
      var line := lines[0];
      StepWithoutKeyword(st, done, line);
      NoKeywordRunFrom(Step(st, line), done + [line], lines[1..]);
      AppendCons(done, lines);
    }
  }

  lemma StepWithoutKeyword(st: State, done: seq<string>, line: string)
    requires !st.inFunction && !OpensFunction(Trim(line))
    requires CutAtTerminators(done, st.emitted, st.pending)
    ensures !Step(st, line).inFunction
    ensures CutAtTerminators(done + [line], Step(st, line).emitted, Step(st, line).pending)
  {
    CutExtend(EndsStatement, done, st.emitted, st.pending, line);
  }

  /** Once function mode is on, lines that do not trim to exactly `$$;` all
      join the pending statement, however many of them end in `;`
      (`$$ LANGUAGE plpgsql;` among them). */
  lemma {:induction false} FunctionModeAbsorbs(st: State, lines: seq<string>)
    requires st.inFunction
    requires forall i :: 0 <= i < |lines| ==> Trim(lines[i]) != FunctionEnd
    ensures Run(st, lines) == State(st.emitted, st.pending + lines, true)
    decreases |lines|
  {
    if |lines| > 0 {
      assert !Closes(st, lines[0]);
      assert forall i :: 0 <= i < |lines[1..]| ==> Trim(lines[1..][i]) != FunctionEnd by {
        forall i | 0 <= i < |lines[1..]| ensures Trim(lines[1..][i]) != FunctionEnd {
          assert lines[1..][i] == lines[i + 1];
        }
      }
      FunctionModeAbsorbs(Step(st, lines[0]), lines[1..]);
      RunCons(st, lines);
      AppendCons(st.pending, lines);
    }
  }

  /** Helper: a run over lines is the step over the first line, then the run
      over the rest. */
  lemma RunCons(st: State, lines: seq<string>)
    requires |lines| > 0
    ensures Run(st, lines) == Run(Step(st, lines[0]), lines[1..])
  {
  }

  /** With nothing pending, a line with the keyword starts a statement in
      function mode. */
  lemma KeywordEntersFunction(st: State, line: string)
    requires st.pending == [] && !st.inFunction
    requires OpensFunction(Trim(line))
    ensures Step(st, line) == State(st.emitted, [line], true)
  {
    assert !Closes(st, line);
  }

  /** When a run ends with a non-blank pending tail, that tail is the last group. */
  lemma GroupsWithPendingTail(lines: seq<string>)
    requires !IsBlank(Render(Run(Start, lines).pending))
    ensures Groups(lines) == Run(Start, lines).emitted + [Run(Start, lines).pending]
  {
  }

  /** In function mode, a line that trims to `$$;` closes the statement. */
  lemma FunctionEndCloses(st: State, line: string)
    requires st.inFunction && Trim(line) == FunctionEnd
    ensures Step(st, line) == State(st.emitted + [st.pending + [line]], [], false)
  {
    assert EndsWith(FunctionEnd, ";");
    assert Closes(st, line);
  }
}
