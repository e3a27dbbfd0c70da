/** The statement splitter of `applyAllMigrations`: comments are removed, the
    text is cut into lines, and the lines are folded into statements. A
    statement ends at a line whose trimmed form ends in `;`, except inside a
    function definition, where it ends only once the number of `$$` seen since
    the previous statement is even. This approximates the dollar-quoted string
    constants of section 4.1.2.4 of the PostgreSQL manual for untagged `$$`
    only, with case-sensitive keywords and no notion of string literals. */
module ParitySplitter {
  import opened Text
  import opened Statements
  import SqlComments

  /** `(line.match(/\$\$/g) || []).length`: non-overlapping occurrences of `$$`,
      matched left to right. */
  function DollarQuotes(line: string): (n: nat)
    ensures 2 * n <= |line|
    ensures '$' !in line ==> n == 0
    decreases |line|
  {
    if |line| < 2 then 0
    else if line[0] == '$' && line[1] == '$' then 1 + DollarQuotes(line[2..])
    else DollarQuotes(line[1..])
  }

  /** Text before the first `$` does not affect the count. */
  lemma {:induction false} DollarQuotesSkipPlainPrefix(a: string, b: string)
    requires '$' !in a
    ensures DollarQuotes(a + b) == DollarQuotes(b)
    decreases |a|
  {
    if |a| > 0 {
      assert (a + b)[1..] == a[1..] + b;
      assert (a + b)[0] == a[0];
      DollarQuotesSkipPlainPrefix(a[1..], b);
    } else {
      assert a + b == b;
    }
  }

  /** A `$$` after text without `$` counts once, and counting goes on after
      it: every delimiter counts one. */
  lemma DollarQuotesDelimiter(a: string, b: string)
    requires '$' !in a
    ensures DollarQuotes(a + "$$" + b) == 1 + DollarQuotes(b)
  {
    assert a + "$$" + b == a + ("$$" + b);
    DollarQuotesSkipPlainPrefix(a, "$$" + b);
    assert ("$$" + b)[2..] == b;
  }

  /** The keyword test that switches function mode on; it is case-sensitive
      and looks anywhere in the trimmed line. */
  function StartsFunction(trimmed: string): (b: bool)
    ensures StartsWith(trimmed, "CREATE FUNCTION") || StartsWith(trimmed, "CREATE OR REPLACE FUNCTION") ==> b
    ensures 'C' !in trimmed ==> !b
  {
    if Contains(trimmed, "CREATE OR REPLACE FUNCTION") then
      ContainsHasAll(trimmed, "CREATE OR REPLACE FUNCTION", 0);
      true
    else if Contains(trimmed, "CREATE FUNCTION") then
      ContainsHasAll(trimmed, "CREATE FUNCTION", 0);
      true
    else false
  }

  /** Either keyword is found wherever it sits in the line. */
  lemma KeywordAnywhere(before: string, after: string)
    ensures StartsFunction(before + "CREATE FUNCTION" + after)
    ensures StartsFunction(before + "CREATE OR REPLACE FUNCTION" + after)
  {
    ContainsInfix(before, "CREATE FUNCTION", after);
    ContainsInfix(before, "CREATE OR REPLACE FUNCTION", after);
  }

  /** The fold state: statements emitted so far (as their lines), the lines of
      the statement being accumulated, the `inFunction` flag and the `$$`
      counter. */
  datatype State = State(emitted: seq<seq<string>>, pending: seq<string>, inFunction: bool, dollars: nat)

  const Start: State := State([], [], false, 0)

  /** Whether processing `line` in state `st` closes the current statement:
      the trimmed line ends in `;` and, when function mode is on (or is switched
      on by this very line), the `$$` count including this line is even. */
  predicate Closes(st: State, line: string) {
    var inFunction := st.inFunction || StartsFunction(Trim(line));
    EndsStatement(line) && (!inFunction || (st.dollars + DollarQuotes(line)) % 2 == 0)
  }

  /** `to` follows `from` after `lines`: each line joined exactly one
      statement, in order, and what `from` had emitted stays emitted. */
  predicate Extends(from: State, to: State, lines: seq<string>) {
    Continues(from.emitted, from.pending, to.emitted, to.pending, lines) && from.emitted <= to.emitted
  }

  lemma ExtendsChain(a: State, b: State, c: State, x: seq<string>, y: seq<string>)
    requires Extends(a, b, x) && Extends(b, c, y)
    ensures Extends(a, c, x + y)
  {
    ContinuesChain(a.emitted, a.pending, b.emitted, b.pending, c.emitted, c.pending, x, y);
  }

  /** The emission branch: the pending lines and `line` become one statement,
      the accumulator and the counter are reset and function mode is off. */
  function Emit(st: State, line: string): (st': State)
    ensures Extends(st, st', [line])
    ensures st'.emitted == st.emitted + [st.pending + [line]] && st'.pending == []
    ensures !st'.inFunction && st'.dollars == 0
  {
    ContinuesByEmit(st.emitted, st.pending, line);
    State(st.emitted + [st.pending + [line]], [], false, 0)
  }

  /** The accumulation branch: `line` joins the pending statement. */
  function Extend(st: State, line: string, inFunction: bool, dollars: nat): (st': State)
    ensures Extends(st, st', [line])
    ensures st'.emitted == st.emitted && st'.pending == st.pending + [line]
    ensures st'.inFunction == inFunction && st'.dollars == dollars
  {
    State(st.emitted, st.pending + [line], inFunction, dollars)
  }

  /** One iteration of the loop over lines. */
  function Step(st: State, line: string): (st': State)
    // every line joins exactly one statement, in order
    ensures Extends(st, st', [line])
    // a statement is emitted exactly when the line closes it; emitting resets the counter and the mode
    ensures Closes(st, line) ==> st'.emitted == st.emitted + [st.pending + [line]] && st'.pending == [] && st'.dollars == 0 && !st'.inFunction
    ensures !Closes(st, line) ==> st'.emitted == st.emitted && st'.pending == st.pending + [line]
    // without an emission, the counter grows by the line's `$$` count and function mode only switches on
    ensures !Closes(st, line) ==> st'.dollars == st.dollars + DollarQuotes(line)
    ensures !Closes(st, line) ==> (st'.inFunction <==> st.inFunction || StartsFunction(Trim(line)))
  {
    // On a `;` line in function mode with an even count the script first
    // leaves function mode and then emits; Emit resets the mode anyway.
    if Closes(st, line) then Emit(st, line)
    else Extend(st, line, st.inFunction || StartsFunction(Trim(line)), st.dollars + DollarQuotes(line))
  }

  /** The loop over all lines, from state `st`. */
  function Run(st: State, lines: seq<string>): (r: State)
    ensures Extends(st, r, lines)
    decreases |lines|
  {
    if |lines| == 0 then
      assert Flatten(st.emitted) + st.pending + [] == Flatten(st.emitted) + st.pending;
      st
    else
      var st' := Step(st, lines[0]);
      var r := Run(st', lines[1..]);
      ExtendsChain(st, st', r, [lines[0]], lines[1..]);
      assert [lines[0]] + lines[1..] == lines;
      r
  }

  /** The invariant of the loop: every emitted statement has at least one line
      and its last line ends in `;`; with nothing pending the mode is off and
      the counter is 0. */
  predicate Valid(st: State) {
    && Terminated(st.emitted)
    && (st.pending == [] ==> !st.inFunction && st.dollars == 0)
  }

  lemma {:induction false} RunKeepsValid(st: State, lines: seq<string>)
    requires Valid(st)
    ensures Valid(Run(st, lines))
    decreases |lines|
  {
    if |lines| > 0 {
      StepKeepsValid(st, lines[0]);
      RunKeepsValid(Step(st, lines[0]), lines[1..]);
    }
  }

  lemma StepKeepsValid(st: State, line: string)
    requires Valid(st)
    ensures Valid(Step(st, line))
  {
    var st' := Step(st, line);
    if Closes(st, line) {
      assert EndsStatement(line);
      assert forall i :: 0 <= i < |st.emitted| ==> st'.emitted[i] == st.emitted[i];
    }
  }

  /** The statement groups of a list of lines. They cover the lines in order,
      the only lines left over form a blank tail, and every group yields a
      non-empty statement. */
  function Groups(lines: seq<string>): (g: seq<seq<string>>)
    ensures |Flatten(g)| <= |lines| && Flatten(g) == lines[..|Flatten(g)|]
    ensures IsBlank(Render(lines[|Flatten(g)|..]))
    ensures forall i :: 0 <= i < |g| ==> !IsBlank(Render(g[i])) && Statement(g[i]) != []
  {
    var r := Run(Start, lines);
    RunKeepsValid(Start, lines);
    RunFromStart(lines);
    FinishPartitions(lines, r.emitted, r.pending);
    Finish(r.emitted, r.pending)
  }

  /** From the initial state, the run splits exactly the given lines. */
  lemma RunFromStart(lines: seq<string>)
    ensures Flatten(Run(Start, lines).emitted) + Run(Start, lines).pending == lines
  {
    assert Flatten(Start.emitted) + Start.pending == [];
  }

  /** `applyAllMigrations`' splitting of one migration file: empty cleaned text
      gives no statements; otherwise the cleaned text is cut at `'\n'` and the
      statements are the trimmed groups. */
  function SplitStatements(sql: string): (stmts: seq<string>)
    ensures SqlComments.Clean(sql) == "" ==> stmts == []
    ensures forall i :: 0 <= i < |stmts| ==> stmts[i] != "" && IsTrimmed(stmts[i])
  {
    var clean := SqlComments.Clean(sql);
    if clean == "" then []
    else
      var g := Groups(Split(clean, '\n'));
      seq(|g|, i requires 0 <= i < |g| => Statement(g[i]))
  }

  /** The statements are, in order, the groups of the cleaned text's lines, and
      rendering those lines gives back the cleaned text: nothing but a blank
      tail is lost. */
  lemma StatementsCoverCleanText(sql: string)
    requires SqlComments.Clean(sql) != ""
    ensures var lines := Split(SqlComments.Clean(sql), '\n');
      var g := Groups(lines);
      && |SplitStatements(sql)| == |g|
      && (forall i :: 0 <= i < |g| ==> SplitStatements(sql)[i] == Statement(g[i]))
      && Render(Flatten(g)) + Render(lines[|Flatten(g)|..]) == SqlComments.Clean(sql) + "\n"
      && IsBlank(Render(lines[|Flatten(g)|..]))
  {
    LinesCover(SqlComments.Clean(sql));
  }

  /** Helper: the grouped lines of a text and its blank tail render the text. */
  lemma LinesCover(text: string)
    ensures var lines := Split(text, '\n');
      var g := Groups(lines);
      && Render(Flatten(g)) + Render(lines[|Flatten(g)|..]) == text + "\n"
      && IsBlank(Render(lines[|Flatten(g)|..]))
  {
    var lines := Split(text, '\n');
    var g := Groups(lines);
    RenderSplit(text);
    RenderPrefix(lines, |Flatten(g)|);
  }

  /** With no function keyword on any line, the splitter is the reference cut:
      a statement ends at exactly every line whose trimmed form ends in `;`. */
  lemma NoFunctionCutsAtEveryTerminator(lines: seq<string>)
    requires forall i :: 0 <= i < |lines| ==> !StartsFunction(Trim(lines[i]))
    ensures CutAtTerminators(lines, Run(Start, lines).emitted, Run(Start, lines).pending)
  {
    assert CutAtTerminators([], [], []) by { assert Flatten([]) == []; }
    NoFunctionRunFrom(Start, [], lines);
    assert [] + lines == lines;
  }

  lemma {:induction false} NoFunctionRunFrom(st: State, done: seq<string>, lines: seq<string>)
    requires !st.inFunction
    requires CutAtTerminators(done, st.emitted, st.pending)
    requires forall i :: 0 <= i < |lines| ==> !StartsFunction(Trim(lines[i]))
    ensures CutAtTerminators(done + lines, Run(st, lines).emitted, Run(st, lines).pending)
    decreases |lines|
  {
    if |lines| > 0 {
      var line := lines[0];
      StepWithoutFunction(st, done, line);
      TailWithoutFunction(lines);
      NoFunctionRunFrom(Step(st, line), done + [line], lines[1..]);
      RunCons(st, lines);
      AppendCons(done, lines);
    }
  }

  /** Helper: the tail of lines without a function keyword has none either. */
  lemma TailWithoutFunction(lines: seq<string>)
    requires |lines| > 0
    requires forall i :: 0 <= i < |lines| ==> !StartsFunction(Trim(lines[i]))
    ensures forall i :: 0 <= i < |lines[1..]| ==> !StartsFunction(Trim(lines[1..][i]))
  {
    forall i | 0 <= i < |lines[1..]| ensures !StartsFunction(Trim(lines[1..][i])) {
      assert lines[1..][i] == lines[i + 1];
    }
  }

  lemma StepWithoutFunction(st: State, done: seq<string>, line: string)
    requires !st.inFunction && !StartsFunction(Trim(line))
    requires CutAtTerminators(done, st.emitted, st.pending)
    ensures !Step(st, line).inFunction
    ensures CutAtTerminators(done + [line], Step(st, line).emitted, Step(st, line).pending)
  {
    CutExtend(EndsStatement, done, st.emitted, st.pending, line);
  }

  /** From a state with nothing pending, a function definition whose header
      opens `$$`, whose body lines carry no `$$`, and whose last line closes
      `$$` and ends in `;` becomes exactly one statement, however many body
      lines end in `;`. */
  lemma FunctionDefinitionIsOneStatement(st: State, header: string, body: seq<string>, closer: string)
    requires st.pending == [] && !st.inFunction && st.dollars == 0
    requires StartsFunction(Trim(header)) && DollarQuotes(header) == 1
    requires forall i :: 0 <= i < |body| ==> DollarQuotes(body[i]) == 0
    requires DollarQuotes(closer) == 1 && EndsStatement(closer)
    ensures Run(st, [header] + body + [closer]) == State(st.emitted + [[header] + body + [closer]], [], false, 0)
  {
    var rest := body + [closer];
    AppendAssoc([header], body, [closer]);
    RunAppend(st, [header], rest);
    RunOne(st, header);
    HeaderOpensFunction(st, header);
    var s1 := State(st.emitted, [header], true, 1);
    assert Run(st, [header] + rest) == Run(s1, rest);
    RunAppend(s1, body, [closer]);
    InsideFunctionBody(s1, body);
    var s2 := State(st.emitted, [header] + body, true, 1);
    assert Run(s1, rest) == Run(s2, [closer]);
    RunOne(s2, closer);
    CloserEndsFunction(s2, closer);
  }

  lemma HeaderOpensFunction(st: State, header: string)
    requires st.pending == [] && !st.inFunction && st.dollars == 0
    requires StartsFunction(Trim(header)) && DollarQuotes(header) == 1
    ensures Step(st, header) == State(st.emitted, [header], true, 1)
  {
    assert !Closes(st, header);
  }

  lemma CloserEndsFunction(st: State, closer: string)
    requires st.inFunction && st.dollars % 2 == 1
    requires DollarQuotes(closer) == 1 && EndsStatement(closer)
    ensures Step(st, closer) == State(st.emitted + [st.pending + [closer]], [], false, 0)
  {
    assert Closes(st, closer);
  }

  /** Outside a function definition, with nothing pending, a line that ends
      in `;` and has no function keyword is a statement of its own. */
  lemma PlainStatementLine(st: State, line: string)
    requires st.pending == [] && !st.inFunction && st.dollars == 0
    requires EndsStatement(line) && !StartsFunction(Trim(line)) && DollarQuotes(line) % 2 == 0
    ensures Step(st, line) == State(st.emitted + [[line]], [], false, 0)
  {
    assert Closes(st, line);
    assert st.pending + [line] == [line];
  }

  /** When a run ends with nothing pending, its groups are what it emitted. */
  lemma GroupsWhenNothingPending(lines: seq<string>)
    requires Run(Start, lines).pending == []
    ensures Groups(lines) == Run(Start, lines).emitted
  {
    assert Render([]) == "";
  }

  lemma RunOne(st: State, line: string)
    ensures Run(st, [line]) == Step(st, line)
  {
    assert [line][1..] == [];
  }

  lemma {:induction false} InsideFunctionBody(st: State, body: seq<string>)
    requires st.inFunction && st.dollars % 2 == 1
    requires forall i :: 0 <= i < |body| ==> DollarQuotes(body[i]) == 0
    ensures Run(st, body) == State(st.emitted, st.pending + body, true, st.dollars)
    decreases |body|
  {
    if |body| > 0 {
      StepInsideBody(st, body[0]);
      var s1 := Step(st, body[0]);
      assert forall i :: 0 <= i < |body[1..]| ==> DollarQuotes(body[1..][i]) == 0 by {
        forall i | 0 <= i < |body[1..]| ensures DollarQuotes(body[1..][i]) == 0 {
          assert body[1..][i] == body[i + 1];
        }
      }
      InsideFunctionBody(s1, body[1..]);
      RunCons(st, body);
      AppendCons(st.pending, body);
    }
  }

  /** Helper: a run over lines is the step over the first line, then the run
      over the rest. */
  lemma RunCons(st: State, lines: seq<string>)
    requires |lines| > 0
    ensures Run(st, lines) == Run(Step(st, lines[0]), lines[1..])
  {
  }

  /** Helper: one line without `$$` inside a function body is kept. */
  lemma StepInsideBody(st: State, line: string)
    requires st.inFunction && st.dollars % 2 == 1 && DollarQuotes(line) == 0
    ensures Step(st, line) == State(st.emitted, st.pending + [line], true, st.dollars)
  {
    assert !Closes(st, line);
  }

  lemma {:induction false} RunAppend(st: State, a: seq<string>, b: seq<string>)
    ensures Run(st, a + b) == Run(Run(st, a), b)
    decreases |a|
  {
    if |a| > 0 {
      assert (a + b)[0] == a[0];
      assert (a + b)[1..] == a[1..] + b;
      RunAppend(Step(st, a[0]), a[1..], b);
    } else {
      assert a + b == b;
    }
  }
}
