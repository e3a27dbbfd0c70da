/** The three statement splitters on the canonical PL/pgSQL trigger function of
    a migration, alone and followed by one more statement. */
module SplitterExamples {
  import opened Text
  import opened Statements
  import SqlComments
  import ParitySplitter
  import LiteralSplitter
  import NaiveSplitter

  /** The header up to its `$$`; long texts are written as concatenations of
      short pieces. */
  const HeaderText: string := "CREATE OR REPLACE FUNCTION" + " touch() RETURNS trigger AS "
  const Header: string := HeaderText + "$$"
  const Body: seq<string> := ["BEGIN", "  NEW.updated_at = now();", "  RETURN NEW;", "END;"]
  const BareHeader: string := "CREATE FUNCTION" + " touch() RETURNS trigger AS $$"
  const Closer: string := "$$" + " LANGUAGE plpgsql;"
  const Select: string := "SELECT 1;"

  /** The function definition, one line per entry. */
  const FunctionLines: seq<string> := [Header] + Body + [Closer]

  /** The migration text of the definition: its lines joined by `'\n'`,
      written from the last line backwards. */
  const FromEnd: string := "END;" + "\n" + Closer
  const FromReturn: string := "  RETURN NEW" + ";" + ("\n" + FromEnd)
  const FromAssign: string := "  NEW.updated_at = now()" + ";" + ("\n" + FromReturn)
  const FromBegin: string := "BEGIN" + "\n" + FromAssign
  const FunctionText: string := Header + "\n" + FromBegin

  /** Cutting the text at `'\n'` gives back the lines. */
  lemma FunctionTextLines()
    ensures Split(FunctionText, '\n') == FunctionLines
  {
    assert '\n' !in Closer && '\n' !in Header;
    SplitWithoutSeparator(Closer, '\n');
    SplitAtFirstSeparator("END;", '\n', Closer);
    assert FromReturn == "  RETURN NEW;" + "\n" + FromEnd;
    SplitAtFirstSeparator("  RETURN NEW;", '\n', FromEnd);
    assert FromAssign == "  NEW.updated_at = now();" + "\n" + FromReturn;
    SplitAtFirstSeparator("  NEW.updated_at = now();", '\n', FromReturn);
    SplitAtFirstSeparator("BEGIN", '\n', FromAssign);
    SplitAtFirstSeparator(Header, '\n', FromBegin);
  }

  lemma HeaderFacts()
    ensures Trim(Header) == Header
    ensures ParitySplitter.StartsFunction(Header) && LiteralSplitter.OpensFunction(Header)
    ensures ParitySplitter.DollarQuotes(Header) == 1
    ensures !EndsStatement(Header)
  {
    assert Header[0] == 'C' && Header[|Header| - 1] == '$';
    TrimmedIsFixpoint(Header);
    assert Header[..26] == "CREATE OR REPLACE FUNCTION";
    assert '$' !in HeaderText;
    ParitySplitter.DollarQuotesSkipPlainPrefix(HeaderText, "$$");
    assert "$$"[2..] == "";
  }

  /** A header written without `OR REPLACE` enters function mode for the
      parity splitter but not for the literal one. */
  lemma BareHeaderOnlyParity()
    ensures ParitySplitter.StartsFunction(BareHeader)
    ensures !LiteralSplitter.OpensFunction(BareHeader)
  {
    assert BareHeader[..15] == "CREATE FUNCTION";
    assert 'P' !in BareHeader by {
      forall i | 0 <= i < |BareHeader| ensures BareHeader[i] != 'P' {}
    }
  }

  lemma CloserFacts()
    ensures Trim(Closer) == Closer && Closer != LiteralSplitter.FunctionEnd
    ensures ParitySplitter.DollarQuotes(Closer) == 1
    ensures EndsStatement(Closer)
  {
    assert Closer[0] == '$' && Closer[|Closer| - 1] == ';';
    TrimmedIsFixpoint(Closer);
    assert Closer[2..] == " LANGUAGE plpgsql;";
    assert '$' !in Closer[2..];
    assert |Closer| != |LiteralSplitter.FunctionEnd|;
  }

  lemma BodyFacts()
    ensures forall i :: 0 <= i < |Body| ==> ParitySplitter.DollarQuotes(Body[i]) == 0
    ensures forall i :: 0 <= i < |Body| ==> Trim(Body[i]) != LiteralSplitter.FunctionEnd
  {
    forall i | 0 <= i < |Body| ensures '$' !in Body[i] {
      if i == 0 { assert '$' !in "BEGIN"; }
      else if i == 1 { assert '$' !in "  NEW.updated_at = now();"; }
      else if i == 2 { assert '$' !in "  RETURN NEW;"; }
      else { assert '$' !in "END;"; }
    }
    forall i | 0 <= i < |Body| ensures Trim(Body[i]) != LiteralSplitter.FunctionEnd {
      NoDollarIsNotFunctionEnd(Body[i]);
    }
  }

  /** A line without `$` never trims to `$$;`. */
  lemma NoDollarIsNotFunctionEnd(line: string)
    requires '$' !in line
    ensures Trim(line) != LiteralSplitter.FunctionEnd
  {
    TrimShape(line);
  }

  lemma SelectFacts()
    ensures Trim(Select) == Select && EndsStatement(Select)
    ensures !ParitySplitter.StartsFunction(Select) && ParitySplitter.DollarQuotes(Select) == 0
    ensures Select != LiteralSplitter.FunctionEnd
  {
    TrimmedIsFixpoint(Select);
    ShortTextContainsNothingLonger(Select, "CREATE OR REPLACE FUNCTION");
    ShortTextContainsNothingLonger(Select, "CREATE FUNCTION");
  }

  /** The parity splitter keeps the function definition in one group. */
  lemma ParityKeepsFunctionWhole()
    ensures ParitySplitter.Run(ParitySplitter.Start, FunctionLines) == ParitySplitter.State([FunctionLines], [], false, 0)
    ensures ParitySplitter.Groups(FunctionLines) == [FunctionLines]
  {
    HeaderFacts();
    CloserFacts();
    BodyFacts();
    ParitySplitter.FunctionDefinitionIsOneStatement(ParitySplitter.Start, Header, Body, Closer);
    assert Render([]) == "";
  }

  /** Followed by `SELECT 1;`, the parity splitter yields two groups. */
  lemma ParitySplitsAfterFunction()
    ensures ParitySplitter.Groups(FunctionLines + [Select]) == [FunctionLines, [Select]]
  {
    var st1 := ParitySplitter.State([FunctionLines], [], false, 0);
    ParityKeepsFunctionWhole();
    SelectFacts();
    ParitySplitter.RunAppend(ParitySplitter.Start, FunctionLines, [Select]);
    ParitySplitter.RunOne(st1, Select);
    ParitySplitter.PlainStatementLine(st1, Select);
    ParitySplitter.GroupsWhenNothingPending(FunctionLines + [Select]);
  }

  /** The literal splitter never sees a line that is exactly `$$;`, so it stays
      in function mode and folds `SELECT 1;` into the function's statement. */
  lemma LiteralFoldsTailIntoFunction()
    ensures LiteralSplitter.Groups(FunctionLines + [Select]) == [FunctionLines + [Select]]
  {
    var lines := FunctionLines + [Select];
    LiteralRunAbsorbsAll();
    assert lines[0] == Header;
    assert !IsBlank(lines[0]) by { assert !IsSpace(Header[0]); }
    NonBlankLineMakesStatement(lines, 0);
    LiteralSplitter.GroupsWithPendingTail(lines);
  }

  /** Helper: after the header, no line of the function or the `SELECT` trims
      to `$$;`. */
  lemma TailNeverEndsFunction()
    ensures forall i :: 0 <= i < |Body + [Closer] + [Select]| ==> Trim((Body + [Closer] + [Select])[i]) != LiteralSplitter.FunctionEnd
  {
    CloserFacts();
    BodyFacts();
    SelectFacts();
    var rest := Body + [Closer] + [Select];
    forall i | 0 <= i < |rest| ensures Trim(rest[i]) != LiteralSplitter.FunctionEnd {
      if i < |Body| { assert rest[i] == Body[i]; }
    }
  }

  /** Helper: the literal splitter takes every line into one pending statement. */
  lemma LiteralRunAbsorbsAll()
    ensures LiteralSplitter.Run(LiteralSplitter.Start, FunctionLines + [Select]) == LiteralSplitter.State([], FunctionLines + [Select], true)
  {
    HeaderFacts();
    var lines := FunctionLines + [Select];
    var rest := Body + [Closer] + [Select];
    assert lines == [Header] + rest;
    LiteralSplitter.KeywordEntersFunction(LiteralSplitter.Start, Header);
    TailNeverEndsFunction();
    LiteralSplitter.FunctionModeAbsorbs(LiteralSplitter.State([], [Header], true), rest);
    LiteralSplitter.RunCons(LiteralSplitter.Start, lines);
  }

  /** Cleaning leaves the function text as it is, so the parity splitter turns
      the migration text into exactly one statement. */
  lemma ParityFunctionTextIsOneStatement()
    ensures ParitySplitter.SplitStatements(FunctionText) == [Statement(FunctionLines)]
  {
    FunctionTextLines();
    CleanFunctionText();
    ParityKeepsFunctionWhole();
  }

  lemma CleanFunctionText()
    ensures SqlComments.Clean(FunctionText) == FunctionText
  {
    var text := FunctionText;
    NoMarkerInText();
    SqlComments.NoMarkerCharacters(text);
    assert text[0] == 'C' && text[|text| - 1] == ';';
    SqlComments.CommentFreeTextIsClean(text);
  }

  /** Helper: the function text holds neither `/` nor `-`. */
  lemma NoMarkerInText()
    ensures '/' !in FunctionText && '-' !in FunctionText
  {
    NoMarkerInFromBegin();
    assert '/' !in Header && '-' !in Header;
    NotInConcat(Header, "\n" + FromBegin);
  }

  lemma NoMarkerInFromBegin()
    ensures '/' !in FromBegin && '-' !in FromBegin
  {
    NoMarkerInFromReturn();
    NotInConcat("  NEW.updated_at = now()" + ";", "\n" + FromReturn);
    NotInConcat("BEGIN" + "\n", FromAssign);
  }

  lemma NoMarkerInFromReturn()
    ensures '/' !in FromReturn && '-' !in FromReturn
  {
    assert '/' !in Closer && '-' !in Closer;
    NotInConcat("END;" + "\n", Closer);
    NotInConcat("  RETURN NEW" + ";", "\n" + FromEnd);
  }

  /** Helper: neither marker is in a concatenation of marker-free texts. */
  lemma NotInConcat(a: string, b: string)
    requires '/' !in a && '-' !in a && '/' !in b && '-' !in b
    ensures '/' !in a + b && '-' !in a + b
  {
  }

  /** The text before the first `;` and between the first and second. */
  const UpToAssign: string := Header + "\n" + "BEGIN" + "\n" + "  NEW.updated_at = now()"
  const ReturnPiece: string := "\n" + "  RETURN NEW"

  /** The naive splitter cuts the function body at its first `;`: its first
      statement ends inside the body, and the next one is `RETURN NEW`. */
  lemma NaiveSplitsFunctionBody()
    ensures |NaiveSplitter.SplitStatements(FunctionText)| >= 2
    ensures NaiveSplitter.SplitStatements(FunctionText)[0] == UpToAssign
    ensures NaiveSplitter.SplitStatements(FunctionText)[1] == "RETURN NEW"
  {
    FunctionTextAtSemicolons();
    PieceFacts();
    NaiveSplitter.FirstPieceFirst(UpToAssign, ReturnPiece + ";" + ("\n" + FromEnd));
    NaiveSplitter.FirstPieceFirst(ReturnPiece, "\n" + FromEnd);
  }

  lemma FunctionTextAtSemicolons()
    ensures FunctionText == UpToAssign + ";" + (ReturnPiece + ";" + ("\n" + FromEnd))
  {
    Regroup(Header, "BEGIN", "  NEW.updated_at = now()", "  RETURN NEW", "\n" + FromEnd);
  }

  /** Helper: the text regrouped around its first two `;`. */
  lemma Regroup(h: string, b: string, n: string, r: string, e: string)
    ensures h + "\n" + (b + "\n" + (n + ";" + ("\n" + (r + ";" + e))))
         == (h + "\n" + b + "\n" + n) + ";" + (("\n" + r) + ";" + e)
  {
  }

  lemma PieceFacts()
    ensures ';' !in UpToAssign && ';' !in ReturnPiece
    ensures NaiveSplitter.Keep(UpToAssign) == [UpToAssign]
    ensures NaiveSplitter.Keep(ReturnPiece) == ["RETURN NEW"]
  {
    NoSemicolonUpToAssign();
    FirstPieceKept();
    ReturnPieceKept();
  }

  lemma NoSemicolonUpToAssign()
    ensures ';' !in UpToAssign
  {
    assert ';' !in Header;
    assert ';' !in "\n" + "BEGIN" + "\n" + "  NEW.updated_at = now()";
  }

  lemma FirstPieceKept()
    ensures NaiveSplitter.Keep(UpToAssign) == [UpToAssign]
  {
    assert UpToAssign[0] == 'C' && UpToAssign[|UpToAssign| - 1] == ')';
    TrimmedIsFixpoint(UpToAssign);
    assert !StartsWith(UpToAssign, "/*") && !StartsWith(UpToAssign, "--");
  }

  lemma ReturnPieceKept()
    ensures NaiveSplitter.Keep(ReturnPiece) == ["RETURN NEW"]
  {
    assert ReturnPiece == "\n  " + "RETURN NEW" + "";
    TrimOfPadded("\n  ", "RETURN NEW", "");
  }
}
