/** The statement splitter of `applyMigration`: the raw text is cut at every
    `;`, each piece is trimmed, and a piece is kept when it is non-empty and
    does not start with a block or line comment opener. Comments are not
    otherwise removed and function bodies are not recognised. */
module NaiveSplitter {
  import opened Text

  /** The filter on trimmed pieces. */
  predicate Kept(piece: string) {
    piece != "" && !StartsWith(piece, "/*") && !StartsWith(piece, "--")
  }

  /** What one piece contributes: its trimmed form if that is kept, else nothing. */
  function Keep(piece: string): (r: seq<string>)
    ensures |r| <= 1
    ensures |r| == 1 <==> Kept(Trim(piece))
    ensures |r| == 1 ==> r[0] == Trim(piece)
  {
    if Kept(Trim(piece)) then [Trim(piece)] else []
  }

  /** `.map(stmt => stmt.trim()).filter(...)` over a list of pieces. */
  function KeepAll(pieces: seq<string>): (r: seq<string>)
    ensures |r| <= |pieces|
    ensures forall i :: 0 <= i < |r| ==> Kept(r[i]) && IsTrimmed(r[i])
    ensures (forall i :: 0 <= i < |pieces| ==> ';' !in pieces[i]) ==> forall i :: 0 <= i < |r| ==> ';' !in r[i]
  {
    if |pieces| == 0 then []
    else
      TrimShape(pieces[0]);
      assert forall c :: c in Trim(pieces[0]) ==> c in pieces[0];
      Keep(pieces[0]) + KeepAll(pieces[1..])
  }

  /** Mapping and filtering distributes over concatenation, so the pieces keep
      their input order. */
  lemma {:induction false} KeepAllAppend(a: seq<string>, b: seq<string>)
    ensures KeepAll(a + b) == KeepAll(a) + KeepAll(b)
    decreases |a|
  {
    if |a| > 0 {
      assert (a + b)[1..] == a[1..] + b;
      KeepAllAppend(a[1..], b);
    } else {
      assert a + b == b;
    }
  }

  /** `applyMigration`'s statements. No statement contains `;`, and each is
      trimmed, non-empty and does not start with a comment opener. */
  function SplitStatements(sql: string): (stmts: seq<string>)
    ensures forall i :: 0 <= i < |stmts| ==> ';' !in stmts[i]
    ensures forall i :: 0 <= i < |stmts| ==> stmts[i] != "" && IsTrimmed(stmts[i])
    ensures forall i :: 0 <= i < |stmts| ==> !StartsWith(stmts[i], "/*") && !StartsWith(stmts[i], "--")
  {
    KeepAll(Split(sql, ';'))
  }

  /** Text without `;` yields at most its own trimmed form. */
  lemma NoSemicolonIsOnePiece(sql: string)
    requires ';' !in sql
    ensures SplitStatements(sql) == Keep(sql)
  {
    SplitWithoutSeparator(sql, ';');
    assert [sql][1..] == [];
  }

  /** The text up to the first `;` contributes first, then the rest. */
  lemma FirstPieceFirst(a: string, b: string)
    requires ';' !in a
    ensures SplitStatements(a + ";" + b) == Keep(a) + SplitStatements(b)
  {
    SplitAtFirstSeparator(a, ';', b);
    KeepAllAppend([a], Split(b, ';'));
    assert [a][1..] == [];
  }

  /** A piece whose trimmed form starts with a comment opener is dropped
      whole, even when SQL follows the comment inside the piece. */
  lemma CommentLedPieceDropped(a: string, b: string)
    requires ';' !in a
    requires StartsWith(Trim(a), "/*") || StartsWith(Trim(a), "--")
    ensures SplitStatements(a + ";" + b) == SplitStatements(b)
  {
    FirstPieceFirst(a, b);
  }
}
