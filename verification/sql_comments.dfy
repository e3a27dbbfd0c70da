// Comment removal that applyAllMigrations and applyMigrationFixed apply
// before splitting (applyMigration splits the raw text): a
// global replace of block comments (slash-star, any text, lazily up to the
// first star-slash) by nothing, then a global multiline replace of `--.*$` by
// nothing, then `trim`.
module SqlComments {
  import opened Common
  import opened Text

  // A block comment opener (slash, star) starts at position `i` of `s`.
  predicate OpensAt(s: string, i: int) {
    0 <= i && i + 1 < |s| && s[i] == '/' && s[i + 1] == '*'
  }

  // A block comment closer (star, slash) starts at position `i` of `s`.
  predicate ClosesAt(s: string, i: int) {
    0 <= i && i + 1 < |s| && s[i] == '*' && s[i + 1] == '/'
  }

  // The first position at or after `from` where a closer starts: where the
  // lazy any-character repetition of the block comment pattern stops.
  function FindClose(s: string, from: nat): (r: Option<nat>)
    ensures r.Some? ==> from <= r.value && ClosesAt(s, r.value)
    ensures r.Some? ==> forall j :: from <= j < r.value ==> !ClosesAt(s, j)
    ensures r.None? ==> forall j :: from <= j ==> !ClosesAt(s, j)
    decreases |s| - from
  {
    if from + 1 >= |s| then None
    else if ClosesAt(s, from) then Some(from)
    else FindClose(s, from + 1)
  }

  // Removes every block comment, scanning left to right as a global regular
  // expression replace does: at an opener that has a closer two or more
  // positions later, the shortest such span is dropped and the scan resumes
  // after it; otherwise the code point is kept.
  function StripBlockComments(s: string): (r: string)
    ensures |r| <= |s|
    ensures NoCloser(s) ==> r == s
    decreases |s|
  {
    if |s| == 0 then ""
    else if OpensAt(s, 0) && FindClose(s, 2).Some? then
      StripBlockComments(s[FindClose(s, 2).value + 2..])
    else
      NoCloserInTail(s);
      [s[0]] + StripBlockComments(s[1..])
  }

  // No closer starts anywhere in `s`.
  predicate NoCloser(s: string) {
    forall i :: 0 <= i < |s| ==> !ClosesAt(s, i)
  }

  // A suffix of text without a closer has none either.
  lemma NoCloserInTail(s: string)
    requires |s| > 0
    ensures NoCloser(s) ==> NoCloser(s[1..])
  {
    if NoCloser(s) {
      forall i ensures !ClosesAt(s[1..], i) { assert !ClosesAt(s, i + 1); }
    }
  }

  // Text without any opener has nothing removed.
  lemma {:induction false} NoOpenerKeepsText(s: string)
    requires forall i :: !OpensAt(s, i)
    ensures StripBlockComments(s) == s
    decreases |s|
  {
    if |s| > 0 {
      assert forall i :: !OpensAt(s[1..], i) by {
        forall i ensures !OpensAt(s[1..], i) { assert !OpensAt(s, i + 1); }
      }
      NoOpenerKeepsText(s[1..]);
    }
  }

  // Comment text `c` between an opener and the first following closer
  // disappears, together with both delimiters, and the scan resumes behind it.
  lemma BlockCommentRemoved(a: string, c: string, b: string)
    requires forall i :: !OpensAt(a, i)
    requires forall i :: !ClosesAt(c, i)
    ensures StripBlockComments(a + "/*" + c + "*/" + b) == a + StripBlockComments(b)
  {
    var rest := "/*" + c + "*/" + b;
    forall i | 0 <= i < |a| ensures !OpensAt(a + rest, i) {
      if i + 1 < |a| { assert !OpensAt(a, i); }
    }
    OpenerFreePrefixKept(a, rest);
    CommentAtStartRemoved(c, b);
    assert a + "/*" + c + "*/" + b == a + rest;
  }

  // Helper: a prefix in which no opener starts is copied unchanged.
  lemma {:induction false} OpenerFreePrefixKept(a: string, rest: string)
    requires forall i :: 0 <= i < |a| ==> !OpensAt(a + rest, i)
    ensures StripBlockComments(a + rest) == a + StripBlockComments(rest)
    decreases |a|
  {
    if |a| > 0 {
      var s := a + rest;
      ConsSplit(a, rest);
      assert !OpensAt(s, 0);
      KeepsFirst(s);
      forall i | 0 <= i < |a[1..]| ensures !OpensAt(a[1..] + rest, i) {
        assert !OpensAt(s, i + 1);
      }
      OpenerFreePrefixKept(a[1..], rest);
      ConsSplit(a, StripBlockComments(rest));
    } else {
      assert a + rest == rest;
    }
  }

  // Helper: a code point that does not open a comment is kept.
  lemma KeepsFirst(s: string)
    requires |s| > 0 && !OpensAt(s, 0)
    ensures StripBlockComments(s) == [s[0]] + StripBlockComments(s[1..])
  {
  }

  // Helper: the first code point of `a + x` and the rest.
  lemma ConsSplit(a: string, x: string)
    requires |a| > 0
    ensures (a + x)[0] == a[0] && (a + x)[1..] == a[1..] + x
    ensures [a[0]] + (a[1..] + x) == a + x
  {
    assert (a + x)[1..] == a[1..] + x;
    assert [a[0]] + (a[1..] + x) == a + x;
  }

  // Helper: a comment at the very start is dropped in one step.
  lemma CommentAtStartRemoved(c: string, b: string)
    requires forall i :: !ClosesAt(c, i)
    ensures StripBlockComments("/*" + c + "*/" + b) == StripBlockComments(b)
  {
    var s := "/*" + c + "*/" + b;
    assert OpensAt(s, 0);
    FirstCloseAfterComment(c, b);
    assert s[|c| + 4..] == b;
  }

  // Helper: in opener + c + closer + b, the first closer from position 2 is
  // the one that follows `c`.
  lemma FirstCloseAfterComment(c: string, b: string)
    requires forall i :: !ClosesAt(c, i)
    ensures FindClose("/*" + c + "*/" + b, 2) == Some(|c| + 2)
  {
    var s := "/*" + c + "*/" + b;
    assert ClosesAt(s, |c| + 2);
    forall j | 2 <= j < |c| + 2 ensures !ClosesAt(s, j) {
      if j + 1 < |c| + 2 {
        assert s[j] == c[j - 2] && s[j + 1] == c[j - 1];
        assert !ClosesAt(c, j - 2);
      } else {
        assert s[j + 1] == '*';
      }
    }
  }

  /** `"--"` starts at position `i` of `s`. */
  predicate DashesAt(s: string, i: int) {
    0 <= i && i + 1 < |s| && s[i] == '-' && s[i + 1] == '-'
  }

  /** The text from the first line terminator of `s` on (empty if none):
      what is left once the greedy `.*` has consumed the rest of the line. */
  function FromLineEnd(s: string): (r: string)
    ensures |r| <= |s| && r == s[|s| - |r|..]
    ensures forall i :: 0 <= i < |s| - |r| ==> !IsLineTerminator(s[i])
    ensures |r| == 0 || IsLineTerminator(r[0])
  {
    if |s| == 0 || IsLineTerminator(s[0]) then s else FromLineEnd(s[1..])
  }

  /** Removes every line comment: each `--` and the rest of its line up to,
      but not including, the line terminator. */
  function StripLineComments(s: string): (r: string)
    ensures |r| <= |s|
    ensures SameLineTerminators(r, s)
    decreases |s|
  {
    if |s| == 0 then ""
    else if DashesAt(s, 0) then
      CommentKeepsTerminators(s);
      StripLineComments(FromLineEnd(s[2..]))
    else
      ConsKeepsTerminators(s, StripLineComments(s[1..]));
      [s[0]] + StripLineComments(s[1..])
  }

  /** How many times `c` occurs in `s`. */
  function Occurrences(s: string, c: char): nat {
    if |s| == 0 then 0 else (if s[0] == c then 1 else 0) + Occurrences(s[1..], c)
  }

  /** `r` holds each line terminator as often as `s` does: no two lines were
      joined. */
  predicate SameLineTerminators(r: string, s: string) {
    forall c :: IsLineTerminator(c) ==> Occurrences(r, c) == Occurrences(s, c)
  }

  lemma ConsKeepsTerminators(s: string, r: string)
    requires |s| > 0 && SameLineTerminators(r, s[1..])
    ensures SameLineTerminators([s[0]] + r, s)
  {
    assert ([s[0]] + r)[1..] == r;
  }

  // Skipping a `--` and the rest of its line drops no line terminator.
  lemma CommentKeepsTerminators(s: string)
    requires DashesAt(s, 0)
    ensures SameLineTerminators(FromLineEnd(s[2..]), s)
  {
    assert s[1..][1..] == s[2..];
    forall c | IsLineTerminator(c) ensures Occurrences(FromLineEnd(s[2..]), c) == Occurrences(s, c) {
      SkipLineKeepsTerminator(s[2..], c);
    }
  }

  lemma {:induction false} SkipLineKeepsTerminator(t: string, c: char)
    requires IsLineTerminator(c)
    ensures Occurrences(FromLineEnd(t), c) == Occurrences(t, c)
  {
    if |t| > 0 && !IsLineTerminator(t[0]) {
      SkipLineKeepsTerminator(t[1..], c);
    }
  }

  /** No `--` survives line-comment removal. */
  lemma {:induction false} NoDashesRemain(s: string)
    ensures forall i :: !DashesAt(StripLineComments(s), i)
    decreases |s|
  {
    if |s| > 0 {
      if DashesAt(s, 0) {
        NoDashesRemain(FromLineEnd(s[2..]));
      } else {
        var rest := StripLineComments(s[1..]);
        NoDashesRemain(s[1..]);
        var r := [s[0]] + rest;
        forall i ensures !DashesAt(r, i) {
          if i > 0 {
            assert !DashesAt(rest, i - 1);
          }
        }
      }
    }
  }

  /** Text without `--` has nothing removed. */
  lemma {:induction false} NoDashesKeepsText(s: string)
    requires forall i :: !DashesAt(s, i)
    ensures StripLineComments(s) == s
    decreases |s|
  {
    if |s| > 0 {
      assert !DashesAt(s, 0);
      assert forall i :: !DashesAt(s[1..], i) by {
        forall i ensures !DashesAt(s[1..], i) { assert !DashesAt(s, i + 1); }
      }
      NoDashesKeepsText(s[1..]);
    }
  }

  /** A comment `--c` ending at line terminator `t` disappears, the terminator
      stays, and the text before it is untouched. */
  lemma LineCommentRemoved(a: string, c: string, t: char, b: string)
    requires forall i :: !DashesAt(a + "-", i)
    requires forall i :: 0 <= i < |c| ==> !IsLineTerminator(c[i])
    requires IsLineTerminator(t)
    ensures StripLineComments(a + "--" + c + [t] + b) == a + [t] + StripLineComments(b)
  {
    var rest := "--" + c + [t] + b;
    DashFreeBeforeDash(a, rest);
    DashFreePrefixKept(a, rest);
    CommentAtLineStartRemoved(c, t, b);
    Regroup(a, "--", c, [t], b);
    Regroup(a, [t], StripLineComments(b), "", "");
  }

  // Helper: regrouping a chain of concatenations.
  lemma Regroup(a: string, w: string, x: string, y: string, z: string)
    ensures a + w + x + y + z == a + (w + x + y + z)
  {
  }

  // Helper: a prefix in which no `--` starts is copied unchanged.
  lemma {:induction false} DashFreePrefixKept(a: string, rest: string)
    requires forall i :: 0 <= i < |a| ==> !DashesAt(a + rest, i)
    ensures StripLineComments(a + rest) == a + StripLineComments(rest)
    decreases |a|
  {
    if |a| > 0 {
      var s := a + rest;
      ConsSplit(a, rest);
      assert !DashesAt(s, 0);
      forall i | 0 <= i < |a[1..]| ensures !DashesAt(a[1..] + rest, i) {
        assert !DashesAt(s, i + 1);
      }
      DashFreePrefixKept(a[1..], rest);
      ConsSplit(a, StripLineComments(rest));
    } else {
      assert a + rest == rest;
    }
  }

  // Helper: before text that starts with a dash, `a` holds no `--` when `a`
  // followed by a single dash holds none.
  lemma DashFreeBeforeDash(a: string, rest: string)
    requires |rest| > 0 && rest[0] == '-'
    requires forall i :: !DashesAt(a + "-", i)
    ensures forall i :: 0 <= i < |a| ==> !DashesAt(a + rest, i)
  {
    forall i | 0 <= i < |a| ensures !DashesAt(a + rest, i) {
      assert !DashesAt(a + "-", i);
      assert (a + rest)[i] == (a + "-")[i];
      assert (a + rest)[i + 1] == (a + "-")[i + 1];
    }
  }

  // Helper: a comment at the very start goes up to its line terminator.
  lemma CommentAtLineStartRemoved(c: string, t: char, b: string)
    requires forall i :: 0 <= i < |c| ==> !IsLineTerminator(c[i])
    requires IsLineTerminator(t)
    ensures StripLineComments("--" + c + [t] + b) == [t] + StripLineComments(b)
  {
    var s := "--" + c + [t] + b;
    assert DashesAt(s, 0);
    assert s[2..] == c + [t] + b;
    FromLineEndSkipsLine(c, t, b);
    assert !DashesAt([t] + b, 0);
    assert ([t] + b)[1..] == b;
  }

  lemma {:induction false} FromLineEndSkipsLine(c: string, t: char, b: string)
    requires forall i :: 0 <= i < |c| ==> !IsLineTerminator(c[i])
    requires IsLineTerminator(t)
    ensures FromLineEnd(c + [t] + b) == [t] + b
    decreases |c|
  {
    if |c| > 0 {
      assert (c + [t] + b)[1..] == c[1..] + [t] + b;
      FromLineEndSkipsLine(c[1..], t, b);
    }
  }

  /** The cleaned migration text: block comments out, then line comments out,
      then `trim`. */
  function Clean(sql: string): (r: string)
    ensures IsTrimmed(r)
    ensures forall i :: !DashesAt(r, i)
  {
    var noLine := StripLineComments(StripBlockComments(sql));
    NoDashesRemain(StripBlockComments(sql));
    TrimKeepsNoDashes(noLine);
    TrimShape(noLine);
    Trim(noLine)
  }

  /** Helper: trimming cannot create a `--`. */
  lemma TrimKeepsNoDashes(s: string)
    requires forall i :: !DashesAt(s, i)
    ensures forall i :: !DashesAt(Trim(s), i)
  {
    TrimShape(s);
    var k := TrimOffset(s);
    forall i ensures !DashesAt(Trim(s), i) {
      assert !DashesAt(s, k + i);
      if 0 <= i && i + 1 < |Trim(s)| {
        assert Trim(s)[i] == s[k + i] && Trim(s)[i + 1] == s[k + i + 1];
      }
    }
  }

  /** Trimmed text without comment markers is already clean. */
  lemma CommentFreeTextIsClean(s: string)
    requires forall i :: !OpensAt(s, i)
    requires forall i :: !DashesAt(s, i)
    requires IsTrimmed(s)
    ensures Clean(s) == s
  {
    NoOpenerKeepsText(s);
    NoDashesKeepsText(s);
    TrimmedIsFixpoint(s);
  }

  /** Text without a slash has no block comment opener, and text without a
      dash has no line comment marker. */
  lemma NoMarkerCharacters(s: string)
    ensures '/' !in s ==> forall i :: !OpensAt(s, i)
    ensures '-' !in s ==> forall i :: !DashesAt(s, i)
  {
    forall i | 0 <= i < |s| ensures s[i] in s {}
  }
}
