/** The string primitives the application leans on, as ECMAScript defines them:
    `trim`, `startsWith`, `endsWith`, `includes`, `split` on one character and
    the `\s` character class. Strings are sequences of code points. */
module Text {
  import opened Common

  /** ECMAScript LineTerminator: what `.` in a regular expression refuses and
      what `$` in multiline mode stops before. */
  predicate IsLineTerminator(c: char) {
    c == '\n' || c == '\r' || c == '\U{2028}' || c == '\U{2029}'
  }

  /** ECMAScript WhiteSpace or LineTerminator: what `trim` removes and what `\s`
      matches (tab, vertical tab, form feed, space, no-break space, byte order
      mark, and the space separators of category Zs). */
  predicate IsSpace(c: char) {
    || c == '\t' || c == '\U{000B}' || c == '\U{000C}' || c == ' '
    || c == '\U{00A0}' || c == '\U{FEFF}' || c == '\U{1680}'
    || ('\U{2000}' <= c <= '\U{200A}')
    || c == '\U{202F}' || c == '\U{205F}' || c == '\U{3000}'
    || IsLineTerminator(c)
  }

  /** Every code point of `s` is whitespace (the empty string included). */
  predicate IsBlank(s: string) {
    forall i :: 0 <= i < |s| ==> IsSpace(s[i])
  }

  /** `s` neither starts nor ends with whitespace. */
  predicate IsTrimmed(s: string) {
    |s| == 0 || (!IsSpace(s[0]) && !IsSpace(s[|s| - 1]))
  }

  /** `String.prototype.trimStart`: drops the leading whitespace. */
  function TrimStart(s: string): (r: string)
    ensures |r| <= |s|
    ensures |r| == 0 || !IsSpace(r[0])
  {
    if |s| > 0 && IsSpace(s[0]) then TrimStart(s[1..]) else s
  }

  /** `String.prototype.trimEnd`: drops the trailing whitespace. */
  function TrimEnd(s: string): (r: string)
    ensures |r| <= |s|
    ensures |r| == 0 || !IsSpace(r[|r| - 1])
  {
    if |s| > 0 && IsSpace(s[|s| - 1]) then TrimEnd(s[..|s| - 1]) else s
  }

  /** `trimStart` keeps a suffix and drops only whitespace. */
  lemma {:induction false} TrimStartShape(s: string)
    ensures TrimStart(s) == s[|s| - |TrimStart(s)|..]
    ensures IsBlank(s[..|s| - |TrimStart(s)|])
    decreases |s|
  {
    if |s| > 0 && IsSpace(s[0]) {
      TrimStartShape(s[1..]);
      var k := |s| - |TrimStart(s)|;
      assert s[1..][..k - 1] == s[1..k];
    }
  }

  /** `trimEnd` keeps a prefix and drops only whitespace. */
  lemma {:induction false} TrimEndShape(s: string)
    ensures TrimEnd(s) == s[..|TrimEnd(s)|]
    ensures IsBlank(s[|TrimEnd(s)|..])
    decreases |s|
  {
    if |s| > 0 && IsSpace(s[|s| - 1]) {
      TrimEndShape(s[..|s| - 1]);
      var n := |TrimEnd(s)|;
      assert s[..|s| - 1][n..] == s[n..|s| - 1];
    }
  }

  /** How many leading code points `trim` removes from `s`. */
  function TrimOffset(s: string): nat {
    |s| - |TrimStart(s)|
  }

  /** `String.prototype.trim`: drops whitespace at both ends. */
  function Trim(s: string): (r: string)
    ensures IsTrimmed(r) && |r| <= |s|
  {
    TrimEndShape(TrimStart(s));
    TrimEnd(TrimStart(s))
  }

  /** What `trim` keeps: the middle of `s` between a blank prefix and a blank
      suffix; it is empty exactly when `s` is blank. */
  lemma TrimShape(s: string)
    ensures TrimOffset(s) + |Trim(s)| <= |s|
    ensures Trim(s) == s[TrimOffset(s)..TrimOffset(s) + |Trim(s)|]
    ensures IsBlank(s[..TrimOffset(s)]) && IsBlank(s[TrimOffset(s) + |Trim(s)|..])
    ensures Trim(s) == [] <==> IsBlank(s)
  {
    var a := TrimStart(s);
    var r := TrimEnd(a);
    var k := |s| - |a|;
    TrimStartShape(s);
    TrimEndShape(a);
    assert s[k + |r|..] == a[|r|..];
    assert r == [] ==> IsBlank(s) by {
      if r == [] {
        assert a == [];
        assert s[..k] == s;
      }
    }
  }

  /** A string without whitespace at either end is its own trim. */
  lemma TrimmedIsFixpoint(s: string)
    requires IsTrimmed(s)
    ensures Trim(s) == s
  {
  }

  /** Trimming twice is trimming once. */
  lemma TrimIdempotent(s: string)
    ensures Trim(Trim(s)) == Trim(s)
  {
    TrimmedIsFixpoint(Trim(s));
  }

  /** When the last code point of `s` is not whitespace, the trimmed form ends
      with that same code point. */
  lemma TrimKeepsLastNonSpace(s: string)
    requires |s| > 0 && !IsSpace(s[|s| - 1])
    ensures |Trim(s)| > 0 && Trim(s)[|Trim(s)| - 1] == s[|s| - 1]
  {
    var a := TrimStart(s);
    TrimStartShape(s);
    assert a[|a| - 1] == s[|s| - 1];
  }

  /** `trim` is determined by its result: text that is a blank prefix, a
      trimmed core and a blank suffix trims to the core. */
  lemma TrimOfPadded(a: string, core: string, b: string)
    requires IsBlank(a) && IsBlank(b) && IsTrimmed(core)
    ensures Trim(a + core + b) == core
  {
    if |core| > 0 {
      TrimStartSkipsBlank(a, core + b);
      TrimEndSkipsBlank(core, b);
      assert a + core + b == a + (core + b);
    } else {
      assert IsBlank(a + core + b);
      TrimShape(a + core + b);
    }
  }

  lemma {:induction false} TrimStartSkipsBlank(a: string, t: string)
    requires IsBlank(a)
    requires |t| == 0 || !IsSpace(t[0])
    ensures TrimStart(a + t) == t
    decreases |a|
  {
    if |a| > 0 {
      assert (a + t)[1..] == a[1..] + t;
      TrimStartSkipsBlank(a[1..], t);
    } else {
      assert a + t == t;
    }
  }

  lemma {:induction false} TrimEndSkipsBlank(t: string, b: string)
    requires IsBlank(b)
    requires |t| == 0 || !IsSpace(t[|t| - 1])
    ensures TrimEnd(t + b) == t
    decreases |b|
  {
    if |b| > 0 {
      assert (t + b)[..|t + b| - 1] == t + b[..|b| - 1];
      TrimEndSkipsBlank(t, b[..|b| - 1]);
    } else {
      assert t + b == t;
    }
  }

  /** `String.prototype.startsWith`. */
  predicate StartsWith(s: string, p: string) {
    |p| <= |s| && s[..|p|] == p
  }

  /** `String.prototype.endsWith`. */
  predicate EndsWith(s: string, p: string) {
    |p| <= |s| && s[|s| - |p|..] == p
  }

  /** `String.prototype.includes`: `p` occurs at some position of `s`. */
  predicate Contains(s: string, p: string)
    decreases |s|
  {
    |p| <= |s| && (s[..|p|] == p || Contains(s[1..], p))
  }

  /** A pattern longer than the text never occurs in it. */
  lemma ShortTextContainsNothingLonger(s: string, p: string)
    requires |s| < |p|
    ensures !Contains(s, p)
  {
  }

  /** Every code point of a pattern that occurs in `s` occurs in `s`. */
  lemma {:induction false} ContainsHasAll(s: string, p: string, k: nat)
    requires Contains(s, p) && k < |p|
    ensures p[k] in s
    decreases |s|
  {
    if s[..|p|] == p {
      assert s[k] == p[k];
    } else {
      ContainsHasAll(s[1..], p, k);
      assert s == [s[0]] + s[1..];
    }
  }

  /** A pattern is found wherever it sits. */
  lemma {:induction false} ContainsInfix(before: string, p: string, after: string)
    ensures Contains(before + p + after, p)
    decreases |before|
  {
    var s := before + p + after;
    if |before| == 0 {
      assert s[..|p|] == p;
    } else {
      assert s[1..] == before[1..] + p + after;
      ContainsInfix(before[1..], p, after);
    }
  }

  /** `s.split(sep)` for a one-character separator: the pieces between
      separators, in order, always at least one (the empty string gives `[""]`). */
  function Split(s: string, sep: char): (r: seq<string>)
    ensures |r| >= 1
    ensures forall i :: 0 <= i < |r| ==> sep !in r[i]
    decreases |s|
  {
    if |s| == 0 then [""]
    else
      var rest := Split(s[1..], sep);
      if s[0] == sep then [""] + rest
      else [[s[0]] + rest[0]] + rest[1..]
  }

  /** `pieces.join(sep)`. */
  function Join(pieces: seq<string>, sep: char): string
    requires |pieces| >= 1
  {
    if |pieces| == 1 then pieces[0] else pieces[0] + [sep] + Join(pieces[1..], sep)
  }

  /** Joining the pieces of a split gives back the text. */
  lemma {:induction false} JoinSplit(s: string, sep: char)
    ensures Join(Split(s, sep), sep) == s
    decreases |s|
  {
    if |s| > 0 {
      JoinSplit(s[1..], sep);
      var rest := Split(s[1..], sep);
      if s[0] != sep {
        if |rest| > 1 {
          assert ([[s[0]] + rest[0]] + rest[1..])[1..] == rest[1..];
        }
      }
    }
  }

  /** Splitting a join of separator-free pieces gives back the pieces. */
  lemma {:induction false} SplitJoin(pieces: seq<string>, sep: char)
    requires |pieces| >= 1
    requires forall i :: 0 <= i < |pieces| ==> sep !in pieces[i]
    ensures Split(Join(pieces, sep), sep) == pieces
    decreases |pieces|, |pieces[0]|
  {
    var p := pieces[0];
    if |p| > 0 {
      var pieces' := [p[1..]] + pieces[1..];
      assert Join(pieces, sep)[1..] == Join(pieces', sep) by {
        if |pieces| > 1 { assert pieces'[1..] == pieces[1..]; }
      }
      assert Join(pieces, sep)[0] == p[0];
      SplitJoin(pieces', sep);
      assert [p[0]] + p[1..] == p;
      assert [[p[0]] + pieces'[0]] + pieces'[1..] == pieces;
    } else if |pieces| > 1 {
      assert Join(pieces, sep) == [sep] + Join(pieces[1..], sep);
      assert Join(pieces, sep)[1..] == Join(pieces[1..], sep);
      SplitJoin(pieces[1..], sep);
      assert [""] + pieces[1..] == pieces;
    }
  }

  /** A text without the separator is a single piece. */
  lemma {:induction false} SplitWithoutSeparator(s: string, sep: char)
    requires sep !in s
    ensures Split(s, sep) == [s]
    decreases |s|
  {
    if |s| > 0 {
      assert sep !in s[1..] by { assert forall c :: c in s[1..] ==> c in s; }
      SplitWithoutSeparator(s[1..], sep);
      assert [s[0]] + s[1..] == s;
    }
  }

  /** The first separator ends the first piece. */
  lemma {:induction false} SplitAtFirstSeparator(a: string, sep: char, b: string)
    requires sep !in a
    ensures Split(a + [sep] + b, sep) == [a] + Split(b, sep)
    decreases |a|
  {
    var s := a + [sep] + b;
    if |a| == 0 {
      assert s[0] == sep && s[1..] == b;
    } else {
      assert s[1..] == a[1..] + [sep] + b;
      assert sep !in a[1..] by { assert forall c :: c in a[1..] ==> c in a; }
      SplitAtFirstSeparator(a[1..], sep, b);
      assert [a[0]] + a[1..] == a;
    }
  }

  /** A separator between two texts separates their pieces: the pieces of
      the whole are those of the left text followed by those of the right. */
  lemma {:induction false} SplitAtSeparator(a: string, sep: char, b: string)
    ensures Split(a + [sep] + b, sep) == Split(a, sep) + Split(b, sep)
    decreases |a|
  {
    var s := a + [sep] + b;
    if |a| == 0 {
      assert s[0] == sep && s[1..] == b;
    } else {
      assert s[1..] == a[1..] + [sep] + b;
      SplitAtSeparator(a[1..], sep, b);
    }
  }

  /** `name.split('.').pop()`: the text after the last `.`, or the whole
      name when it has none. */
  function Extension(name: string): (r: string)
    ensures '.' !in r
    ensures '.' !in name ==> r == name
  {
    var pieces := Split(name, '.');
    if '.' in name then pieces[|pieces| - 1]
    else
      SplitWithoutSeparator(name, '.');
      pieces[|pieces| - 1]
  }

  /** The extension is what follows the last dot. */
  lemma ExtensionAfterLastDot(a: string, b: string)
    requires '.' !in b
    ensures Extension(a + "." + b) == b
  {
    SplitAtSeparator(a, '.', b);
    SplitWithoutSeparator(b, '.');
  }

  /** `s.charAt(0).toUpperCase() + s.slice(1)`. */
  function Capitalize(s: string): (r: string)
    ensures |r| == |s|
    ensures |s| > 0 ==> r[0] == UpperChar(s[0]) && r[1..] == s[1..]
  {
    if |s| == 0 then "" else [UpperChar(s[0])] + s[1..]
  }

  /** Capitalizing twice is capitalizing once. */
  lemma CapitalizeIdempotent(s: string)
    ensures Capitalize(Capitalize(s)) == Capitalize(s)
  {
    if |s| > 0 {
      var c := Capitalize(s);
      assert c == [c[0]] + c[1..];
    }
  }

  /** `toLowerCase` restricted to ASCII letters. */
  function LowerChar(c: char): (r: char)
    ensures 'A' <= c <= 'Z' ==> 'a' <= r <= 'z' && r as int - c as int == 32
    ensures !('A' <= c <= 'Z') ==> r == c
  {
    if 'A' <= c <= 'Z' then (c as int + 32) as char else c
  }

  /** `toUpperCase` restricted to ASCII letters. */
  function UpperChar(c: char): (r: char)
    ensures 'a' <= c <= 'z' ==> 'A' <= r <= 'Z' && c as int - r as int == 32
    ensures !('a' <= c <= 'z') ==> r == c
  {
    if 'a' <= c <= 'z' then (c as int - 32) as char else c
  }

  /** `toLowerCase` on a whole string (ASCII letters only). */
  function Lower(s: string): (r: string)
    ensures |r| == |s|
    ensures forall i :: 0 <= i < |s| ==> r[i] == LowerChar(s[i])
  {
    seq(|s|, i requires 0 <= i < |s| => LowerChar(s[i]))
  }

  /** JavaScript truthiness of a string: every string but `""` is truthy. */
  predicate Truthy(s: string) {
    s != ""
  }

  /** JavaScript truthiness of an optional string (`null`/`undefined` are falsy). */
  predicate TruthyOpt(o: Option<string>) {
    o.Some? && Truthy(o.value)
  }

  /** `o || ''`: the string when truthy, otherwise the empty string. */
  function OrEmpty(o: Option<string>): (r: string)
    ensures TruthyOpt(o) ==> r == o.value
    ensures !TruthyOpt(o) ==> r == ""
  {
    if o.Some? then o.value else ""
  }
}
