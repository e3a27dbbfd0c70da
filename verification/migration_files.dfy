/** Which migration files `applyAllMigrations` applies, and in which order: the
    directory listing (in whatever order it comes) is filtered to names ending
    in `.sql` and sorted with the default `Array.prototype.sort` order, taken
    here as comparing strings character by character, by code point. */
module MigrationFiles {
  import opened Text

  /** The default sort order: `a` sorts before or with `b` when `a` is a
      prefix of `b` or, at the first position where they differ, `a` has the
      smaller code point. */
  predicate LexLe(a: string, b: string)
    decreases |a|
  {
    |a| == 0 || (|b| > 0 && (a[0] < b[0] || (a[0] == b[0] && LexLe(a[1..], b[1..]))))
  }

  lemma {:induction false} LexLeTotal(a: string, b: string)
    ensures LexLe(a, b) || LexLe(b, a)
    decreases |a|
  {
    if |a| > 0 && |b| > 0 && a[0] == b[0] {
      LexLeTotal(a[1..], b[1..]);
    }
  }

  lemma {:induction false} LexLeTransitive(a: string, b: string, c: string)
    requires LexLe(a, b) && LexLe(b, c)
    ensures LexLe(a, c)
    decreases |a|
  {
    if |a| > 0 && a[0] == b[0] && b[0] == c[0] {
      LexLeTransitive(a[1..], b[1..], c[1..]);
    }
  }

  lemma {:induction false} LexLeReflexive(a: string)
    ensures LexLe(a, a)
    decreases |a|
  {
    if |a| > 0 {
      LexLeReflexive(a[1..]);
    }
  }

  lemma {:induction false} LexLeAntisymmetric(a: string, b: string)
    requires LexLe(a, b) && LexLe(b, a)
    ensures a == b
    decreases |a|
  {
    if |a| > 0 {
      LexLeAntisymmetric(a[1..], b[1..]);
      assert a == [a[0]] + a[1..] && b == [b[0]] + b[1..];
    }
  }

  predicate Sorted(names: seq<string>) {
    forall i, j :: 0 <= i < j < |names| ==> LexLe(names[i], names[j])
  }

  predicate IsMigration(name: string) {
    EndsWith(name, ".sql")
  }

  /** `.filter(file => file.endsWith('.sql'))`. */
  function Migrations(names: seq<string>): (r: seq<string>)
    ensures forall n :: n in r ==> IsMigration(n)
    ensures forall n :: n in names && IsMigration(n) ==> n in r
    ensures multiset(r) <= multiset(names)
  {
    if |names| == 0 then []
    else
      assert names == [names[0]] + names[1..];
      (if IsMigration(names[0]) then [names[0]] else []) + Migrations(names[1..])
  }

  /** Places `name` into a sorted list after every entry that sorts before it. */
  function Insert(name: string, sorted: seq<string>): (r: seq<string>)
    requires Sorted(sorted)
    ensures Sorted(r)
    ensures multiset(r) == multiset(sorted) + multiset{name}
  {
    if |sorted| == 0 then [name]
    else if LexLe(name, sorted[0]) then
      BelowHeadBelowAll(name, sorted);
      [name] + sorted
    else
      LexLeTotal(name, sorted[0]);
      var rest := Insert(name, sorted[1..]);
      assert sorted == [sorted[0]] + sorted[1..];
      HeadBelowInserted(sorted[0], name, sorted[1..], rest);
      [sorted[0]] + rest
  }

  /** Helper: a name before the head of a sorted list is before every entry. */
  lemma BelowHeadBelowAll(name: string, sorted: seq<string>)
    requires Sorted(sorted) && |sorted| > 0 && LexLe(name, sorted[0])
    ensures forall j :: 0 <= j < |sorted| ==> LexLe(name, sorted[j])
  {
    forall j | 0 <= j < |sorted| ensures LexLe(name, sorted[j]) {
      if j > 0 { LexLeTransitive(name, sorted[0], sorted[j]); }
    }
  }

  /** Helper: an entry before `name` and before all of `tail` is before every
      entry of any arrangement of `tail` plus `name`. */
  lemma HeadBelowInserted(head: string, name: string, tail: seq<string>, rest: seq<string>)
    requires LexLe(head, name)
    requires forall j :: 0 <= j < |tail| ==> LexLe(head, tail[j])
    requires multiset(rest) == multiset(tail) + multiset{name}
    ensures forall j :: 0 <= j < |rest| ==> LexLe(head, rest[j])
  {
    forall j | 0 <= j < |rest| ensures LexLe(head, rest[j]) {
      assert rest[j] in multiset(rest);
      if rest[j] != name {
        assert rest[j] in multiset(tail);
        var k :| 0 <= k < |tail| && tail[k] == rest[j];
      }
    }
  }

  /** `.sort()` with the default comparison. */
  function Sort(names: seq<string>): (r: seq<string>)
    ensures Sorted(r)
    ensures multiset(r) == multiset(names)
  {
    if |names| == 0 then []
    else
      assert names == [names[0]] + names[1..];
      Insert(names[0], Sort(names[1..]))
  }

  /** The migration files to apply, in order. */
  function Schedule(names: seq<string>): (r: seq<string>)
    ensures Sorted(r)
    ensures forall n :: n in r ==> IsMigration(n)
    ensures forall n :: n in names && IsMigration(n) ==> n in r
    ensures multiset(r) <= multiset(names)
    ensures multiset(r) == multiset(Migrations(names))
  {
    var r := Sort(Migrations(names));
    SameElements(r, Migrations(names));
    r
  }

  /** Lists with the same multiset of entries have the same entries. */
  lemma SameElements(a: seq<string>, b: seq<string>)
    requires multiset(a) == multiset(b)
    ensures forall n :: n in a <==> n in b
  {
    forall n ensures n in a <==> n in b {
      assert n in a <==> n in multiset(a);
      assert n in b <==> n in multiset(b);
    }
  }

  /** The order is fully determined: two sorted lists with the same entries
      are equal, so the schedule does not depend on the listing order. */
  lemma {:induction false} SortedPermutationIsUnique(a: seq<string>, b: seq<string>)
    requires Sorted(a) && Sorted(b) && multiset(a) == multiset(b)
    ensures a == b
    decreases |a|
  {
    if |a| > 0 {
      assert |b| > 0 by { assert |multiset(b)| == |multiset(a)|; }
      assert a[0] in multiset(b) && b[0] in multiset(a);
      HeadIsLeast(a, b[0]);
      HeadIsLeast(b, a[0]);
      LexLeAntisymmetric(a[0], b[0]);
      MultisetTail(a);
      MultisetTail(b);
      SortedPermutationIsUnique(a[1..], b[1..]);
      SameHeadSameTail(a, b);
    }
  }

  /** Helper: lists with the same head and the same tail are equal. */
  lemma SameHeadSameTail(a: seq<string>, b: seq<string>)
    requires |a| > 0 && |b| > 0 && a[0] == b[0] && a[1..] == b[1..]
    ensures a == b
  {
    assert a == [a[0]] + a[1..] && b == [b[0]] + b[1..];
  }

  /** Helper: the head of a sorted list sorts before every entry. */
  lemma HeadIsLeast(a: seq<string>, x: string)
    requires Sorted(a) && x in multiset(a)
    ensures |a| > 0 && LexLe(a[0], x)
  {
    var j :| 0 <= j < |a| && a[j] == x;
    if j == 0 { LexLeReflexive(a[0]); }
  }

  /** Helper: the tail holds every entry but one copy of the head. */
  lemma MultisetTail(a: seq<string>)
    requires |a| > 0
    ensures multiset(a[1..]) == multiset(a) - multiset{a[0]}
  {
    assert a == [a[0]] + a[1..];
  }

  /** Reordering the directory listing does not change the schedule. */
  lemma ScheduleIgnoresListingOrder(names: seq<string>, names': seq<string>)
    requires multiset(names) == multiset(names')
    ensures Schedule(names) == Schedule(names')
  {
    MigrationsPermute(names, names');
    SortedPermutationIsUnique(Schedule(names), Schedule(names'));
  }

  lemma MigrationsPermute(names: seq<string>, names': seq<string>)
    requires multiset(names) == multiset(names')
    ensures multiset(Migrations(names)) == multiset(Migrations(names'))
  {
    MigrationsCount(names);
    MigrationsCount(names');
  }

  /** Filtering keeps every `.sql` occurrence and nothing else. */
  lemma {:induction false} MigrationsCount(names: seq<string>)
    ensures forall n :: multiset(Migrations(names))[n] == (if IsMigration(n) then multiset(names)[n] else 0)
    decreases |names|
  {
    if |names| > 0 {
      MigrationsCount(names[1..]);
      assert names == [names[0]] + names[1..];
    }
  }
}
