/** The name of a duplicated cluster (frontend/src/lib/duplicateClusterName.ts). */
module DuplicateName {
  import Decimal

  const SUFFIX: string := "-copy"

  function Numbered(candidate: string, n: nat): string {
    candidate + "-" + Decimal.Show(n)
  }

  function Elements(names: seq<string>): set<string> {
    set name | name in names
  }

  lemma NumberedInjective(candidate: string, m: nat, n: nat)
    requires Numbered(candidate, m) == Numbered(candidate, n)
    ensures m == n
  {
    var k := |candidate + "-"|;
    assert Numbered(candidate, m)[k..] == Decimal.Show(m);
    assert Numbered(candidate, n)[k..] == Decimal.Show(n);
    Decimal.ShowInjective(m, n);
  }

  /** The candidate and its numbered forms below n. */
  function Below(candidate: string, n: nat): set<string> {
    if n <= 2 then {candidate} else Below(candidate, n - 1) + {Numbered(candidate, n - 1)}
  }

  lemma {:induction false} NotBelow(candidate: string, n: nat, m: nat)
    requires n <= m
    ensures Numbered(candidate, m) !in Below(candidate, n)
  {
    assert |Numbered(candidate, m)| > |candidate|;
    if n > 2 {
      NotBelow(candidate, n - 1, m);
      if Numbered(candidate, m) == Numbered(candidate, n - 1) {
        NumberedInjective(candidate, m, n - 1);
      }
    }
  }

  lemma {:induction false} BelowCounts(candidate: string, n: nat)
    requires n >= 2
    ensures |Below(candidate, n)| == n - 1
  {
    if n > 2 {
      BelowCounts(candidate, n - 1);
      NotBelow(candidate, n - 1, n - 1);
    }
  }

  lemma {:induction false} BelowTaken(candidate: string, taken: set<string>, n: nat)
    requires candidate in taken && forall i: nat :: 2 <= i < n ==> Numbered(candidate, i) in taken
    ensures Below(candidate, n) <= taken
  {
    if n > 2 {
      BelowTaken(candidate, taken, n - 1);
    }
  }

  /** Pigeonhole: a set cannot hold the candidate and as many numbered forms as it has members. */
  lemma SomeNumberIsFree(candidate: string, taken: set<string>, n: nat)
    requires n >= 2 && candidate in taken && forall i: nat :: 2 <= i < n ==> Numbered(candidate, i) in taken
    ensures n <= |taken| + 1
  {
    BelowCounts(candidate, n);
    BelowTaken(candidate, taken, n);
    SubsetCounts(Below(candidate, n), taken);
  }

  lemma {:induction false} SubsetCounts(a: set<string>, b: set<string>)
    requires a <= b
    ensures |a| <= |b|
  {
    if a != {} {
      var x :| x in a;
      SubsetCounts(a - {x}, b - {x});
    }
  }

  /** The name is free; it is the plain copy if that is free, else the copy with the least free number from 2 on,
      which is at most one more than the number of names. */
  method NextDuplicateName(base: string, existing: seq<string>) returns (name: string)
    ensures name !in existing
    ensures base + "-copy" !in existing ==> name == base + "-copy"
    ensures base + "-copy" in existing ==>
      exists n: nat :: 2 <= n <= |Elements(existing)| + 1 && name == Numbered(base + "-copy", n) &&
        forall m: nat :: 2 <= m < n ==> Numbered(base + "-copy", m) in existing
  {
    var taken := Elements(existing);
    var candidate := base + SUFFIX;
    if candidate !in taken {
      return candidate;
    }
    for index := 2 to |taken| + 3
      invariant forall m: nat :: 2 <= m < index ==> Numbered(candidate, m) in taken
    {
      var numbered := Numbered(candidate, index);
      if numbered !in taken {
        SomeNumberIsFree(candidate, taken, index);
        return numbered;
      }
    }
    SomeNumberIsFree(candidate, taken, |taken| + 3);
    assert false;
    name := candidate;
  }
}
