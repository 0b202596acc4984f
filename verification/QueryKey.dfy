/** The key under which a performance query is cached: one key for one visible scope, however it was listed. */
module QueryKey {
  import opened StringOrder

  datatype Scope = Scope(endpoint: string, hours: int, model: string, group: string, models: map<string, seq<string>>, bucketSeconds: int)

  function ClampHours(hours: int): (clamped: int)
    ensures 1 <= clamped <= 720 && (1 <= hours <= 720 ==> clamped == hours)
    ensures (hours <= 0 ==> clamped == 24) && (hours > 720 ==> clamped == 720)
  {
    if hours <= 0 then 24 else if hours > 720 then 720 else hours
  }

  type Sort = seq<string> -> seq<string>

  ghost predicate Ordered(s: seq<string>) {
    forall i, j :: 0 <= i < j < |s| ==> !Less(s[j], s[i])
  }

  /** What a sorting function promises. */
  ghost predicate Sorts(sort: Sort) {
    forall s :: Ordered(sort(s)) && multiset(sort(s)) == multiset(s)
  }

  /** Neighbours that are equal become one. */
  function Compact(s: seq<string>): seq<string>
    decreases |s|
  {
    if |s| <= 1 then s
    else if s[0] == s[1] then Compact(s[1..])
    else [s[0]] + Compact(s[1..])
  }

  function Canonical(scope: Scope, sort: Sort): Scope {
    scope.(hours := ClampHours(scope.hours), models := map name | name in scope.models :: Compact(sort(scope.models[name])))
  }

  ghost predicate Strict(s: seq<string>) {
    forall i, j :: 0 <= i < j < |s| ==> Less(s[i], s[j])
  }

  lemma {:induction false} CompactOfOrdered(s: seq<string>)
    requires Ordered(s)
    ensures Strict(Compact(s))
    ensures forall x :: x in Compact(s) <==> x in s
    ensures s != [] ==> Compact(s) != [] && Compact(s)[0] == s[0]
    decreases |s|
  {
    if |s| > 1 {
      var rest := Compact(s[1..]);
      CompactOfOrdered(s[1..]);
      assert s == [s[0]] + s[1..];
      if s[0] != s[1] {
        LessIsTotal(s[0], s[1]);
        forall j | 0 <= j < |rest| ensures Less(s[0], rest[j]) {
          if j > 0 {
            LessIsTransitive(s[0], rest[0], rest[j]);
          }
        }
      }
    }
  }

  /** A strictly ordered list is determined by its members. */
  lemma {:induction false} StrictIsUnique(a: seq<string>, b: seq<string>)
    requires Strict(a) && Strict(b) && forall x :: x in a <==> x in b
    ensures a == b
    decreases |a|
  {
    assert b != [] ==> b[0] in b;
    if a != [] {
      assert a[0] in b;
      SameFirst(a, b);
      forall x ensures x in a[1..] <==> x in b[1..] {
        TailMembers(a, x);
        TailMembers(b, x);
      }
      StrictIsUnique(a[1..], b[1..]);
      assert a == [a[0]] + a[1..] && b == [b[0]] + b[1..];
    }
  }

  lemma SameFirst(a: seq<string>, b: seq<string>)
    requires Strict(a) && Strict(b) && a != [] && b != [] && a[0] in b && b[0] in a
    ensures a[0] == b[0]
  {
    var i :| 0 <= i < |b| && b[i] == a[0];
    var j :| 0 <= j < |a| && a[j] == b[0];
    if i > 0 && j > 0 {
      LessIsAsymmetric(b[0], b[i]);
    }
  }

  lemma {:induction false} LessIsIrreflexive(a: string)
    ensures !Less(a, a)
  {
    if a != "" {
      LessIsIrreflexive(a[1..]);
    }
  }

  lemma TailMembers(s: seq<string>, x: string)
    requires Strict(s) && s != []
    ensures x in s[1..] <==> x in s && x != s[0]
  {
    LessIsIrreflexive(s[0]);
    assert s == [s[0]] + s[1..];
  }

  lemma SortedMembers(sort: Sort, s: seq<string>)
    requires Sorts(sort)
    ensures Ordered(sort(s)) && forall x :: x in sort(s) <==> x in s
  {
    forall x ensures x in sort(s) <==> x in s {
      assert x in multiset(sort(s)) <==> x in multiset(s);
    }
  }

  /** Lists of groups come to the same canonical list exactly when they have the same members. */
  lemma GroupsExact(sort: Sort, a: seq<string>, b: seq<string>)
    requires Sorts(sort)
    ensures Compact(sort(a)) == Compact(sort(b)) <==> forall x :: x in a <==> x in b
  {
    SortedMembers(sort, a);
    SortedMembers(sort, b);
    CompactOfOrdered(sort(a));
    CompactOfOrdered(sort(b));
    if forall x :: x in a <==> x in b {
      StrictIsUnique(Compact(sort(a)), Compact(sort(b)));
    }
    if Compact(sort(a)) == Compact(sort(b)) {
      forall x ensures x in a <==> x in b {
        assert x in Compact(sort(a)) <==> x in a;
      }
    }
  }

  ghost predicate SameGroups(a: seq<string>, b: seq<string>) {
    forall x :: x in a <==> x in b
  }

  /** Two scopes share a key exactly when they ask the same of the same visible model and group pairs. */
  lemma CanonicalExactly(a: Scope, b: Scope, sort: Sort)
    requires Sorts(sort)
    ensures Canonical(a, sort) == Canonical(b, sort) <==>
              && a.endpoint == b.endpoint && a.model == b.model && a.group == b.group
              && ClampHours(a.hours) == ClampHours(b.hours) && a.bucketSeconds == b.bucketSeconds
              && a.models.Keys == b.models.Keys
              && forall name :: name in a.models ==> SameGroups(a.models[name], b.models[name])
  {
    var ca, cb := Canonical(a, sort).models, Canonical(b, sort).models;
    assert ca.Keys == a.models.Keys && cb.Keys == b.models.Keys;
    if a.models.Keys == b.models.Keys {
      forall name | name in a.models ensures ca[name] == cb[name] <==> SameGroups(a.models[name], b.models[name]) {
        GroupsExact(sort, a.models[name], b.models[name]);
      }
    }
    if Canonical(a, sort) == Canonical(b, sort) {
      assert ca == cb;
    }
  }
}
