/**
 Lists of model names as ordered sets: trimmed, without blanks, each name once, in the order of
 first appearance.
 */
module NameLists {
  import opened Text

  predicate Clean(name: string) {
    name != "" && TrimSpace(name) == name
  }

  /** The names of `models`, trimmed, blanks dropped. */
  function Trimmed(models: seq<string>): seq<string> {
    if models == [] then []
    else
      var name := TrimSpace(models[0]);
      (if name == "" then [] else [name]) + Trimmed(models[1..])
  }

  /** The first occurrences. */
  function Uniq(list: seq<string>): seq<string>
    decreases |list|
  {
    if list == [] then []
    else
      var before, x := Uniq(list[..|list| - 1]), list[|list| - 1];
      if x in before then before else before + [x]
  }

  function Normalize(models: seq<string>): seq<string> {
    Uniq(Trimmed(models))
  }

  ghost predicate Distinct(list: seq<string>) {
    forall i, j :: 0 <= i < j < |list| ==> list[i] != list[j]
  }

  ghost predicate Normal(list: seq<string>) {
    Distinct(list) && forall x :: x in list ==> Clean(x)
  }

  lemma {:induction false} UniqIsDistinct(list: seq<string>)
    ensures Distinct(Uniq(list))
    ensures forall x :: x in Uniq(list) <==> x in list
    decreases |list|
  {
    if list != [] {
      var n := |list| - 1;
      UniqIsDistinct(list[..n]);
      assert list == list[..n] + [list[n]];
    }
  }

  /** Where a name first appears in a list. */
  function First(list: seq<string>, x: string): nat {
    if list == [] || list[0] == x then 0 else 1 + First(list[1..], x)
  }

  lemma {:induction false} FirstSnoc(list: seq<string>, x: string, last: string)
    ensures x in list ==> First(list + [last], x) == First(list, x) < |list|
    ensures x !in list ==> First(list, x) == |list| && (x == last ==> First(list + [last], x) == |list|)
  {
    if list != [] {
      assert (list + [last])[1..] == list[1..] + [last];
      FirstSnoc(list[1..], x, last);
    }
  }

  /** The first occurrences stand in the order of first appearance. */
  lemma {:induction false} UniqByFirst(list: seq<string>, i: nat, j: nat)
    requires i < j < |Uniq(list)|
    ensures First(list, Uniq(list)[i]) < First(list, Uniq(list)[j])
    decreases |list|
  {
    var n := |list| - 1;
    var before, x := list[..n], list[n];
    assert list == before + [x];
    UniqIsDistinct(before);
    assert Uniq(list)[i] == Uniq(before)[i] && Uniq(before)[i] in Uniq(before);
    FirstSnoc(before, Uniq(list)[i], x);
    FirstSnoc(before, Uniq(list)[j], x);
    if j < |Uniq(before)| {
      assert Uniq(before)[j] in Uniq(before);
      UniqByFirst(before, i, j);
    }
  }

  lemma {:induction false} TrimmedIsClean(models: seq<string>)
    ensures forall x :: x in Trimmed(models) ==> Clean(x)
    ensures forall x :: x in Trimmed(models) <==> x != "" && exists m :: m in models && TrimSpace(m) == x
  {
    if models != [] {
      TrimmedIsClean(models[1..]);
      TrimIsTight(models[0], IsSpace);
      assert models == [models[0]] + models[1..];
    }
  }

  /** Normalizing gives a normal list with just the trimmed names. */
  lemma NormalizeIsNormal(models: seq<string>)
    ensures Normal(Normalize(models))
    ensures forall x :: x in Normalize(models) <==> x != "" && exists m :: m in models && TrimSpace(m) == x
  {
    TrimmedIsClean(models);
    UniqIsDistinct(Trimmed(models));
  }

  /** And the names stand in the order in which they first appear. */
  lemma NormalizeByFirst(models: seq<string>, i: nat, j: nat)
    requires i < j < |Normalize(models)|
    ensures First(Trimmed(models), Normalize(models)[i]) < First(Trimmed(models), Normalize(models)[j])
  {
    UniqByFirst(Trimmed(models), i, j);
  }

  lemma {:induction false} TrimmedClean(list: seq<string>)
    requires forall x :: x in list ==> Clean(x)
    ensures Trimmed(list) == list
  {
    if list != [] {
      assert list[0] in list;
      TrimmedClean(list[1..]);
    }
  }

  lemma {:induction false} UniqDistinct(list: seq<string>)
    requires Distinct(list)
    ensures Uniq(list) == list
    decreases |list|
  {
    if list != [] {
      var n := |list| - 1;
      UniqDistinct(list[..n]);
      assert list[n] !in list[..n];
      assert list == list[..n] + [list[n]];
    }
  }

  /** Normalizing a normal list changes nothing. */
  lemma NormalizeNormal(list: seq<string>)
    requires Normal(list)
    ensures Normalize(list) == list
  {
    TrimmedClean(list);
    UniqDistinct(list);
  }

  // ---------------------------------------------------------------------------------------
  // Set operations that keep order
  // ---------------------------------------------------------------------------------------

  function Minus(list: seq<string>, other: seq<string>): seq<string> {
    if list == [] then []
    else (if list[0] in other then [] else [list[0]]) + Minus(list[1..], other)
  }

  function Both(list: seq<string>, other: seq<string>): seq<string> {
    if list == [] then []
    else (if list[0] in other then [list[0]] else []) + Both(list[1..], other)
  }

  function Filter(list: seq<string>, keep: string -> bool): seq<string> {
    if list == [] then []
    else (if keep(list[0]) then [list[0]] else []) + Filter(list[1..], keep)
  }

  function Merge(base: seq<string>, appended: seq<string>): seq<string> {
    Normalize(base) + Minus(Normalize(appended), Normalize(base))
  }

  function Subtract(base: seq<string>, removed: seq<string>): seq<string> {
    Minus(Normalize(base), Normalize(removed))
  }

  function Intersect(base: seq<string>, allowed: seq<string>): seq<string> {
    Both(Normalize(base), Normalize(allowed))
  }

  /** The first list is the second with some elements left out. */
  ghost predicate InOrder(part: seq<string>, whole: seq<string>)
    decreases |whole|
  {
    part == [] || (whole != [] && ((part[0] == whole[0] && InOrder(part[1..], whole[1..])) || InOrder(part, whole[1..])))
  }

  lemma {:induction false} MinusInOrder(list: seq<string>, other: seq<string>)
    ensures InOrder(Minus(list, other), list)
  {
    if list != [] {
      MinusInOrder(list[1..], other);
      if list[0] !in other {
        assert Minus(list, other)[1..] == Minus(list[1..], other);
      } else {
        assert Minus(list, other) == Minus(list[1..], other);
      }
    }
  }

  lemma {:induction false} BothInOrder(list: seq<string>, other: seq<string>)
    ensures InOrder(Both(list, other), list)
  {
    if list != [] {
      BothInOrder(list[1..], other);
      if list[0] in other {
        assert Both(list, other)[1..] == Both(list[1..], other);
      } else {
        assert Both(list, other) == Both(list[1..], other);
      }
    }
  }

  lemma {:induction false} MinusNormal(list: seq<string>, other: seq<string>)
    requires Normal(list)
    ensures Normal(Minus(list, other))
    ensures forall x :: x in Minus(list, other) <==> x in list && x !in other
  {
    if list != [] {
      var head, tail := list[0], list[1..];
      assert list == [head] + tail;
      MinusNormal(tail, other);
      ConsNormal(head, tail, Minus(tail, other), list);
    }
  }

  lemma {:induction false} BothNormal(list: seq<string>, other: seq<string>)
    requires Normal(list)
    ensures Normal(Both(list, other))
    ensures forall x :: x in Both(list, other) <==> x in list && x in other
  {
    if list != [] {
      var head, tail := list[0], list[1..];
      assert list == [head] + tail;
      BothNormal(tail, other);
      ConsNormal(head, tail, Both(tail, other), list);
    }
  }

  lemma {:induction false} FilterNormal(list: seq<string>, keep: string -> bool)
    requires Normal(list)
    ensures Normal(Filter(list, keep))
    ensures forall x :: x in Filter(list, keep) <==> x in list && keep(x)
  {
    if list != [] {
      var head, tail := list[0], list[1..];
      assert list == [head] + tail;
      FilterNormal(tail, keep);
      ConsNormal(head, tail, Filter(tail, keep), list);
    }
  }

  /** Putting the head back in front of a part of the tail. */
  lemma ConsNormal(head: string, tail: seq<string>, part: seq<string>, list: seq<string>)
    requires Normal(list) && list == [head] + tail && Normal(part) && forall x :: x in part ==> x in tail
    ensures Normal([head] + part)
    ensures forall x :: x in [head] + part <==> x == head || x in part
  {
    var l := [head] + part;
    forall i, j | 0 <= i < j < |l| ensures l[i] != l[j] {
      assert l[j] == part[j - 1] && part[j - 1] in part;
      if i > 0 {
        assert l[i] == part[i - 1];
      } else {
        assert list[0] == head;
        var k :| 0 <= k < |tail| && tail[k] == l[j];
        assert list[k + 1] == l[j];
      }
    }
    assert head in list;
  }

  lemma ConcatNormal(a: seq<string>, b: seq<string>)
    requires Normal(a) && Normal(b) && forall x :: x in a ==> x !in b
    ensures Normal(a + b)
    ensures forall x :: x in a + b <==> x in a || x in b
  {
    var l := a + b;
    forall i, j | 0 <= i < j < |l| ensures l[i] != l[j] {
      assert i < |a| ==> l[i] in a;
      assert j >= |a| ==> l[j] in b;
    }
  }

  /** Merging keeps the base in order and appends the new names in theirs: the union, once each. */
  lemma MergeIsUnion(base: seq<string>, appended: seq<string>)
    ensures Normal(Merge(base, appended)) && Normalize(base) <= Merge(base, appended)
    ensures forall x :: x in Merge(base, appended) <==> x in Normalize(base) || x in Normalize(appended)
  {
    NormalizeIsNormal(base);
    NormalizeIsNormal(appended);
    MinusNormal(Normalize(appended), Normalize(base));
    ConcatNormal(Normalize(base), Minus(Normalize(appended), Normalize(base)));
  }

  lemma SubtractIsDifference(base: seq<string>, removed: seq<string>)
    ensures Normal(Subtract(base, removed)) && InOrder(Subtract(base, removed), Normalize(base))
    ensures forall x :: x in Subtract(base, removed) <==> x in Normalize(base) && x !in Normalize(removed)
  {
    NormalizeIsNormal(base);
    MinusNormal(Normalize(base), Normalize(removed));
    MinusInOrder(Normalize(base), Normalize(removed));
  }

  lemma IntersectIsIntersection(base: seq<string>, allowed: seq<string>)
    ensures Normal(Intersect(base, allowed)) && InOrder(Intersect(base, allowed), Normalize(base))
    ensures forall x :: x in Intersect(base, allowed) <==> x in Normalize(base) && x in Normalize(allowed)
  {
    NormalizeIsNormal(base);
    BothNormal(Normalize(base), Normalize(allowed));
    BothInOrder(Normalize(base), Normalize(allowed));
  }

  lemma MinusStep(names: seq<string>, i: nat, other: seq<string>)
    requires i < |names|
    ensures Minus(names[i..], other) == (if names[i] in other then [] else [names[i]]) + Minus(names[i + 1..], other)
  {
    assert names[i..][1..] == names[i + 1..];
  }

  /** The merge as it runs: one pass over the appended names with a set of those seen. */
  method MergeModelNames(base: seq<string>, appended: seq<string>) returns (merged: seq<string>)
    ensures merged == Merge(base, appended)
  {
    var first, names := Normalize(base), Normalize(appended);
    NormalizeIsNormal(appended);
    merged := first;
    var seen := set x | x in first;
    var i := 0;
    while i < |names|
      invariant 0 <= i <= |names|
      invariant forall x :: x in seen <==> x in first || x in names[..i]
      invariant merged + Minus(names[i..], first) == first + Minus(names, first)
    {
      var name := names[i];
      MinusStep(names, i, first);
      assert names[..i + 1] == names[..i] + [name];
      assert name !in names[..i];
      ghost var rest := Minus(names[i + 1..], first);
      if name !in seen {
        seen := seen + {name};
        assert merged + ([name] + rest) == merged + [name] + rest;
        merged := merged + [name];
      } else {
        assert [] + rest == rest;
      }
      i := i + 1;
    }
  }
}
