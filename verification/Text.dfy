/**
 The string operations the models share. A string is a sequence of characters; how characters
 are encoded as bytes is not modelled.
 */
module Text {

  /** The characters Go's `unicode.IsSpace` accepts. */
  predicate IsSpace(c: char) {
    var n := c as int;
    || 9 <= n <= 13 || n == 0x20 || n == 0x85 || n == 0xA0 || n == 0x1680
    || 0x2000 <= n <= 0x200A || n == 0x2028 || n == 0x2029 || n == 0x202F || n == 0x205F || n == 0x3000
  }

  function TrimLeft(s: string, f: char -> bool): string {
    if s != "" && f(s[0]) then TrimLeft(s[1..], f) else s
  }

  function TrimRight(s: string, f: char -> bool): string
    decreases |s|
  {
    if s != "" && f(s[|s| - 1]) then TrimRight(s[..|s| - 1], f) else s
  }

  function Trim(s: string, f: char -> bool): string {
    TrimRight(TrimLeft(s, f), f)
  }

  function TrimSpace(s: string): string {
    Trim(s, IsSpace)
  }

  /** `strings.Trim` with a one-character cutset. */
  function TrimChar(s: string, c: char): string {
    Trim(s, x => x == c)
  }

  /** Nothing to trim at either end. */
  predicate Tight(s: string, f: char -> bool) {
    s == "" || (!f(s[0]) && !f(s[|s| - 1]))
  }

  lemma {:induction false} TrimLeftTight(s: string, f: char -> bool)
    ensures TrimLeft(s, f) == "" || !f(TrimLeft(s, f)[0])
  {
    if s != "" && f(s[0]) {
      TrimLeftTight(s[1..], f);
    }
  }

  lemma {:induction false} TrimRightTight(s: string, f: char -> bool)
    ensures Tight(TrimRight(s, f), f) || (s != "" && f(s[0]))
    ensures TrimRight(s, f) == "" || (s != "" && TrimRight(s, f)[0] == s[0])
    decreases |s|
  {
    if s != "" && f(s[|s| - 1]) {
      TrimRightTight(s[..|s| - 1], f);
    }
  }

  /** Trimming leaves nothing to trim, so trimming again changes nothing. */
  lemma TrimIsTight(s: string, f: char -> bool)
    ensures Tight(Trim(s, f), f) && Trim(Trim(s, f), f) == Trim(s, f)
  {
    TrimLeftTight(s, f);
    TrimRightTight(TrimLeft(s, f), f);
    TrimTight(Trim(s, f), f);
  }

  lemma TrimTight(s: string, f: char -> bool)
    requires Tight(s, f)
    ensures Trim(s, f) == s
  {}

  lemma {:induction false} TrimLeftSkips(s: string, f: char -> bool) returns (i: nat)
    ensures i <= |s| && TrimLeft(s, f) == s[i..]
    ensures (forall k :: 0 <= k < i ==> f(s[k])) && (i < |s| ==> !f(s[i]))
  {
    if s != "" && f(s[0]) {
      var j := TrimLeftSkips(s[1..], f);
      i := j + 1;
      assert forall k :: 0 < k < i ==> s[k] == s[1..][k - 1];
    } else {
      i := 0;
    }
  }

  lemma {:induction false} TrimRightSkips(s: string, f: char -> bool) returns (j: nat)
    ensures j <= |s| && TrimRight(s, f) == s[..j]
    ensures (forall k :: j <= k < |s| ==> f(s[k])) && (j > 0 ==> !f(s[j - 1]))
    decreases |s|
  {
    if s != "" && f(s[|s| - 1]) {
      j := TrimRightSkips(s[..|s| - 1], f);
    } else {
      j := |s|;
    }
  }

  /** The part of a text from its first to its last character that is not trimmed; nothing if all are. */
  ghost predicate Middle(s: string, f: char -> bool, i: nat, j: nat) {
    && i <= j <= |s|
    && (forall k :: 0 <= k < i ==> f(s[k])) && (forall k :: j <= k < |s| ==> f(s[k]))
    && (i < j ==> !f(s[i]) && !f(s[j - 1]))
  }

  /** Trimming leaves the middle. */
  lemma TrimIsMiddle(s: string, f: char -> bool) returns (i: nat, j: nat)
    ensures Middle(s, f, i, j) && Trim(s, f) == s[i..j]
  {
    i := TrimLeftSkips(s, f);
    var n := TrimRightSkips(s[i..], f);
    j := i + n;
    assert s[i..][..n] == s[i..j];
    forall k | j <= k < |s| ensures f(s[k]) {
      assert s[k] == s[i..][k - i];
    }
    if n > 0 {
      assert s[j - 1] == s[i..][n - 1];
    }
  }

  /** Trimming adds no character. */
  lemma {:induction false} TrimLeftKeeps(s: string, f: char -> bool)
    ensures forall c :: c in TrimLeft(s, f) ==> c in s
  {
    if s != "" && f(s[0]) {
      TrimLeftKeeps(s[1..], f);
    }
  }

  lemma {:induction false} TrimRightKeeps(s: string, f: char -> bool)
    ensures forall c :: c in TrimRight(s, f) ==> c in s
    decreases |s|
  {
    if s != "" && f(s[|s| - 1]) {
      TrimRightKeeps(s[..|s| - 1], f);
    }
  }

  lemma TrimKeeps(s: string, f: char -> bool)
    ensures forall c :: c in Trim(s, f) ==> c in s
  {
    TrimLeftKeeps(s, f);
    TrimRightKeeps(TrimLeft(s, f), f);
  }

  predicate HasPrefix(s: string, prefix: string) {
    |prefix| <= |s| && s[..|prefix|] == prefix
  }

  // ---------------------------------------------------------------------------------------
  // Splitting and joining
  // ---------------------------------------------------------------------------------------

  /** `strings.Split` with a one-character separator: always at least one part. */
  function Split(s: string, sep: char): (parts: seq<string>)
    ensures |parts| >= 1
  {
    if s == "" then [""]
    else
      var rest := Split(s[1..], sep);
      if s[0] == sep then [""] + rest else [[s[0]] + rest[0]] + rest[1..]
  }

  function Join(parts: seq<string>, sep: char): string {
    if parts == [] then ""
    else if |parts| == 1 then parts[0]
    else parts[0] + [sep] + Join(parts[1..], sep)
  }

  /** No part contains the separator. */
  ghost predicate Free(parts: seq<string>, sep: char) {
    forall i :: 0 <= i < |parts| ==> sep !in parts[i]
  }

  lemma {:induction false} SplitFree(s: string, sep: char)
    ensures Free(Split(s, sep), sep)
  {
    if s != "" {
      SplitFree(s[1..], sep);
      var rest := Split(s[1..], sep);
      if s[0] != sep {
        assert forall i :: 0 < i < |rest| ==> Split(s, sep)[i] == rest[i];
      }
    }
  }

  /** Splitting at a separator between two texts splits each of them. */
  lemma {:induction false} SplitConcat(a: string, b: string, sep: char)
    ensures Split(a + [sep] + b, sep) == Split(a, sep) + Split(b, sep)
  {
    var s := a + [sep] + b;
    if a == "" {
      assert s[1..] == b;
    } else {
      assert s[0] == a[0] && s[1..] == a[1..] + [sep] + b;
      SplitConcat(a[1..], b, sep);
    }
  }

  lemma {:induction false} SplitPart(a: string, b: string, sep: char)
    requires sep !in a
    ensures Split(a + [sep] + b, sep) == [a] + Split(b, sep)
  {
    var s := a + [sep] + b;
    if a == "" {
      assert s[1..] == b;
    } else {
      assert s[1..] == a[1..] + [sep] + b;
      SplitPart(a[1..], b, sep);
      assert s[0] == a[0] && [a[0]] + a[1..] == a;
      assert Split(s[1..], sep)[1..] == Split(b, sep);
    }
  }

  lemma {:induction false} SplitWhole(a: string, sep: char)
    requires sep !in a
    ensures Split(a, sep) == [a]
  {
    if a != "" {
      SplitWhole(a[1..], sep);
      assert [a[0]] + a[1..] == a;
    }
  }

  /** Splitting undoes joining when no part contains the separator. */
  lemma {:induction false} SplitJoin(parts: seq<string>, sep: char)
    requires parts != [] && Free(parts, sep)
    ensures Split(Join(parts, sep), sep) == parts
  {
    if |parts| == 1 {
      SplitWhole(parts[0], sep);
    } else {
      SplitPart(parts[0], Join(parts[1..], sep), sep);
      SplitJoin(parts[1..], sep);
    }
  }

  /** A character in front of the first part is in front of the joined text. */
  lemma JoinPrefix(c: char, parts: seq<string>, sep: char)
    requires parts != []
    ensures Join([[c] + parts[0]] + parts[1..], sep) == [c] + Join(parts, sep)
  {
    var list := [[c] + parts[0]] + parts[1..];
    assert list[1..] == parts[1..];
  }

  lemma JoinBlank(parts: seq<string>, sep: char)
    requires parts != []
    ensures Join([""] + parts, sep) == [sep] + Join(parts, sep)
  {
    assert ([""] + parts)[1..] == parts;
  }

  /** Joining undoes splitting. */
  lemma {:induction false} JoinSplit(s: string, sep: char)
    ensures Join(Split(s, sep), sep) == s
  {
    if s != "" {
      JoinSplit(s[1..], sep);
      assert s == [s[0]] + s[1..];
      JoinBlank(Split(s[1..], sep), sep);
      JoinPrefix(s[0], Split(s[1..], sep), sep);
    }
  }

  /** Joining two lists: one separator between what each joins to. */
  lemma {:induction false} JoinConcat(a: seq<string>, b: seq<string>, sep: char)
    requires a != [] && b != []
    ensures Join(a + b, sep) == Join(a, sep) + [sep] + Join(b, sep)
  {
    assert (a + b)[1..] == a[1..] + b;
    if |a| > 1 {
      JoinConcat(a[1..], b, sep);
    } else {
      assert a[1..] + b == b;
    }
  }

  /** The joined text has the first part's first character, and the last part's last one. */
  lemma {:induction false} JoinEnds(parts: seq<string>, sep: char)
    requires parts != []
    ensures parts[0] != "" ==> Join(parts, sep) != "" && Join(parts, sep)[0] == parts[0][0]
    ensures |parts| > 1 && parts[0] == "" ==> Join(parts, sep) != "" && Join(parts, sep)[0] == sep
    ensures parts[|parts| - 1] != "" ==>
              Join(parts, sep) != "" && Join(parts, sep)[|Join(parts, sep)| - 1] == parts[|parts| - 1][|parts[|parts| - 1]| - 1]
    ensures |parts| > 1 && parts[|parts| - 1] == "" ==> Join(parts, sep) != "" && Join(parts, sep)[|Join(parts, sep)| - 1] == sep
  {
    if |parts| > 1 {
      JoinEnds(parts[1..], sep);
    }
  }
}
