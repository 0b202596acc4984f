/** Rooted slash-separated paths: cleaning, joining and parents, as Go's `path` package has them. */
module Paths {
  import opened Text

  /** What cleaning leaves of a list of components: blanks and "." go, ".." takes the one before it along. */
  function Reduce(parts: seq<string>, stack: seq<string>): seq<string>
    decreases |parts|
  {
    if parts == [] then stack
    else if parts[0] == "" || parts[0] == "." then Reduce(parts[1..], stack)
    else if parts[0] == ".." then Reduce(parts[1..], if stack == [] then [] else stack[..|stack| - 1])
    else Reduce(parts[1..], stack + [parts[0]])
  }

  function Components(path: string): seq<string> {
    Reduce(Split(path, '/'), [])
  }

  function Render(components: seq<string>): string {
    "/" + Join(components, '/')
  }

  /** `path.Clean` of a path that begins with a slash. */
  function Clean(path: string): string {
    Render(Components(path))
  }

  predicate ValidPath(path: string) {
    HasPrefix(path, "/") && Clean(path) == path
  }

  /** `path.Join` of a rooted path and another element, which counts only if it is not empty. */
  function JoinPath(base: string, element: string): string {
    if element == "" then Clean(base) else Clean(base + "/" + element)
  }

  function LastSlash(s: string): (i: int)
    ensures -1 <= i < |s|
    decreases |s|
  {
    if s == "" then -1 else if s[|s| - 1] == '/' then |s| - 1 else LastSlash(s[..|s| - 1])
  }

  /** `path.Dir` of a rooted path: what comes before the last slash, cleaned. */
  function Parent(path: string): string {
    Clean(path[..LastSlash(path) + 1])
  }

  // ---------------------------------------------------------------------------------------
  // Components
  // ---------------------------------------------------------------------------------------

  /** A component that cleaning leaves alone. */
  predicate Proper(c: string) {
    c != "" && c != "." && c != ".." && '/' !in c
  }

  ghost predicate AllProper(cs: seq<string>) {
    forall i :: 0 <= i < |cs| ==> Proper(cs[i])
  }

  lemma {:induction false} ReduceProper(parts: seq<string>, stack: seq<string>)
    requires AllProper(parts)
    ensures Reduce(parts, stack) == stack + parts
  {
    if parts != [] {
      ReduceProper(parts[1..], stack + [parts[0]]);
      assert stack + [parts[0]] + parts[1..] == stack + parts;
    }
  }

  lemma {:induction false} ReduceIsProper(parts: seq<string>, stack: seq<string>)
    requires AllProper(stack) && Free(parts, '/')
    ensures AllProper(Reduce(parts, stack))
    decreases |parts|
  {
    if parts != [] {
      var c := parts[0];
      var next := if c == "" || c == "." then stack else if c == ".." then (if stack == [] then [] else stack[..|stack| - 1]) else stack + [c];
      ReduceIsProper(parts[1..], next);
    }
  }

  lemma {:induction false} ReduceConcat(a: seq<string>, b: seq<string>, stack: seq<string>)
    ensures Reduce(a + b, stack) == Reduce(b, Reduce(a, stack))
    decreases |a|
  {
    if a == [] {
      assert a + b == b;
    } else {
      var c := a[0];
      var next := if c == "" || c == "." then stack else if c == ".." then (if stack == [] then [] else stack[..|stack| - 1]) else stack + [c];
      assert (a + b)[1..] == a[1..] + b && (a + b)[0] == c;
      ReduceConcat(a[1..], b, next);
    }
  }

  /** Splitting a rendered path: an empty part before the slash, then the components. */
  lemma SplitRender(cs: seq<string>)
    requires AllProper(cs)
    ensures Split(Render(cs), '/') == [""] + (if cs == [] then [""] else cs)
  {
    SplitPart("", Join(cs, '/'), '/');
    assert "" + "/" + Join(cs, '/') == Render(cs);
    if cs != [] {
      SplitJoin(cs, '/');
    }
  }

  lemma ReduceBlank(parts: seq<string>, stack: seq<string>)
    ensures Reduce([""] + parts, stack) == Reduce(parts, stack)
  {
    assert ([""] + parts)[1..] == parts;
  }

  /** Rendering proper components and taking the path apart again gives them back. */
  lemma ComponentsRender(cs: seq<string>)
    requires AllProper(cs)
    ensures Components(Render(cs)) == cs
  {
    SplitRender(cs);
    ReduceBlank(if cs == [] then [""] else cs, []);
    if cs == [] {
      ReduceBlank([], []);
      assert [""] + [] == [""];
    } else {
      ReduceProper(cs, []);
      assert [] + cs == cs;
    }
  }

  lemma ComponentsAreProper(path: string)
    ensures AllProper(Components(path))
  {
    SplitFree(path, '/');
    ReduceIsProper(Split(path, '/'), []);
  }

  /** Cleaning a path gives a clean one, with the same components. */
  lemma CleanIsClean(path: string)
    ensures ValidPath(Clean(path)) && Components(Clean(path)) == Components(path)
  {
    ComponentsAreProper(path);
    ComponentsRender(Components(path));
  }

  lemma JoinPathComponents(base: string, element: string)
    ensures Components(JoinPath(base, element)) == Reduce(Split(element, '/'), Components(base))
  {
    CleanIsClean(base);
    if element == "" {
      assert Split("", '/') == [""];
    } else {
      CleanIsClean(base + "/" + element);
      SplitConcat(base, element, '/');
      ReduceConcat(Split(base, '/'), Split(element, '/'), []);
    }
  }

  lemma {:induction false} LastSlashAt(a: string, c: string)
    requires '/' !in c
    ensures LastSlash(a + "/" + c) == |a|
    decreases |c|
  {
    var s := a + "/" + c;
    if c == "" {
      assert s[|s| - 1] == '/';
    } else {
      var n := |c| - 1;
      assert s[..|s| - 1] == a + "/" + c[..n];
      assert s[|s| - 1] == c[n] && c[n] in c;
      LastSlashAt(a, c[..n]);
    }
  }

  /** A rendered path without its last component, and without the slash before it. */
  ghost function Stem(init: seq<string>): string {
    if init == [] then "" else Render(init)
  }

  lemma RenderSnoc(init: seq<string>, last: string)
    ensures Render(init + [last]) == Stem(init) + "/" + last
  {
    if init != [] {
      JoinConcat(init, [last], '/');
    }
  }

  lemma ComponentsStem(init: seq<string>)
    requires AllProper(init)
    ensures Components(Stem(init) + "/") == init
  {
    var stem := Stem(init);
    assert stem + "/" + "" == stem + "/";
    SplitConcat(stem, "", '/');
    ReduceConcat(Split(stem, '/'), Split("", '/'), []);
    ReduceBlank([], Components(stem));
    assert [""] + [] == [""];
    if init != [] {
      ComponentsRender(init);
    }
  }

  /** The parent drops the last component; the root is its own parent. */
  lemma ParentRender(cs: seq<string>)
    requires AllProper(cs)
    ensures Parent(Render(cs)) == Render(if cs == [] then [] else cs[..|cs| - 1])
  {
    var init, last := (if cs == [] then [] else cs[..|cs| - 1]), (if cs == [] then "" else cs[|cs| - 1]);
    if cs != [] {
      assert cs == init + [last];
      RenderSnoc(init, last);
    }
    assert Render(cs) == Stem(init) + "/" + last;
    LastSlashAt(Stem(init), last);
    assert Render(cs)[..|Stem(init)| + 1] == Stem(init) + "/";
    ComponentsStem(init);
  }

  /** The valid paths are the rooted lists of components other than blanks, "." and "..". */
  lemma ValidExactly(path: string)
    ensures ValidPath(path) <==> exists cs :: AllProper(cs) && path == Render(cs)
  {
    if ValidPath(path) {
      ComponentsAreProper(path);
    }
    if cs :| AllProper(cs) && path == Render(cs) {
      ComponentsRender(cs);
      assert path[..1] == "/";
    }
  }

  /** Going down to a component and up again leads back. */
  lemma DownAndUp(base: string, c: string)
    requires Proper(c)
    ensures Clean(base + "/" + c + "/" + "..") == Clean(base)
  {
    var stack := Components(base);
    SplitOne(base, c);
    ReduceProper([c], stack);
    SplitOne(base + "/" + c, "..");
    UpFrom(stack, c);
  }

  lemma UpFrom(stack: seq<string>, c: string)
    ensures Reduce([".."], stack + [c]) == stack
  {
    var parts := [".."];
    assert parts[1..] == [] && (stack + [c])[..|stack|] == stack;
    assert Reduce(parts, stack + [c]) == Reduce(parts[1..], (stack + [c])[..|stack|]);
  }

  /** A dot, or a second slash, changes nothing. */
  lemma DotsAreDropped(base: string)
    ensures Clean(base + "/" + ".") == Clean(base) && Clean(base + "/" + "") == Clean(base)
  {
    SplitOne(base, ".");
    SplitOne(base, "");
    assert ["."][1..] == [] && [""][1..] == [];
  }

  lemma SplitOne(base: string, part: string)
    requires '/' !in part
    ensures Components(base + "/" + part) == Reduce([part], Components(base))
  {
    SplitConcat(base, part, '/');
    SplitWhole(part, '/');
    ReduceConcat(Split(base, '/'), [part], []);
  }
}
