/** The two files the mounts are found in, as the kernel writes them. */
module CgroupScan {
  import opened Options
  import opened Text
  import opened Paths
  import opened CgroupModel
  import opened Cgroup
  import opened CgroupReadings

  // ---------------------------------------------------------------------------------------
  // A line of /proc/self/cgroup
  // ---------------------------------------------------------------------------------------

  lemma {:induction false} FindChar(a: string, c: char, b: string)
    requires c !in a
    ensures Find(a + [c] + b, [c]) == |a|
  {
    var s := a + [c] + b;
    if a == "" {
      assert s[..1] == [c];
    } else {
      assert s[0] == a[0] && s[..1] == [a[0]];
      assert s[1..] == a[1..] + [c] + b;
      FindChar(a[1..], c, b);
    }
  }

  /** Number, controllers and path, set apart by colons; the path may hold more of them. */
  lemma MembershipReads(hierarchy: string, controllers: string, path: string)
    requires ':' !in hierarchy && ':' !in controllers
    ensures ParseMembership(hierarchy + ":" + controllers + ":" + path) == Some(Membership(hierarchy, controllers, path))
  {
    var rest := controllers + ":" + path;
    var line := hierarchy + ":" + controllers + ":" + path;
    assert line == hierarchy + ":" + rest;
    FindChar(hierarchy, ':', rest);
    assert line[..|hierarchy|] == hierarchy && line[|hierarchy| + 1..] == rest;
    FindChar(controllers, ':', path);
    assert rest[..|controllers|] == controllers && rest[|controllers| + 1..] == path;
  }

  // ---------------------------------------------------------------------------------------
  // A line of /proc/self/mountinfo
  // ---------------------------------------------------------------------------------------

  /** No blank in a word, so no separator begins inside it. */
  lemma {:induction false} FindPastWord(w: string, rest: string)
    requires (forall i :: 0 <= i < |w| ==> !IsSpace(w[i])) && Find(rest, " - ") >= 0
    ensures Find(w + rest, " - ") == |w| + Find(rest, " - ")
  {
    var s := w + rest;
    if w == "" {
      assert s == rest;
    } else {
      assert s[0] == w[0] && s[1..] == w[1..] + rest;
      FindPastWord(w[1..], rest);
    }
  }

  lemma FindSeparator(right: string)
    ensures Find(" - " + right, " - ") == 0
  {}

  /** A blank before a word that is not a dash does not begin the separator. */
  lemma FindPastBlank(w: string, more: string, s: string)
    requires Word(w) && w != "-" && s == w + more && Find(s, " - ") >= 0
    ensures Find(" " + s, " - ") == 1 + Find(s, " - ")
  {
    var t := " " + s;
    assert t[1..] == s;
    NoDash(w, more, s);
  }

  lemma NoDash(w: string, more: string, s: string)
    requires Word(w) && w != "-" && s == w + more
    ensures !HasPrefix(" " + s, " - ")
  {
    var t := " " + s;
    assert t[1] == w[0];
    if |w| == 1 {
      assert w == [w[0]];
    } else {
      assert t[2] == w[1] && !IsSpace(w[1]);
      assert |t| >= 3 ==> t[..3][2] == t[2];
    }
  }

  ghost predicate Plain(words: seq<string>) {
    forall i :: 0 <= i < |words| ==> Word(words[i]) && words[i] != "-"
  }

  lemma JoinTail(words: seq<string>, tail: string)
    requires |words| > 1
    ensures Join(words, ' ') + tail == words[0] + (" " + (Join(words[1..], ' ') + tail))
  {}

  /** What begins with a separator is found behind the words before it. */
  lemma {:induction false} FindBehindWords(words: seq<string>, tail: string)
    requires words != [] && Plain(words) && Find(tail, " - ") == 0
    ensures Find(Join(words, ' ') + tail, " - ") == |Join(words, ' ')|
  {
    if |words| == 1 {
      FindPastWord(words[0], tail);
    } else {
      var s := Join(words[1..], ' ') + tail;
      FindBehindWords(words[1..], tail);
      var next, more := FirstWord(words[1..], tail);
      FindPastBlank(next, more, s);
      FindPastWord(words[0], " " + s);
      JoinTail(words, tail);
    }
  }

  /** A line of words begins with the first of them. */
  lemma FirstWord(words: seq<string>, tail: string) returns (w: string, more: string)
    requires words != [] && Plain(words)
    ensures Word(w) && w != "-" && Join(words, ' ') + tail == w + more
  {
    w := words[0];
    if |words| == 1 {
      more := tail;
    } else {
      more := " " + (Join(words[1..], ' ') + tail);
      JoinTail(words, tail);
    }
  }

  lemma CutLine(a: string, b: string)
    ensures a + " - " + b == a + (" - " + b)
    ensures (a + " - " + b)[..|a|] == a && (a + " - " + b)[|a| + 3..] == b
  {}

  lemma CutFields(a: string, b: string, left: seq<string>, right: seq<string>)
    requires Find(a + " - " + b, " - ") == |a| && Fields(a) == left && Fields(b) == right && |left| >= 6 && |right| >= 3
    ensures ParseMountLine(a + " - " + b) == Some(MountLine(Unescape(left[3]), Unescape(left[4]), right[0], right[2]))
  {
    CutLine(a, b);
  }

  /** Fields, the fourth and fifth of them the escaped root and mountpoint, then the separator, the kind and the options. */
  lemma MountLineReads(left: seq<string>, root: string, mountpoint: string, right: seq<string>)
    requires |left| >= 6 && |right| >= 3 && Plain(left) && Plain(right) && left[3] == Escape(root) && left[4] == Escape(mountpoint)
    ensures ParseMountLine(Join(left, ' ') + " - " + Join(right, ' ')) == Some(MountLine(root, mountpoint, right[0], right[2]))
  {
    var a, b := Join(left, ' '), Join(right, ' ');
    FindSeparator(b);
    FindBehindWords(left, " - " + b);
    CutLine(a, b);
    FieldsJoin(left);
    FieldsJoin(right);
    CutFields(a, b, left, right);
    UnescapeReads(root);
    UnescapeReads(mountpoint);
  }

  // ---------------------------------------------------------------------------------------
  // Both files
  // ---------------------------------------------------------------------------------------

  lemma OneLine(line: string)
    requires '\n' !in line
    ensures Split(line + "\n", '\n') == [line, ""]
  {
    assert line + ['\n'] + "" == line + "\n";
    SplitPart(line, "", '\n');
    assert Split("", '\n') == [""];
    assert [line] + [""] == [line, ""];
  }

  lemma EmptyLine()
    ensures ParseMembership("") == None && ParseMountLine("") == None
  {}

  lemma OneMembership(line: string, m: Membership)
    requires '\n' !in line && ParseMembership(line) == Some(m)
    ensures Memberships(Split(line + "\n", '\n')) == [m]
  {
    OneLine(line);
    EmptyLine();
    var lines := [line, ""];
    MembershipStep(lines, 0);
    MembershipStep(lines, 1);
    assert lines[..0] == [] && lines[..2] == lines && [] + [m] + [] == [m];
  }

  lemma MountLinesStep(lines: seq<string>, i: nat)
    requires i < |lines|
    ensures var parsed := ParseMountLine(lines[i]);
            MountLines(lines[..i + 1]) == MountLines(lines[..i]) + if parsed.Some? then [parsed.value] else []
  {
    assert lines[..i + 1][..i] == lines[..i];
  }

  lemma OneMountLine(line: string, m: MountLine)
    requires '\n' !in line && ParseMountLine(line) == Some(m)
    ensures MountLines(Split(line + "\n", '\n')) == [m]
  {
    OneLine(line);
    EmptyLine();
    var lines := [line, ""];
    MountLinesStep(lines, 0);
    MountLinesStep(lines, 1);
    assert lines[..0] == [] && lines[..2] == lines && [] + [m] + [] == [m];
  }

  lemma OneMount(m: MountLine, path: string, v2: bool, controller: string, mount: Mount)
    requires MountOf(m, path, v2, controller) == Some(mount)
    ensures MountsFor([m], path, v2, controller) == [mount]
  {
    assert [m][..0] == [];
  }

  /** One line each: the process's path and the one mount, if it is of the right kind and shows the path. */
  lemma OneEach(cgroups: string, mountinfo: string, who: Membership, m: MountLine, controller: string, v2: bool, mount: Mount)
    requires Memberships(Split(cgroups, '\n')) == [who] && MountLines(Split(mountinfo, '\n')) == [m]
    requires ControllerPath([who], controller) == (if v2 then "" else who.path) && (v2 ==> UnifiedPath([who]) == who.path)
    requires ValidPath(who.path) && MountOf(m, who.path, v2, controller) == Some(mount)
    ensures MountsOf(Some(cgroups), Some(mountinfo), controller) == [mount]
  {
    OneMount(m, who.path, v2, controller, mount);
  }

  lemma OnePath(who: Membership, controller: string)
    ensures UnifiedPath([who]) == if who.hierarchy == "0" && who.controllers == "" then who.path else ""
    ensures ControllerPath([who], controller) ==
            if !(who.hierarchy == "0" && who.controllers == "") && controller in Split(who.controllers, ',') then who.path else ""
  {
    PathStep([], who, controller);
    assert [] + [who] == [who];
  }

  /** A process of the unified hierarchy, at or below the root of a mount: the mount is found, with the process's group as its leaf. */
  lemma UnifiedMountFound(path: string, m: MountLine, mountinfo: string)
    requires ValidPath(path) && '\n' !in path && '\n' !in mountinfo && ParseMountLine(mountinfo) == Some(m)
    requires m.fsType == "cgroup2" && ValidPath(m.root) && ValidPath(m.mountpoint)
    requires m.root == "/" || path == m.root || HasPrefix(path, m.root + "/")
    ensures MountsOf(Some("0::" + path + "\n"), Some(mountinfo + "\n"), "memory") ==
            [Mount(m.root, m.mountpoint, JoinPath(m.mountpoint, TrimPrefix(path, m.root)), true)]
  {
    var line, who := "0::" + path, Membership("0", "", path);
    MembershipReads("0", "", path);
    assert "0" + ":" + "" + ":" + path == line;
    OneMembership(line, who);
    OneMountLine(mountinfo, m);
    OnePath(who, "memory");
    OneEach(line + "\n", mountinfo + "\n", who, m, "memory", true,
            Mount(m.root, m.mountpoint, JoinPath(m.mountpoint, TrimPrefix(path, m.root)), true));
  }

  /** A process with the memory controller assigned in the first kind of hierarchy. */
  lemma FirstKindMountFound(hierarchy: string, controllers: string, path: string, m: MountLine, mountinfo: string)
    requires ValidPath(path) && '\n' !in hierarchy && '\n' !in controllers && '\n' !in path && '\n' !in mountinfo
    requires ':' !in hierarchy && ':' !in controllers && ParseMountLine(mountinfo) == Some(m)
    requires controllers != "" && "memory" in Split(controllers, ',') && "memory" in Split(m.options, ',')
    requires m.fsType == "cgroup" && ValidPath(m.root) && ValidPath(m.mountpoint)
    requires m.root == "/" || path == m.root || HasPrefix(path, m.root + "/")
    ensures MountsOf(Some(hierarchy + ":" + controllers + ":" + path + "\n"), Some(mountinfo + "\n"), "memory") ==
            [Mount(m.root, m.mountpoint, JoinPath(m.mountpoint, TrimPrefix(path, m.root)), false)]
  {
    var line, who := hierarchy + ":" + controllers + ":" + path, Membership(hierarchy, controllers, path);
    MembershipReads(hierarchy, controllers, path);
    OneMembership(line, who);
    OneMountLine(mountinfo, m);
    OnePath(who, "memory");
    var mount := Mount(m.root, m.mountpoint, JoinPath(m.mountpoint, TrimPrefix(path, m.root)), false);
    FirstKindMount(m, path, mount);
    OneEach(line + "\n", mountinfo + "\n", who, m, "memory", false, mount);
  }

  lemma FirstKindMount(m: MountLine, path: string, mount: Mount)
    requires m.fsType == "cgroup" && "memory" in Split(m.options, ',') && ValidPath(m.root) && ValidPath(m.mountpoint)
    requires m.root == "/" || path == m.root || HasPrefix(path, m.root + "/")
    requires mount == Mount(m.root, m.mountpoint, JoinPath(m.mountpoint, TrimPrefix(path, m.root)), false)
    ensures MountOf(m, path, false, "memory") == Some(mount)
  {}
}
