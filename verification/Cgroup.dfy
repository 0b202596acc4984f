/** The walk from the process's cgroup up to the mount, and the pressure it reports. */
module Cgroup {
  import opened Options
  import opened Text
  import opened Paths
  import opened CgroupModel

  // ---------------------------------------------------------------------------------------
  // Every mount that is found can be walked
  // ---------------------------------------------------------------------------------------

  /** The leaf lies at or below the mountpoint. */
  ghost predicate Below(mount: Mount) {
    && mount.mountpoint == Render(Components(mount.mountpoint))
    && mount.leaf == Render(Components(mount.leaf))
    && Components(mount.mountpoint) <= Components(mount.leaf)
  }

  lemma SamePart(pc: seq<string>, rc: seq<string>, tail: seq<string>)
    requires [""] + (if pc == [] then [""] else pc) == ([""] + rc) + tail && rc != [] && tail != []
    ensures pc == rc + tail
  {
    var whole := ([""] + rc) + tail;
    assert whole[1..] == rc + tail;
    assert |whole| > 2;
  }

  /** A clean path that begins with another and a slash has the other's components first. */
  lemma PrefixComponents(path: string, root: string)
    requires ValidPath(path) && ValidPath(root) && root != "/" && HasPrefix(path, root + "/")
    ensures var rest := path[|root| + 1..];
            path == root + "/" + rest && Components(path) == Components(root) + Split(rest, '/')
  {
    var rest := path[|root| + 1..];
    assert path == root + "/" + rest;
    ComponentsAreProper(path);
    ComponentsAreProper(root);
    SplitConcat(root, rest, '/');
    SplitRender(Components(path));
    SplitRender(Components(root));
    SamePart(Components(path), Components(root), Split(rest, '/'));
  }

  /** What is left of the process's path below the root, taken apart: its components there. */
  lemma RestComponents(processPath: string, root: string, base: seq<string>)
    requires ValidPath(processPath) && ValidPath(root) && Inside(processPath, root)
    ensures Components(root) <= Components(processPath)
    ensures Reduce(Split(TrimPrefix(processPath, root), '/'), base) == base + Components(processPath)[|Components(root)|..]
  {
    var pc, rc := Components(processPath), Components(root);
    var rest := TrimPrefix(processPath, root);
    ComponentsAreProper(processPath);
    if root == "/" {
      ComponentsRender([]);
      assert root == Render([]);
      assert processPath == "/" + Join(pc, '/');
      assert rest == Join(pc, '/');
      if pc == [] {
        BlankElement(base);
      } else {
        SplitJoin(pc, '/');
        ReduceProper(pc, base);
      }
    } else if processPath == root {
      assert rest == "";
      BlankElement(base);
    } else {
      PrefixComponents(processPath, root);
      var tail := processPath[|root| + 1..];
      assert rest == "" + "/" + tail;
      SplitPart("", tail, '/');
      ReduceBlank(Split(tail, '/'), base);
      assert Split(tail, '/') == pc[|rc|..];
      ReduceProper(pc[|rc|..], base);
    }
  }

  lemma BlankElement(base: seq<string>)
    ensures Reduce(Split("", '/'), base) == base && base + [] == base
  {
    ReduceBlank([], base);
    assert [""] + [] == [""];
  }

  /** The leaf's components are the mountpoint's, then the process's below the root. */
  lemma MountIsBelow(line: MountLine, processPath: string, v2: bool, controller: string)
    requires ValidPath(processPath) && MountOf(line, processPath, v2, controller).Some?
    ensures var mount := MountOf(line, processPath, v2, controller).value;
            && Below(mount) && Components(mount.root) <= Components(processPath)
            && Components(mount.leaf) == Components(mount.mountpoint) + Components(processPath)[|Components(mount.root)|..]
  {
    var mount := MountOf(line, processPath, v2, controller).value;
    var rest := TrimPrefix(processPath, line.root);
    RestComponents(processPath, line.root, Components(line.mountpoint));
    JoinPathComponents(line.mountpoint, rest);
    CleanIsClean(if rest == "" then line.mountpoint else line.mountpoint + "/" + rest);
  }

  lemma {:induction false} MountsAreBelow(lines: seq<MountLine>, processPath: string, v2: bool, controller: string)
    requires ValidPath(processPath)
    ensures forall i :: 0 <= i < |MountsFor(lines, processPath, v2, controller)| ==> Below(MountsFor(lines, processPath, v2, controller)[i])
    decreases |lines|
  {
    if lines != [] {
      var n := |lines| - 1;
      MountsAreBelow(lines[..n], processPath, v2, controller);
      if MountOf(lines[n], processPath, v2, controller).Some? {
        MountIsBelow(lines[n], processPath, v2, controller);
      }
    }
  }

  /** Every mount found for the process can be walked from its leaf to its mountpoint. */
  lemma ProcessMountsAreBelow(memberships: seq<Membership>, lines: seq<MountLine>, controller: string)
    ensures forall i :: 0 <= i < |ProcessMounts(memberships, lines, controller)| ==> Below(ProcessMounts(memberships, lines, controller)[i])
  {
    var v1Path := ControllerPath(memberships, controller);
    var processPath := if v1Path == "" then UnifiedPath(memberships) else v1Path;
    if ValidPath(processPath) {
      MountsAreBelow(lines, processPath, v1Path == "", controller);
    }
  }

  /** A controller assigned explicitly in the first kind of hierarchy decides the kind of every mount. */
  lemma {:induction false} AssignedControllerWins(memberships: seq<Membership>, lines: seq<MountLine>, controller: string, i: nat)
    requires i < |ProcessMounts(memberships, lines, controller)|
    ensures ProcessMounts(memberships, lines, controller)[i].v2 <==> ControllerPath(memberships, controller) == ""
  {
    var v1Path := ControllerPath(memberships, controller);
    SameKind(lines, if v1Path == "" then UnifiedPath(memberships) else v1Path, v1Path == "", controller, i);
  }

  lemma {:induction false} SameKind(lines: seq<MountLine>, processPath: string, v2: bool, controller: string, i: nat)
    requires i < |MountsFor(lines, processPath, v2, controller)|
    ensures MountsFor(lines, processPath, v2, controller)[i].v2 == v2
    decreases |lines|
  {
    var before := lines[..|lines| - 1];
    if i < |MountsFor(before, processPath, v2, controller)| {
      SameKind(before, processPath, v2, controller, i);
    }
  }

  lemma MountsOfAreBelow(cgroups: Option<string>, mountinfo: Option<string>, controller: string)
    ensures forall i :: 0 <= i < |MountsOf(cgroups, mountinfo, controller)| ==> Below(MountsOf(cgroups, mountinfo, controller)[i])
  {
    if cgroups.Some? && mountinfo.Some? {
      ProcessMountsAreBelow(Memberships(Split(cgroups.value, '\n')), MountLines(Split(mountinfo.value, '\n')), controller);
    }
  }

  /** How the kernel writes a path into mountinfo. */
  function EscapeChar(c: char): string {
    match c
    case ' ' => "\\040"
    case '\t' => "\\011"
    case '\n' => "\\012"
    case '\\' => "\\134"
    case _ => [c]
  }

  function Escape(s: string): string {
    if s == "" then "" else EscapeChar(s[0]) + Escape(s[1..])
  }

  lemma UnescapeChar(c: char, rest: string)
    ensures Unescape(EscapeChar(c) + rest) == [c] + Unescape(rest)
  {
    var s := EscapeChar(c) + rest;
    assert s[|EscapeChar(c)|..] == rest;
    assert forall i :: 0 <= i < |EscapeChar(c)| ==> s[i] == EscapeChar(c)[i];
  }

  /** Every path is read as the kernel meant it, also one with backslashes that look like escapes. */
  lemma {:induction false} UnescapeReads(s: string)
    ensures Unescape(Escape(s)) == s
  {
    if s != "" {
      UnescapeReads(s[1..]);
      UnescapeChar(s[0], Escape(s[1..]));
      assert s == [s[0]] + s[1..];
    }
  }

  // ---------------------------------------------------------------------------------------
  // The levels
  // ---------------------------------------------------------------------------------------

  /** The directories from the leaf up to the mountpoint. */
  function Levels(mount: Mount): (levels: seq<string>)
    requires Below(mount)
    ensures |levels| == |Components(mount.leaf)| - |Components(mount.mountpoint)| + 1
  {
    var leaf, top := Components(mount.leaf), |Components(mount.mountpoint)|;
    seq(|leaf| - top + 1, i requires 0 <= i <= |leaf| - top => Render(leaf[..|leaf| - i]))
  }

  /** A level's components: the leaf's, less one for each step up. */
  lemma LevelComponents(mount: Mount, i: nat)
    requires Below(mount) && i < |Levels(mount)|
    ensures AllProper(Components(mount.leaf))
    ensures var leaf := Components(mount.leaf);
            Levels(mount)[i] == Render(leaf[..|leaf| - i]) && Components(Levels(mount)[i]) == leaf[..|leaf| - i]
  {
    ComponentsAreProper(mount.leaf);
    ComponentsRender(Components(mount.leaf)[..|Components(mount.leaf)| - i]);
  }

  lemma LevelsDiffer(mount: Mount, i: nat, j: nat)
    requires Below(mount) && i < j < |Levels(mount)|
    ensures Levels(mount)[i] != Levels(mount)[j]
  {
    LevelComponents(mount, i);
    LevelComponents(mount, j);
    assert |Components(Levels(mount)[i])| != |Components(Levels(mount)[j])|;
  }

  lemma LevelEnds(mount: Mount)
    requires Below(mount)
    ensures Levels(mount)[0] == mount.leaf && Levels(mount)[|Levels(mount)| - 1] == mount.mountpoint
  {
    var leaf, top := Components(mount.leaf), |Components(mount.mountpoint)|;
    assert leaf[..|leaf|] == leaf && leaf[..top] == Components(mount.mountpoint);
  }

  lemma LevelParent(mount: Mount, i: nat)
    requires Below(mount) && i + 1 < |Levels(mount)|
    ensures Levels(mount)[i + 1] == Parent(Levels(mount)[i])
  {
    var leaf := Components(mount.leaf);
    LevelComponents(mount, i);
    LevelComponents(mount, i + 1);
    ParentRender(leaf[..|leaf| - i]);
    assert leaf[..|leaf| - i][..|leaf| - i - 1] == leaf[..|leaf| - (i + 1)];
  }

  /** Each level is there once; the walk begins at the leaf, goes from each to its parent and meets the mountpoint only at its end. */
  lemma LevelsAreTheWalk(mount: Mount)
    requires Below(mount)
    ensures var levels := Levels(mount);
            && levels[0] == mount.leaf && levels[|levels| - 1] == mount.mountpoint
            && (forall i :: 0 <= i < |levels| - 1 ==> levels[i + 1] == Parent(levels[i]) && levels[i] != mount.mountpoint)
            && (forall i, j :: 0 <= i < j < |levels| ==> levels[i] != levels[j])
  {
    var levels := Levels(mount);
    LevelEnds(mount);
    forall i, j | 0 <= i < j < |levels| ensures levels[i] != levels[j] {
      LevelsDiffer(mount, i, j);
    }
    forall i | 0 <= i < |levels| - 1 ensures levels[i + 1] == Parent(levels[i]) && levels[i] != mount.mountpoint {
      LevelParent(mount, i);
      LevelsDiffer(mount, i, |levels| - 1);
    }
  }

  // ---------------------------------------------------------------------------------------
  // The pressure
  // ---------------------------------------------------------------------------------------

  /** The greatest of the readings, if there is one. */
  ghost predicate Greatest(readings: seq<Option<real>>, r: Option<real>) {
    && (r.None? ==> forall i :: 0 <= i < |readings| ==> readings[i].None?)
    && (r.Some? ==> r in readings && forall i :: 0 <= i < |readings| && readings[i].Some? ==> readings[i].value <= r.value)
  }

  /** What a level reads, as a share of a hundred. */
  type Gauge = (Mount, string) -> Option<real>

  ghost predicate Percentage(gauge: Gauge) {
    forall mount, directory :: gauge(mount, directory).Some? ==> 0.0 <= gauge(mount, directory).value <= 100.0
  }

  function GaugeOf(files: Files, pageSize: nat): (gauge: Gauge)
    requires pageSize > 0
    ensures Percentage(gauge)
  {
    (mount, directory) => Pressure(LevelAt(mount, directory, files, pageSize))
  }

  function Readings(mount: Mount, gauge: Gauge): seq<Option<real>>
    requires Below(mount)
  {
    var levels := Levels(mount);
    seq(|levels|, i requires 0 <= i < |levels| => gauge(mount, levels[i]))
  }

  lemma NextReading(mount: Mount, gauge: Gauge, i: nat)
    requires Below(mount) && i < |Levels(mount)|
    ensures Readings(mount, gauge)[..i + 1] == Readings(mount, gauge)[..i] + [gauge(mount, Levels(mount)[i])]
    ensures i == |Levels(mount)| - 1 ==> Readings(mount, gauge)[..i + 1] == Readings(mount, gauge)
  {}

  /** One more reading. */
  lemma GreatestStep(readings: seq<Option<real>>, pressure: real, constrained: bool, next: Option<real>)
    requires Greatest(readings, if constrained then Some(pressure) else None)
    requires !constrained ==> pressure == 0.0
    requires next.Some? ==> next.value >= 0.0
    ensures Greatest(readings + [next],
                     if next.Some? then Some(if next.value > pressure then next.value else pressure)
                     else if constrained then Some(pressure) else None)
  {
    var all := readings + [next];
    assert all[|readings|] == next;
    assert forall i :: 0 <= i < |readings| ==> all[i] == readings[i];
    if constrained {
      var i :| 0 <= i < |readings| && readings[i] == Some(pressure);
      assert all[i] == Some(pressure);
    }
  }

  /**
   The walk from the leaf to the mountpoint. It ends, having read each level once, with the
   greatest pressure of all levels that gave a complete reading.
   */
  method MemoryPressure(mount: Mount, gauge: Gauge) returns (result: Option<real>)
    requires Below(mount) && Percentage(gauge)
    ensures Greatest(Readings(mount, gauge), result)
    ensures result.Some? ==> 0.0 <= result.value <= 100.0
  {
    ghost var levels, readings := Levels(mount), Readings(mount, gauge);
    LevelsAreTheWalk(mount);
    var pressure, constrained := 0.0, false;
    var directory := mount.leaf;
    ghost var i := 0;
    while true
      invariant 0 <= i < |levels| && directory == levels[i]
      invariant Greatest(readings[..i], if constrained then Some(pressure) else None)
      invariant 0.0 <= pressure <= 100.0 && (!constrained ==> pressure == 0.0)
      decreases |levels| - i
    {
      var current := gauge(mount, directory);
      GreatestStep(readings[..i], pressure, constrained, current);
      NextReading(mount, gauge, i);
      if current.Some? {
        pressure := if current.value > pressure then current.value else pressure;
        constrained := true;
      }
      if directory == mount.mountpoint {
        return if constrained then Some(pressure) else None;
      }
      directory := Parent(directory);
      i := i + 1;
    }
  }

  /** The readings of all mounts, one after the other. */
  ghost function AllReadings(mounts: seq<Mount>, gauge: Gauge): seq<Option<real>>
    requires forall i :: 0 <= i < |mounts| ==> Below(mounts[i])
    decreases |mounts|
  {
    if mounts == [] then []
    else AllReadings(mounts[..|mounts| - 1], gauge) + Readings(mounts[|mounts| - 1], gauge)
  }

  lemma GreatestConcat(a: seq<Option<real>>, b: seq<Option<real>>, x: Option<real>, y: Option<real>)
    requires Greatest(a, x) && Greatest(b, y)
    ensures Greatest(a + b, if y.None? || (x.Some? && x.value >= y.value) then x else y)
  {
    assert forall i :: 0 <= i < |a + b| ==> (a + b)[i] == if i < |a| then a[i] else b[i - |a|];
  }

  method GreatestPressure(mounts: seq<Mount>, gauge: Gauge) returns (result: Option<real>)
    requires Percentage(gauge) && forall i :: 0 <= i < |mounts| ==> Below(mounts[i])
    ensures Greatest(AllReadings(mounts, gauge), result)
    ensures result.Some? ==> 0.0 <= result.value <= 100.0
  {
    var pressure, constrained := 0.0, false;
    for i := 0 to |mounts|
      invariant 0.0 <= pressure <= 100.0 && (!constrained ==> pressure == 0.0)
      invariant Greatest(AllReadings(mounts[..i], gauge), if constrained then Some(pressure) else None)
    {
      var current := MemoryPressure(mounts[i], gauge);
      assert mounts[..i + 1][..i] == mounts[..i];
      GreatestConcat(AllReadings(mounts[..i], gauge), Readings(mounts[i], gauge), if constrained then Some(pressure) else None, current);
      if current.Some? {
        pressure := if current.value > pressure then current.value else pressure;
        constrained := true;
      }
    }
    assert mounts[..|mounts|] == mounts;
    return if constrained then Some(pressure) else None;
  }

  /** The greatest pressure of all levels of all mounts; the host's own figure exactly when no level gave one. */
  method CgroupMemoryUsage(host: real, files: Files, pageSize: nat) returns (usage: real)
    requires pageSize > 0
    ensures var mounts := MountsOf(files("/proc/self/cgroup"), files("/proc/self/mountinfo"), "memory");
            && (forall i :: 0 <= i < |mounts| ==> Below(mounts[i]))
            && exists r :: Greatest(AllReadings(mounts, GaugeOf(files, pageSize)), r)
                           && (if r.Some? then usage == r.value && 0.0 <= usage <= 100.0 else usage == host)
  {
    var cgroups, mountinfo := files("/proc/self/cgroup"), files("/proc/self/mountinfo");
    MountsOfAreBelow(cgroups, mountinfo, "memory");
    var mounts := ProcessCgroupMounts(cgroups, mountinfo, "memory");
    var result := GreatestPressure(mounts, GaugeOf(files, pageSize));
    assert Greatest(AllReadings(mounts, GaugeOf(files, pageSize)), result);
    return if result.Some? then result.value else host;
  }

  // ---------------------------------------------------------------------------------------
  // The scan of the two files
  // ---------------------------------------------------------------------------------------

  /** The process's paths, of the controller and of the unified hierarchy: the last line of each kind. */
  method ProcessPaths(lines: seq<string>, controller: string) returns (v1Path: string, v2Path: string)
    ensures v1Path == ControllerPath(Memberships(lines), controller) && v2Path == UnifiedPath(Memberships(lines))
  {
    v1Path, v2Path := "", "";
    for i := 0 to |lines|
      invariant v1Path == ControllerPath(Memberships(lines[..i]), controller)
      invariant v2Path == UnifiedPath(Memberships(lines[..i]))
    {
      ghost var before := Memberships(lines[..i]);
      MembershipStep(lines, i);
      var parsed := ParseMembership(lines[i]);
      if parsed.None? {
        assert before + [] == before;
        continue;
      }
      var l := parsed.value;
      PathStep(before, l, controller);
      if l.hierarchy == "0" && l.controllers == "" {
        v2Path := l.path;
      } else if HasController(l.controllers, controller) {
        v1Path := l.path;
      }
    }
    assert lines[..|lines|] == lines;
  }

  lemma MembershipStep(lines: seq<string>, i: nat)
    requires i < |lines|
    ensures var parsed := ParseMembership(lines[i]);
            Memberships(lines[..i + 1]) == Memberships(lines[..i]) + if parsed.Some? then [parsed.value] else []
  {
    assert lines[..i + 1][..i] == lines[..i];
  }

  lemma PathStep(before: seq<Membership>, l: Membership, controller: string)
    ensures UnifiedPath(before + [l]) == if l.hierarchy == "0" && l.controllers == "" then l.path else UnifiedPath(before)
    ensures ControllerPath(before + [l], controller) ==
            if !(l.hierarchy == "0" && l.controllers == "") && HasController(l.controllers, controller) then l.path
            else ControllerPath(before, controller)
  {
    assert (before + [l])[..|before|] == before;
  }

  lemma MountStep(lines: seq<string>, i: nat, processPath: string, v2: bool, controller: string)
    requires i < |lines|
    ensures var parsed := ParseMountLine(lines[i]);
            var mount := if parsed.Some? then MountOf(parsed.value, processPath, v2, controller) else None;
            MountsFor(MountLines(lines[..i + 1]), processPath, v2, controller) ==
            MountsFor(MountLines(lines[..i]), processPath, v2, controller) + if mount.Some? then [mount.value] else []
  {
    assert lines[..i + 1][..i] == lines[..i];
    var before, parsed := MountLines(lines[..i]), ParseMountLine(lines[i]);
    if parsed.Some? {
      assert (before + [parsed.value])[..|before|] == before;
    } else {
      assert before + [] == before;
    }
  }

  /** One line of mountinfo: passed over unless it is a mount of the right kind that shows the process's group. */
  method ScanLine(line: string, processPath: string, v2: bool, controller: string) returns (mount: Option<Mount>)
    ensures var parsed := ParseMountLine(line);
            mount == if parsed.Some? then MountOf(parsed.value, processPath, v2, controller) else None
  {
    var parsed := ParseMountLine(line);
    if parsed.None? {
      return None;
    }
    var l := parsed.value;
    if v2 {
      if l.fsType != "cgroup2" {
        return None;
      }
    } else if l.fsType != "cgroup" || !HasController(l.options, controller) {
      return None;
    }
    if !ValidPath(l.root) || !ValidPath(l.mountpoint) {
      return None;
    }
    if l.root != "/" && processPath != l.root && !HasPrefix(processPath, l.root + "/") {
      return None;
    }
    return Some(Mount(l.root, l.mountpoint, JoinPath(l.mountpoint, TrimPrefix(processPath, l.root)), v2));
  }

  /** The mounts as they are collected, line by line. */
  method ProcessCgroupMounts(cgroups: Option<string>, mountinfo: Option<string>, controller: string) returns (mounts: seq<Mount>)
    ensures mounts == MountsOf(cgroups, mountinfo, controller)
  {
    mounts := [];
    if cgroups.None? || mountinfo.None? {
      return;
    }
    var v1Path, v2Path := ProcessPaths(Split(cgroups.value, '\n'), controller);
    var processPath, v2 := v1Path, false;
    if processPath == "" {
      processPath, v2 := v2Path, true;
    }
    if !ValidPath(processPath) {
      return;
    }
    var lines := Split(mountinfo.value, '\n');
    for i := 0 to |lines|
      invariant mounts == MountsFor(MountLines(lines[..i]), processPath, v2, controller)
    {
      MountStep(lines, i, processPath, v2, controller);
      var mount := ScanLine(lines[i], processPath, v2, controller);
      if mount.Some? {
        mounts := mounts + [mount.value];
      }
    }
    assert lines[..|lines|] == lines;
  }
}
