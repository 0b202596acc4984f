/** Memory pressure read from the cgroups of the process, from its own group up to the mount. */
module CgroupModel {
  import opened Options
  import opened Text
  import opened Paths

  /** The content of a file, or None if it cannot be read. */
  type Files = string -> Option<string>

  /** A line of /proc/self/cgroup with its three fields. */
  datatype Membership = Membership(hierarchy: string, controllers: string, path: string)

  /** What a line of /proc/self/mountinfo says of its mount, unescaped. */
  datatype MountLine = MountLine(root: string, mountpoint: string, fsType: string, options: string)

  datatype Mount = Mount(root: string, mountpoint: string, leaf: string, v2: bool)

  predicate HasController(controllers: string, name: string) {
    name in Split(controllers, ',')
  }

  // ---------------------------------------------------------------------------------------
  // The lines of the two files
  // ---------------------------------------------------------------------------------------

  /** Where a text first occurs in another, or -1. */
  function Find(s: string, sub: string): (i: int)
    ensures i == -1 || (0 <= i && i + |sub| <= |s| && s[i..i + |sub|] == sub)
  {
    if HasPrefix(s, sub) then 0
    else if s == "" then -1
    else
      var i := Find(s[1..], sub);
      if i < 0 then -1 else i + 1
  }

  /** Two colons make three fields; the third may hold more of them. */
  function ParseMembership(line: string): Option<Membership> {
    var i := Find(line, ":");
    if i < 0 then None
    else
      var rest := line[i + 1..];
      var j := Find(rest, ":");
      if j < 0 then None else Some(Membership(line[..i], rest[..j], rest[j + 1..]))
  }

  function ParseMountLine(line: string): Option<MountLine> {
    var i := Find(line, " - ");
    if i < 0 then None
    else
      var left, right := Fields(line[..i]), Fields(line[i + 3..]);
      if |left| < 6 || |right| < 3 then None
      else Some(MountLine(Unescape(left[3]), Unescape(left[4]), right[0], right[2]))
  }

  /** The character written in octal at the beginning of a text, if there is one. */
  function Octal(s: string): (c: Option<char>)
    ensures c.Some? ==> |s| >= 4 && s[0] == '\\'
  {
    if |s| < 4 || s[0] != '\\' then None
    else if s[1] == '0' && s[2] == '4' && s[3] == '0' then Some(' ')
    else if s[1] == '0' && s[2] == '1' && s[3] == '1' then Some('\t')
    else if s[1] == '0' && s[2] == '1' && s[3] == '2' then Some('\n')
    else if s[1] == '1' && s[2] == '3' && s[3] == '4' then Some('\\')
    else None
  }

  /** Paths in mountinfo have their blanks and backslashes written in octal. */
  function Unescape(s: string): string {
    if s == "" then ""
    else if Octal(s).Some? then [Octal(s).value] + Unescape(s[4..])
    else [s[0]] + Unescape(s[1..])
  }

  function Memberships(lines: seq<string>): seq<Membership>
    decreases |lines|
  {
    if lines == [] then []
    else
      var parsed := ParseMembership(lines[|lines| - 1]);
      Memberships(lines[..|lines| - 1]) + if parsed.Some? then [parsed.value] else []
  }

  function MountLines(lines: seq<string>): seq<MountLine>
    decreases |lines|
  {
    if lines == [] then []
    else
      var parsed := ParseMountLine(lines[|lines| - 1]);
      MountLines(lines[..|lines| - 1]) + if parsed.Some? then [parsed.value] else []
  }

  // ---------------------------------------------------------------------------------------
  // Mounts
  // ---------------------------------------------------------------------------------------

  /** The last line for the unified hierarchy, and the last other one with the controller. */
  function UnifiedPath(lines: seq<Membership>): string
    decreases |lines|
  {
    if lines == [] then ""
    else
      var l := lines[|lines| - 1];
      if l.hierarchy == "0" && l.controllers == "" then l.path else UnifiedPath(lines[..|lines| - 1])
  }

  function ControllerPath(lines: seq<Membership>, controller: string): string
    decreases |lines|
  {
    if lines == [] then ""
    else
      var l := lines[|lines| - 1];
      if !(l.hierarchy == "0" && l.controllers == "") && HasController(l.controllers, controller) then l.path
      else ControllerPath(lines[..|lines| - 1], controller)
  }

  /** The process is in the part of the hierarchy that the mount shows. */
  predicate Inside(processPath: string, root: string) {
    root == "/" || processPath == root || HasPrefix(processPath, root + "/")
  }

  function TrimPrefix(s: string, prefix: string): string {
    if HasPrefix(s, prefix) then s[|prefix|..] else s
  }

  function MountOf(line: MountLine, processPath: string, v2: bool, controller: string): Option<Mount> {
    if (if v2 then line.fsType != "cgroup2" else line.fsType != "cgroup" || !HasController(line.options, controller)) then None
    else if !ValidPath(line.root) || !ValidPath(line.mountpoint) || !Inside(processPath, line.root) then None
    else Some(Mount(line.root, line.mountpoint, JoinPath(line.mountpoint, TrimPrefix(processPath, line.root)), v2))
  }

  function MountsFor(lines: seq<MountLine>, processPath: string, v2: bool, controller: string): seq<Mount>
    decreases |lines|
  {
    if lines == [] then []
    else
      var n := |lines| - 1;
      var mount := MountOf(lines[n], processPath, v2, controller);
      MountsFor(lines[..n], processPath, v2, controller) + if mount.Some? then [mount.value] else []
  }

  /** An explicitly assigned controller of the first kind wins over the unified hierarchy. */
  function ProcessMounts(memberships: seq<Membership>, lines: seq<MountLine>, controller: string): seq<Mount> {
    var v1Path := ControllerPath(memberships, controller);
    var processPath := if v1Path == "" then UnifiedPath(memberships) else v1Path;
    if !ValidPath(processPath) then [] else MountsFor(lines, processPath, v1Path == "", controller)
  }

  /** The mounts that the contents of /proc/self/cgroup and /proc/self/mountinfo tell of; none if either cannot be read. */
  function MountsOf(cgroups: Option<string>, mountinfo: Option<string>, controller: string): seq<Mount> {
    if cgroups.None? || mountinfo.None? then []
    else ProcessMounts(Memberships(Split(cgroups.value, '\n')), MountLines(Split(mountinfo.value, '\n')), controller)
  }

  // ---------------------------------------------------------------------------------------
  // One level
  // ---------------------------------------------------------------------------------------

  const MAX_INT64 := 0x7FFF_FFFF_FFFF_FFFF
  const MAX_UINT64 := 0xFFFF_FFFF_FFFF_FFFF

  function ParseDigits(s: string): Option<nat>
    decreases |s|
  {
    if s == "" then Some(0)
    else
      var c, before := s[|s| - 1], ParseDigits(s[..|s| - 1]);
      if before.Some? && '0' <= c <= '9' then Some(10 * before.value + (c as int - '0' as int)) else None
  }

  /** A decimal number of 64 bits. */
  function ParseUint(s: string): Option<nat> {
    if s == "" then None
    else
      var n := ParseDigits(s);
      if n.Some? && n.value <= MAX_UINT64 then n else None
  }

  /** The words between white space. */
  function Fields(s: string): seq<string>
    decreases |s|
  {
    var t := TrimLeft(s, IsSpace);
    if t == "" then []
    else
      TrimLeftLength(s, IsSpace);
      var w := WordLength(t);
      [t[..w]] + Fields(t[w..])
  }

  function WordLength(s: string): (n: nat)
    ensures n <= |s| && (s != "" && !IsSpace(s[0]) ==> n > 0)
  {
    if s == "" || IsSpace(s[0]) then 0 else 1 + WordLength(s[1..])
  }

  lemma {:induction false} TrimLeftLength(s: string, f: char -> bool)
    ensures |TrimLeft(s, f)| <= |s| && (TrimLeft(s, f) != "" ==> !f(TrimLeft(s, f)[0]))
  {
    if s != "" && f(s[0]) {
      TrimLeftLength(s[1..], f);
    }
  }

  /** The figure on the first line that has the key and one more word. */
  function StatUint(lines: seq<string>, key: string): Option<nat> {
    if lines == [] then None
    else
      var fields := Fields(lines[0]);
      if |fields| == 2 && fields[0] == key then ParseUint(fields[1]) else StatUint(lines[1..], key)
  }

  function ReadUint(file: string, files: Files): Option<nat> {
    var content := files(file);
    if content.None? then None else ParseUint(TrimSpace(content.value))
  }

  /** The limit of a level, if it has one that is readable and finite. */
  function LimitAt(directory: string, v2: bool, files: Files, pageSize: nat): Option<nat>
    requires pageSize > 0
  {
    var limit := ReadUint(JoinPath(directory, if v2 then "memory.max" else "memory.limit_in_bytes"), files);
    if limit.None? || (!v2 && limit.value >= MAX_INT64 - MAX_INT64 % pageSize) then None else limit
  }

  /** A level of the first kind above the process's own counts only if it accounts for its children. */
  predicate Applies(mount: Mount, directory: string, files: Files) {
    mount.v2 || directory == mount.leaf ||
    (var h := files(JoinPath(directory, "memory.use_hierarchy")); h.Some? && TrimSpace(h.value) == "1")
  }

  function UsedAt(directory: string, v2: bool, files: Files): Option<nat> {
    ReadUint(JoinPath(directory, if v2 then "memory.current" else "memory.usage_in_bytes"), files)
  }

  /** The cache that could be reclaimed; nothing if the level does not tell. */
  function ReclaimableAt(directory: string, v2: bool, files: Files): nat {
    var stat := files(JoinPath(directory, "memory.stat"));
    var inactive := if stat.None? then None else StatUint(Split(stat.value, '\n'), if v2 then "inactive_file" else "total_inactive_file");
    if inactive.None? then 0 else inactive.value
  }

  /** What a level is charged with beyond that, never below zero. */
  function Charged(used: nat, reclaimable: nat): (charged: nat)
    ensures charged + reclaimable == used || (charged == 0 && used < reclaimable)
  {
    used - if reclaimable < used then reclaimable else used
  }

  /** What a level's files say. */
  datatype Level = Level(applies: bool, limit: Option<nat>, used: Option<nat>, reclaimable: nat)

  function LevelAt(mount: Mount, directory: string, files: Files, pageSize: nat): Level
    requires pageSize > 0
  {
    Level(Applies(mount, directory, files), LimitAt(directory, mount.v2, files, pageSize),
          UsedAt(directory, mount.v2, files), ReclaimableAt(directory, mount.v2, files))
  }

  /**
   The used share of the limit at one level. There is a reading exactly when the level applies, has a finite limit and
   tells its usage; it is full exactly when what is charged reaches the limit.
   */
  function Pressure(level: Level): (r: Option<real>)
    ensures r.Some? <==> level.applies && level.limit.Some? && level.used.Some?
    ensures r.Some? ==>
              var limit, charged := level.limit.value, Charged(level.used.value, level.reclaimable);
              && 0.0 <= r.value <= 100.0
              && (r.value < 100.0 <==> charged < limit)
              && (charged <= limit && limit > 0 ==> r.value * (limit as real) == charged as real * 100.0)
  {
    if !level.applies || level.limit.None? || level.used.None? then None
    else if level.limit.value == 0 then Some(100.0)
    else Share(Charged(level.used.value, level.reclaimable), level.limit.value)
  }

  function Share(charged: nat, limit: nat): (r: Option<real>)
    requires limit > 0
    ensures r.Some? && 0.0 <= r.value <= 100.0
    ensures r.value < 100.0 <==> charged < limit
    ensures charged <= limit ==> r.value * (limit as real) == charged as real * 100.0
  {
    var share := charged as real / limit as real;
    ShareBounds(charged as real, limit as real);
    Some(if share * 100.0 < 100.0 then share * 100.0 else 100.0)
  }

  lemma Positive(x: real, c: real)
    requires x > 0.0 && c > 0.0
    ensures x * c > 0.0
  {}

  lemma MulMono(a: real, b: real, c: real)
    requires c > 0.0
    ensures a < b ==> a * c < b * c
    ensures a >= b ==> a * c >= b * c
  {
    if a < b {
      Positive(b - a, c);
      assert (b - a) * c == b * c - a * c;
    } else if a > b {
      Positive(a - b, c);
      assert (a - b) * c == a * c - b * c;
    }
  }

  lemma QuotientBounds(q: real, charged: real, limit: real)
    requires charged >= 0.0 && limit > 0.0 && q * limit == charged
    ensures q >= 0.0 && (q < 1.0 <==> charged < limit)
  {
    assert 1.0 * limit == limit && 0.0 * limit == 0.0;
    MulMono(q, 1.0, limit);
    MulMono(q, 0.0, limit);
  }

  lemma Quotient(charged: real, limit: real)
    requires limit > 0.0
    ensures (charged / limit) * limit == charged
  {}

  lemma ShareBounds(charged: real, limit: real)
    requires charged >= 0.0 && limit > 0.0
    ensures charged / limit >= 0.0 && (charged / limit) * limit == charged
    ensures charged / limit < 1.0 <==> charged < limit
  {
    Quotient(charged, limit);
    QuotientBounds(charged / limit, charged, limit);
  }
}
