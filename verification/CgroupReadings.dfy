/** What a level of the hierarchy reads, from the texts of its files. */
module CgroupReadings {
  import opened Options
  import opened Text
  import opened Decimals
  import opened Paths
  import opened CgroupModel
  import opened Cgroup

  // ---------------------------------------------------------------------------------------
  // Numbers and words
  // ---------------------------------------------------------------------------------------

  lemma {:induction false} ParseDigitsExactly(s: string)
    ensures ParseDigits(s).Some? <==> AllDigits(s)
    ensures ParseDigits(s).Some? ==> ParseDigits(s).value == Number(s)
    decreases |s|
  {
    if s != "" {
      var n := |s| - 1;
      ParseDigitsExactly(s[..n]);
      assert s == s[..n] + [s[n]];
    }
  }

  /** Exactly the strings of digits are numbers, up to the greatest of 64 bits. */
  lemma ParseUintExactly(s: string, n: nat)
    ensures ParseUint(s) == Some(n) <==> s != "" && AllDigits(s) && Number(s) == n && n <= 18446744073709551615
  {
    ParseDigitsExactly(s);
  }

  /** Every number of 64 bits is read back from its decimal. */
  lemma ParseReadsDecimal(n: nat)
    requires n <= 18446744073709551615
    ensures ParseUint(Decimal(n)) == Some(n)
  {
    DecimalReads(n);
    ParseUintExactly(Decimal(n), n);
  }

  /** A text without blanks. */
  ghost predicate Word(s: string) {
    s != "" && forall i :: 0 <= i < |s| ==> !IsSpace(s[i])
  }

  lemma {:induction false} WordLengthOf(w: string, rest: string)
    requires (forall i :: 0 <= i < |w| ==> !IsSpace(w[i])) && (rest == "" || IsSpace(rest[0]))
    ensures WordLength(w + rest) == |w|
  {
    if w == "" {
      assert w + rest == rest;
    } else {
      assert (w + rest)[1..] == w[1..] + rest && (w + rest)[0] == w[0];
      WordLengthOf(w[1..], rest);
    }
  }

  /** The first word of a line, and the rest of them. */
  lemma FieldsCons(w: string, rest: string)
    requires Word(w) && (rest == "" || IsSpace(rest[0]))
    ensures Fields(w + rest) == [w] + Fields(rest)
  {
    var s := w + rest;
    assert s[0] == w[0];
    assert TrimLeft(s, IsSpace) == s;
    WordLengthOf(w, rest);
    assert s[..|w|] == w && s[|w|..] == rest;
  }

  lemma FieldsBlank(c: char, s: string)
    requires IsSpace(c)
    ensures Fields([c] + s) == Fields(s)
  {
    var t := [c] + s;
    assert t[1..] == s;
    assert TrimLeft(t, IsSpace) == TrimLeft(s, IsSpace);
  }

  /** Words joined by blanks are told apart again. */
  lemma {:induction false} FieldsJoin(words: seq<string>)
    requires forall i :: 0 <= i < |words| ==> Word(words[i])
    ensures Fields(Join(words, ' ')) == words
  {
    if |words| == 1 {
      assert words[0] + "" == words[0];
      FieldsCons(words[0], "");
      assert words == [words[0]];
    } else if |words| > 1 {
      var rest := Join(words[1..], ' ');
      FieldsJoin(words[1..]);
      assert words[0] + [' '] + rest == words[0] + ([' '] + rest);
      FieldsCons(words[0], [' '] + rest);
      FieldsBlank(' ', rest);
      assert words == [words[0]] + words[1..];
    }
  }

  lemma DecimalIsWord(n: nat)
    ensures Word(Decimal(n))
  {
    DecimalReads(n);
  }

  // ---------------------------------------------------------------------------------------
  // Files
  // ---------------------------------------------------------------------------------------

  /** The file holds the number, with whatever blanks around it. */
  ghost predicate Holds(files: Files, file: string, n: nat) {
    files(file).Some? && TrimSpace(files(file).value) == Decimal(n)
  }

  lemma HoldsIsRead(files: Files, file: string, n: nat)
    requires Holds(files, file, n) && n <= 18446744073709551615
    ensures ReadUint(file, files) == Some(n)
  {
    ParseReadsDecimal(n);
  }

  /** The j-th line of the file is the key and the number, and no line before it is about the key. */
  ghost predicate Tells(lines: seq<string>, key: string, n: nat, j: nat) {
    && j < |lines| && lines[j] == key + " " + Decimal(n)
    && forall i :: 0 <= i < j ==> Fields(lines[i]) == [] || Fields(lines[i])[0] != key
  }

  lemma {:induction false} TellsIsRead(lines: seq<string>, key: string, n: nat, j: nat)
    requires Tells(lines, key, n, j) && Word(key) && n <= 18446744073709551615
    ensures StatUint(lines, key) == Some(n)
  {
    if j == 0 {
      DecimalIsWord(n);
      FieldsJoin([key, Decimal(n)]);
      assert [key, Decimal(n)][1..] == [Decimal(n)];
      assert Join([key, Decimal(n)], ' ') == key + " " + Decimal(n);
      ParseReadsDecimal(n);
    } else {
      TellsIsRead(lines[1..], key, n, j - 1);
    }
  }

  /** The cache that could be reclaimed is given by the line for it, or there is no such file. */
  ghost predicate Inactive(files: Files, file: string, key: string, n: nat) {
    var stat := files(file);
    if stat.None? then n == 0 else exists j: nat :: Tells(Split(stat.value, '\n'), key, n, j)
  }

  // ---------------------------------------------------------------------------------------
  // Readings
  // ---------------------------------------------------------------------------------------

  /** The used share in percent, less the reclaimable cache and not above a hundred. */
  function Percent(limit: nat, used: nat, inactive: nat): real
    requires limit > 0
  {
    var charged := if inactive < used then used - inactive else 0;
    var share := 100.0 * (charged as real) / (limit as real);
    if share < 100.0 then share else 100.0
  }

  lemma PressureIsPercent(limit: nat, used: nat, inactive: nat)
    requires limit > 0
    ensures Pressure(Level(true, Some(limit), Some(used), inactive)) == Some(Percent(limit, used, inactive))
  {
    var charged := Charged(used, inactive);
    Scaled(charged as real, limit as real);
  }

  lemma Scaled(charged: real, limit: real)
    requires limit > 0.0
    ensures charged / limit * 100.0 == 100.0 * charged / limit
  {
    Quotient(charged, limit);
    Quotient(100.0 * charged, limit);
    SameQuotient(charged / limit * 100.0, 100.0 * charged / limit, limit);
  }

  lemma SameQuotient(p: real, q: real, c: real)
    requires c > 0.0 && p * c == q * c
    ensures p == q
  {
    MulMono(p, q, c);
    MulMono(q, p, c);
  }

  lemma InactiveIsRead(directory: string, v2: bool, files: Files, n: nat)
    requires n <= 18446744073709551615
    requires Inactive(files, JoinPath(directory, "memory.stat"), if v2 then "inactive_file" else "total_inactive_file", n)
    ensures ReclaimableAt(directory, v2, files) == n
  {
    var key := if v2 then "inactive_file" else "total_inactive_file";
    var stat := files(JoinPath(directory, "memory.stat"));
    if stat.Some? {
      var lines := Split(stat.value, '\n');
      var j: nat :| Tells(lines, key, n, j);
      assert Word(key);
      TellsIsRead(lines, key, n, j);
    }
  }

  /**
   A level of the unified hierarchy whose files hold the decimals of a limit, a usage and an amount of
   inactive cache reads the share of the limit that is in use and not reclaimable.
   */
  lemma UnifiedReading(mount: Mount, directory: string, files: Files, pageSize: nat, limit: nat, used: nat, inactive: nat)
    requires mount.v2 && pageSize > 0 && 0 < limit
    requires limit <= 18446744073709551615 && used <= 18446744073709551615 && inactive <= 18446744073709551615
    requires Holds(files, JoinPath(directory, "memory.max"), limit) && Holds(files, JoinPath(directory, "memory.current"), used)
    requires Inactive(files, JoinPath(directory, "memory.stat"), "inactive_file", inactive)
    ensures GaugeOf(files, pageSize)(mount, directory) == Some(Percent(limit, used, inactive))
  {
    HoldsIsRead(files, JoinPath(directory, "memory.max"), limit);
    HoldsIsRead(files, JoinPath(directory, "memory.current"), used);
    InactiveIsRead(directory, true, files, inactive);
    assert LevelAt(mount, directory, files, pageSize) == Level(true, Some(limit), Some(used), inactive);
    PressureIsPercent(limit, used, inactive);
  }

  /** The limit above which a level of the first kind counts as unlimited: the greatest number of pages. */
  function Unlimited(pageSize: nat): nat
    requires pageSize > 0
  {
    9223372036854775807 - 9223372036854775807 % pageSize
  }

  /** The same for the first kind of hierarchy, with its file names; above the process's own group only where usage is hierarchical. */
  lemma FirstKindReading(mount: Mount, directory: string, files: Files, pageSize: nat, limit: nat, used: nat, inactive: nat)
    requires !mount.v2 && pageSize > 0 && 0 < limit < Unlimited(pageSize)
    requires used <= 18446744073709551615 && inactive <= 18446744073709551615
    requires directory == mount.leaf || Holds(files, JoinPath(directory, "memory.use_hierarchy"), 1)
    requires Holds(files, JoinPath(directory, "memory.limit_in_bytes"), limit)
    requires Holds(files, JoinPath(directory, "memory.usage_in_bytes"), used)
    requires Inactive(files, JoinPath(directory, "memory.stat"), "total_inactive_file", inactive)
    ensures GaugeOf(files, pageSize)(mount, directory) == Some(Percent(limit, used, inactive))
  {
    HoldsIsRead(files, JoinPath(directory, "memory.limit_in_bytes"), limit);
    HoldsIsRead(files, JoinPath(directory, "memory.usage_in_bytes"), used);
    InactiveIsRead(directory, false, files, inactive);
    assert Decimal(1) == "1";
    assert LevelAt(mount, directory, files, pageSize) == Level(true, Some(limit), Some(used), inactive);
    PressureIsPercent(limit, used, inactive);
  }

  /** A limit of nothing is full, whatever the usage. */
  lemma ZeroLimitIsFull(mount: Mount, directory: string, files: Files, pageSize: nat, used: nat)
    requires mount.v2 && pageSize > 0 && used <= 18446744073709551615
    requires Holds(files, JoinPath(directory, "memory.max"), 0) && Holds(files, JoinPath(directory, "memory.current"), used)
    ensures GaugeOf(files, pageSize)(mount, directory) == Some(100.0)
  {
    HoldsIsRead(files, JoinPath(directory, "memory.max"), 0);
    HoldsIsRead(files, JoinPath(directory, "memory.current"), used);
  }

  /** Levels without a reading: no limit, by the word or by the number for it, or usage that is not hierarchical. */
  lemma NoReading(mount: Mount, directory: string, files: Files, pageSize: nat, limit: nat)
    requires pageSize > 0
    requires
      || (mount.v2 && files(JoinPath(directory, "memory.max")) in {None, Some("max\n")})
      || (!mount.v2 && Holds(files, JoinPath(directory, "memory.limit_in_bytes"), limit) && Unlimited(pageSize) <= limit <= 18446744073709551615)
      || (!mount.v2 && directory != mount.leaf && files(JoinPath(directory, "memory.use_hierarchy")) in {None, Some("0\n")})
    ensures GaugeOf(files, pageSize)(mount, directory) == None
  {
    if mount.v2 {
      MaxIsNoNumber();
    } else {
      ZeroIsNotOne();
      if Holds(files, JoinPath(directory, "memory.limit_in_bytes"), limit) && limit <= 18446744073709551615 {
        HoldsIsRead(files, JoinPath(directory, "memory.limit_in_bytes"), limit);
      }
    }
  }

  lemma MaxIsNoNumber()
    ensures ParseUint(TrimSpace("max\n")) == None
  {
    TrimOne("max", '\n');
    ParseDigitsExactly("max");
    assert !Digit("max"[0]);
  }

  lemma ZeroIsNotOne()
    ensures TrimSpace("0\n") == "0"
  {
    TrimOne("0", '\n');
  }

  /** A blank behind a word is trimmed. */
  lemma TrimOne(w: string, c: char)
    requires Word(w) && IsSpace(c)
    ensures TrimSpace(w + [c]) == w
  {
    var s := w + [c];
    assert s[0] == w[0] && TrimLeft(s, IsSpace) == s;
    assert s[..|s| - 1] == w;
    assert TrimRight(s, IsSpace) == TrimRight(w, IsSpace);
  }
}
