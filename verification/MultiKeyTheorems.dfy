/** The keys of a channel keep their records through deletion, appending and storing. */
module MultiKeyTheorems {
  import opened Options
  import opened Text
  import opened NameLists
  import opened MultiKeyModel

  lemma {:induction false} KeptInRange(n: nat, drop: int -> bool)
    ensures forall j :: 0 <= j < |Kept(n, drop)| ==> 0 <= Kept(n, drop)[j] < n && !drop(Kept(n, drop)[j])
    ensures |Kept(n, drop)| <= n
  {
    if n > 0 {
      KeptInRange(n - 1, drop);
    }
  }

  lemma {:induction false} KeptKeysAt(keys: seq<string>, drop: int -> bool)
    ensures |KeptKeys(keys, drop)| == |Kept(|keys|, drop)|
    ensures forall j :: 0 <= j < |KeptKeys(keys, drop)| ==>
              0 <= Kept(|keys|, drop)[j] < |keys| && KeptKeys(keys, drop)[j] == keys[Kept(|keys|, drop)[j]]
    decreases |keys|
  {
    if keys != [] {
      KeptKeysAt(keys[..|keys| - 1], drop);
    }
  }

  /** The records at the kept positions. */
  ghost function Filtered(shown: seq<KeyStatus>, drop: int -> bool): seq<KeyStatus>
    decreases |shown|
  {
    if shown == [] then []
    else
      var n := |shown| - 1;
      Filtered(shown[..n], drop) + if drop(n) then [] else [shown[n]]
  }

  lemma {:induction false} FilteredIsKept(shown: seq<KeyStatus>, drop: int -> bool)
    ensures |Filtered(shown, drop)| == |Kept(|shown|, drop)|
    ensures forall j :: 0 <= j < |Filtered(shown, drop)| ==>
              0 <= Kept(|shown|, drop)[j] < |shown| && Filtered(shown, drop)[j] == shown[Kept(|shown|, drop)[j]]
    decreases |shown|
  {
    if shown != [] {
      var n := |shown| - 1;
      FilteredIsKept(shown[..n], drop);
    }
  }

  lemma {:induction false} MovedAt<T>(table: map<int, T>, at: seq<int>, carry: int -> bool, j: int)
    ensures j in Moved(table, at, carry) <==> 0 <= j < |at| && at[j] in table && carry(at[j])
    ensures j in Moved(table, at, carry) ==> Moved(table, at, carry)[j] == table[at[j]]
    decreases |at|
  {
    if at != [] {
      MovedAt(table, at[..|at| - 1], carry, j);
    }
  }

  lemma RebuiltInRange(info: Info, at: seq<int>, carry: int -> bool)
    ensures InRange(Rebuilt(info, at, carry))
  {
    forall j ensures j in Moved(info.status, at, Disabled(info)) ==> 0 <= j < |at| {
      MovedAt(info.status, at, Disabled(info), j);
    }
    forall j ensures j in Moved(info.time, at, carry) ==> 0 <= j < |at| {
      MovedAt(info.time, at, carry, j);
    }
    forall j ensures j in Moved(info.reason, at, carry) ==> 0 <= j < |at| {
      MovedAt(info.reason, at, carry, j);
    }
  }

  /** The rebuilt tables show the same record at the new position, if what a disabled key shows is carried over. */
  lemma MovedShows(key: string, info: Info, at: seq<int>, carry: int -> bool, j: nat)
    requires j < |at| && (StatusAt(info, at[j]) != ENABLED ==> carry(at[j]))
    ensures ShownAt(key, Rebuilt(info, at, carry), j) == ShownAt(key, info, at[j])
  {
    MovedAt(info.status, at, Disabled(info), j);
    MovedAt(info.time, at, carry, j);
    MovedAt(info.reason, at, carry, j);
  }

  /** Deleting one key: the others keep their order and their records, at their new positions. */
  lemma DeletionKeepsRecords(keys: seq<string>, info: Info, k: int)
    ensures Shown(KeptKeys(keys, Only(k)), WithoutKey(info, |keys|, k)) ==
            if 0 <= k < |keys| then Shown(keys, info)[..k] + Shown(keys, info)[k + 1..] else Shown(keys, info)
    ensures WithoutKey(info, |keys|, k).size == |KeptKeys(keys, Only(k))| && InRange(WithoutKey(info, |keys|, k))
  {
    var drop := Only(k);
    var at, moved, shown := Kept(|keys|, drop), WithoutKey(info, |keys|, k), Shown(keys, info);
    KeptKeysAt(keys, drop);
    FilteredIsKept(shown, drop);
    FilteredAllBut(shown, k);
    RebuiltInRange(info, at, Any());
    forall j | 0 <= j < |at| ensures ShownAt(keys[at[j]], moved, j) == Filtered(shown, drop)[j] {
      MovedShows(keys[at[j]], info, at, Any(), j);
    }
    assert Shown(KeptKeys(keys, drop), moved) == Filtered(shown, drop);
  }

  /** Deleting the automatically disabled keys: exactly they go. */
  lemma PurgeKeepsRecords(keys: seq<string>, info: Info)
    ensures var rest := KeptKeys(keys, AutoDisabled(info));
            && Shown(rest, WithoutAutoDisabled(info, |keys|)) == WithoutStatus(Shown(keys, info), 3)
            && WithoutAutoDisabled(info, |keys|).size == |rest| && InRange(WithoutAutoDisabled(info, |keys|))
  {
    var drop := AutoDisabled(info);
    var at, moved, shown := Kept(|keys|, drop), WithoutAutoDisabled(info, |keys|), Shown(keys, info);
    KeptKeysAt(keys, drop);
    FilteredIsKept(shown, drop);
    FilteredByStatus(shown, info, AUTO_DISABLED);
    RebuiltInRange(info, at, Disabled(info));
    forall j | 0 <= j < |at| ensures ShownAt(keys[at[j]], moved, j) == Filtered(shown, drop)[j] {
      MovedShows(keys[at[j]], info, at, Disabled(info), j);
    }
    assert Shown(KeptKeys(keys, drop), moved) == Filtered(shown, drop);
  }

  /** All records but one. */
  lemma {:induction false} FilteredAllBut(shown: seq<KeyStatus>, k: int)
    ensures Filtered(shown, Only(k)) == if 0 <= k < |shown| then shown[..k] + shown[k + 1..] else shown
    decreases |shown|
  {
    if shown != [] {
      var n := |shown| - 1;
      FilteredAllBut(shown[..n], k);
      assert shown == shown[..n] + [shown[n]];
      if 0 <= k < n {
        assert shown[..n][k + 1..] + [shown[n]] == shown[k + 1..];
      }
    }
  }

  /** All records but those with the given status. */
  ghost function WithoutStatus(shown: seq<KeyStatus>, status: int): seq<KeyStatus>
    decreases |shown|
  {
    if shown == [] then []
    else
      var n := |shown| - 1;
      WithoutStatus(shown[..n], status) + if shown[n].status == status then [] else [shown[n]]
  }

  lemma {:induction false} FilteredByStatus(shown: seq<KeyStatus>, info: Info, status: int)
    requires forall i :: 0 <= i < |shown| ==> shown[i].status == StatusAt(info, i)
    ensures Filtered(shown, i => StatusAt(info, i) == status) == WithoutStatus(shown, status)
    decreases |shown|
  {
    if shown != [] {
      FilteredByStatus(shown[..|shown| - 1], info, status);
    }
  }

  // ---------------------------------------------------------------------------------------
  // Reading back what was joined
  // ---------------------------------------------------------------------------------------

  /** Keys that one line each can hold, with something in the first and in the last. */
  ghost predicate Reloadable(keys: seq<string>) {
    keys != [] && Free(keys, '\n') && keys[0] != "" && keys[|keys| - 1] != ""
  }

  /** Keys whose joined text stands for them: as lines, or because it happens to be the array of them. */
  ghost predicate Readable(keys: seq<string>, parse: ArrayParser) {
    var text := Join(keys, '\n');
    if IsArray(text, parse) then parse(TrimSpace(text)) == Some(keys) else Reloadable(keys)
  }

  lemma {:induction false} JoinEmpty(keys: seq<string>, sep: char)
    ensures Join(keys, sep) == "" <==> keys == [] || keys == [""]
  {
    if |keys| == 1 {
      assert keys == [keys[0]];
    }
  }

  /** Lines are read back exactly when they are reloadable. */
  lemma LinesReadBack(keys: seq<string>)
    requires Join(keys, '\n') != ""
    ensures Lines(Join(keys, '\n')) == keys <==> Reloadable(keys)
  {
    var text := Join(keys, '\n');
    var newline := c => c == '\n';
    JoinEmpty(keys, '\n');
    JoinEnds(keys, '\n');
    if Reloadable(keys) {
      TrimTight(text, newline);
      SplitJoin(keys, '\n');
      assert TrimChar(text, '\n') == Trim(text, newline);
    }
    if Lines(text) == keys {
      var trimmed := TrimChar(text, '\n');
      SplitFree(trimmed, '\n');
      JoinSplit(trimmed, '\n');
      TrimIsTight(text, c => c == '\n');
    }
  }

  /** Keys joined by newlines are read back exactly when their text stands for them. */
  lemma ReadBackExactly(keys: seq<string>, parse: ArrayParser)
    ensures GetKeys(Join(keys, '\n'), parse) == keys <==> keys == [] || Readable(keys, parse)
  {
    JoinEmpty(keys, '\n');
    if Join(keys, '\n') != "" {
      LinesReadBack(keys);
    } else {
      assert !IsArray("", parse);
    }
  }

  // ---------------------------------------------------------------------------------------
  // Deletion, stored and read again
  // ---------------------------------------------------------------------------------------

  lemma ShownTellsKeys(keys: seq<string>, info: Info, keys': seq<string>, info': Info)
    requires Shown(keys, info) == Shown(keys', info')
    ensures keys == keys'
  {
    assert |keys| == |Shown(keys, info)| && |keys'| == |Shown(keys', info')|;
    forall i | 0 <= i < |keys| ensures keys[i] == keys'[i] {
      assert Shown(keys, info)[i].key == keys[i] && Shown(keys', info')[i].key == keys'[i];
    }
  }

  /** The keys read after storing. */
  lemma StoredKeys(row: Row, keys: seq<string>, info: Info, parse: ArrayParser)
    requires |GetKeys(row.key, parse)| > |keys|
    ensures GetKeys(Store(row, Join(keys, '\n'), info, parse).key, parse) == keys <==> Readable(keys, parse)
  {
    JoinEmpty(keys, '\n');
    ReadBackExactly(keys, parse);
    assert !IsArray("", parse);
  }

  lemma StoredInfo(row: Row, keys: seq<string>, info: Info, parse: ArrayParser)
    requires info.size == |keys| && InRange(info) && Readable(keys, parse)
    ensures Store(row, Join(keys, '\n'), info, parse).info == info
  {
    JoinEmpty(keys, '\n');
    assert !IsArray("", parse);
    LinesReadBack(keys);
    assert (map i | i in info.status && i < info.size :: info.status[i]) == info.status;
  }

  /** Whatever is stored, the size is the number of keys the text is counted as, and exactly the statuses below it are kept. */
  lemma StoreTrims(row: Row, key: string, info: Info, parse: ArrayParser, i: int)
    ensures var after := Store(row, key, info, parse);
            && after.key == (if key != "" then key else row.key) && after.info.size == |CountedKeys(after.key, parse)|
            && (i in after.info.status <==> i in info.status && i < after.info.size)
            && (i in after.info.status ==> after.info.status[i] == info.status[i])
            && after.info.time == info.time && after.info.reason == info.reason
  {}

  /** What is read after storing is what was stored, exactly when the joined text stands for the keys. */
  lemma StoredIsShown(row: Row, keys: seq<string>, info: Info, parse: ArrayParser)
    requires info.size == |keys| && InRange(info)
    requires |GetKeys(row.key, parse)| > |keys|
    ensures ShownRow(Store(row, Join(keys, '\n'), info, parse), parse) == Shown(keys, info) <==> Readable(keys, parse)
  {
    var after := Store(row, Join(keys, '\n'), info, parse);
    StoredKeys(row, keys, info, parse);
    if ShownRow(after, parse) == Shown(keys, info) {
      ShownTellsKeys(GetKeys(after.key, parse), after.info, keys, info);
    }
    if Readable(keys, parse) {
      StoredInfo(row, keys, info, parse);
    }
  }

  /** Deleting one key from the stored row. The other records are read back exactly when the joined text stands for the remaining keys. */
  lemma DeletionSticks(row: Row, k: int, parse: ArrayParser)
    requires 0 <= k < |GetKeys(row.key, parse)|
    ensures var keys, shown := GetKeys(row.key, parse), ShownRow(row, parse);
            var rest := KeptKeys(keys, Only(k));
            var after := Store(row, Join(rest, '\n'), WithoutKey(row.info, |keys|, k), parse);
            ShownRow(after, parse) == shown[..k] + shown[k + 1..] <==> Readable(rest, parse)
  {
    var keys := GetKeys(row.key, parse);
    DeletionKeepsRecords(keys, row.info, k);
    SomethingDropped(|keys|, Only(k), k);
    StoredIsShown(row, KeptKeys(keys, Only(k)), WithoutKey(row.info, |keys|, k), parse);
  }

  /** Deleting the automatically disabled keys from the stored row, when there is one. */
  lemma PurgeSticks(row: Row, k: int, parse: ArrayParser)
    requires 0 <= k < |GetKeys(row.key, parse)| && k in row.info.status && row.info.status[k] == 3
    ensures var keys := GetKeys(row.key, parse);
            var rest := KeptKeys(keys, AutoDisabled(row.info));
            var after := Store(row, Join(rest, '\n'), WithoutAutoDisabled(row.info, |keys|), parse);
            ShownRow(after, parse) == WithoutStatus(ShownRow(row, parse), 3) <==> Readable(rest, parse)
  {
    var keys := GetKeys(row.key, parse);
    PurgeKeepsRecords(keys, row.info);
    SomethingDropped(|keys|, AutoDisabled(row.info), k);
    StoredIsShown(row, KeptKeys(keys, AutoDisabled(row.info)), WithoutAutoDisabled(row.info, |keys|), parse);
  }

  lemma ThreeLines(parse: ArrayParser)
    ensures GetKeys("a\n\nb", parse) == ["a", "", "b"] && Join(["", "b"], '\n') == "\nb"
  {
    var keys := ["a", "", "b"];
    assert keys[1..] == ["", "b"] && ["", "b"][1..] == ["b"];
    assert Join(["b"], '\n') == "b" && Join(["", "b"], '\n') == "\nb" && Join(keys, '\n') == "a\n\nb";
    InkDecides("a\n\nb");
    ReadBackExactly(keys, parse);
  }

  /** A failing text: of the lines "a", "" and "b", deleting the first leaves two keys, and one is read back. */
  lemma BlankLineExample(info: Info, parse: ArrayParser)
    ensures GetKeys("a\n\nb", parse) == ["a", "", "b"] && KeptKeys(["a", "", "b"], Only(0)) == ["", "b"]
    ensures GetKeys(Store(Row("a\n\nb", info), Join(["", "b"], '\n'), WithoutKey(info, 3, 0), parse).key, parse) == ["b"]
  {
    ThreeLines(parse);
    KeptExample();
    BlankFirstLine(parse);
  }

  lemma KeptExample()
    ensures KeptKeys(["a", "", "b"], Only(0)) == ["", "b"]
  {
    var keys := ["a", "", "b"];
    assert keys[..2] == ["a", ""] && keys[..2][..1] == ["a"] && keys[..2][..1][..0] == [];
    assert KeptKeys(["a"], Only(0)) == [];
    assert KeptKeys(["a", ""], Only(0)) == [""];
  }

  lemma BlankFirstLine(parse: ArrayParser)
    ensures GetKeys("\nb", parse) == ["b"]
  {
    var text := "\nb";
    assert text[1..] == "b";
    InkDecides(text);
    assert Ink(text) == Ink("b");
    assert TrimLeft(text, c => c == '\n') == TrimLeft("b", c => c == '\n') == "b";
    assert TrimChar(text, '\n') == "b";
    SplitWhole("b", '\n');
  }

  lemma {:induction false} SomethingDropped(n: nat, drop: int -> bool, k: int)
    requires 0 <= k < n && drop(k)
    ensures |Kept(n, drop)| < n
  {
    KeptInRange(n - 1, drop);
    if k < n - 1 {
      SomethingDropped(n - 1, drop, k);
    }
  }

  /** The extreme case: when every key is automatically disabled, deleting them brings them all back enabled. */
  lemma AllDisabledComeBack(row: Row, parse: ArrayParser)
    requires var keys := GetKeys(row.key, parse); forall i :: 0 <= i < |keys| ==> i in row.info.status && row.info.status[i] == 3
    ensures var keys := GetKeys(row.key, parse);
            var rest := KeptKeys(keys, AutoDisabled(row.info));
            var after := Store(row, Join(rest, '\n'), WithoutAutoDisabled(row.info, |keys|), parse);
            && |ShownRow(after, parse)| == |keys|
            && forall i :: 0 <= i < |keys| ==> ShownRow(after, parse)[i] == KeyStatus(keys[i], 1, 0, "")
  {
    var keys := GetKeys(row.key, parse);
    NothingKept(|keys|, AutoDisabled(row.info));
    KeptKeysAt(keys, AutoDisabled(row.info));
  }

  lemma {:induction false} NothingKept(n: nat, drop: int -> bool)
    requires forall i :: 0 <= i < n ==> drop(i)
    ensures Kept(n, drop) == []
  {
    if n > 0 {
      NothingKept(n - 1, drop);
    }
  }

  // ---------------------------------------------------------------------------------------
  // Appending
  // ---------------------------------------------------------------------------------------

  /** Appending adds each new key once, trimmed, and none that is there already. */
  lemma AppendedExactly(text: string, input: seq<string>, parse: ArrayParser)
    ensures var existing := ExistingKeys(text, parse);
            var added := NewKeys(existing, input);
            && Appended(text, input, parse)[..|existing|] == existing && Appended(text, input, parse)[|existing|..] == added
            && Distinct(added)
            && forall x :: x in added <==>
                 && x != "" && (exists m :: m in input && TrimSpace(m) == x)
                 && !exists m :: m in existing && TrimSpace(m) == x
  {
    var existing := ExistingKeys(text, parse);
    NormalizeIsNormal(input);
    NormalizeIsNormal(existing);
    MinusNormal(Normalize(input), Normalize(existing));
  }

  /** Appending starts from the keys in use, except for a text that looks like an array and is not one: its keys are lost. */
  lemma AppendKeepsExistingExactly(text: string, parse: ArrayParser)
    requires text != ""
    ensures ExistingKeys(text, parse) == GetKeys(text, parse) <==> (LooksLikeArray(text) ==> IsArray(text, parse))
    ensures LooksLikeArray(text) && !IsArray(text, parse) ==> ExistingKeys(text, parse) == [] && GetKeys(text, parse) != []
  {}

  lemma LinesEnds(text: string)
    ensures Free(Lines(text), '\n')
    ensures TrimChar(text, '\n') == "" <==> Lines(text)[0] == ""
    ensures TrimChar(text, '\n') == "" <==> Lines(text)[|Lines(text)| - 1] == ""
  {
    var trimmed := TrimChar(text, '\n');
    SplitFree(trimmed, '\n');
    JoinSplit(trimmed, '\n');
    JoinEnds(Lines(text), '\n');
    TrimIsTight(text, c => c == '\n');
  }

  lemma NewLinesAreFree(existing: seq<string>, input: string)
    ensures Free(NewKeys(existing, Split(input, '\n')), '\n') && "" !in NewKeys(existing, Split(input, '\n'))
  {
    var lines := Split(input, '\n');
    var added := NewKeys(existing, lines);
    SplitFree(input, '\n');
    NormalizeIsNormal(lines);
    MinusNormal(Normalize(lines), Normalize(existing));
    forall i | 0 <= i < |added| ensures '\n' !in added[i] {
      assert added[i] in added;
      var m :| m in lines && TrimSpace(m) == added[i];
      TrimKeeps(m, IsSpace);
    }
  }

  /** What is asked of the keys that were there, when others are put behind them. */
  ghost predicate Extendable(existing: seq<string>, added: seq<string>) {
    && Free(existing, '\n')
    && (existing != [] ==> existing[0] != "" && (added == [] ==> existing[|existing| - 1] != ""))
  }

  lemma ReloadableAppended(existing: seq<string>, added: seq<string>)
    requires Free(added, '\n') && "" !in added && existing + added != []
    ensures Reloadable(existing + added) <==> Extendable(existing, added)
  {
    var all := existing + added;
    assert forall i :: 0 <= i < |existing| ==> all[i] == existing[i];
    assert forall i :: 0 <= i < |added| ==> all[|existing| + i] == added[i] && added[i] in added;
  }

  /** Keys appended line by line are all read back exactly when the new text stands for them, whatever the text was before. */
  lemma AppendReadsBackExactly(text: string, input: string, parse: ArrayParser)
    ensures var existing := ExistingKeys(text, parse);
            var added := NewKeys(existing, Split(input, '\n'));
            var all := Appended(text, Split(input, '\n'), parse);
            GetKeys(Join(all, '\n'), parse) == all <==>
              || all == []
              || (if IsArray(Join(all, '\n'), parse) then parse(TrimSpace(Join(all, '\n'))) == Some(all) else Extendable(existing, added))
  {
    var existing := ExistingKeys(text, parse);
    var added := NewKeys(existing, Split(input, '\n'));
    NewLinesAreFree(existing, input);
    ReadBackExactly(existing + added, parse);
    if existing + added != [] {
      ReloadableAppended(existing, added);
    }
  }

  /** For a text of lines that asks only that it has something beside newlines. */
  lemma LinesExtendable(text: string, added: seq<string>)
    ensures Extendable(Lines(text), added) <==> TrimChar(text, '\n') != ""
  {
    LinesEnds(text);
  }

  // The text after appending still does not look like an array: its first visible character is the old one.

  ghost function Ink(s: string): string {
    TrimLeft(s, IsSpace)
  }

  lemma {:induction false} InkOfTrimmedRight(s: string, f: char -> bool)
    requires forall c :: f(c) ==> IsSpace(c)
    ensures (Ink(s) == "" <==> Ink(TrimRight(s, f)) == "") && (Ink(s) != "" ==> Ink(s)[0] == Ink(TrimRight(s, f))[0])
    decreases |s|
  {
    if s != "" && f(s[|s| - 1]) {
      InkOfTrimmedRight(s[..|s| - 1], f);
      var last := [s[|s| - 1]];
      assert IsSpace(last[0]) && last[1..] == "";
      assert Ink(last) == TrimLeft(last[1..], IsSpace);
      InkConcat(s[..|s| - 1], last);
      assert s == s[..|s| - 1] + last;
    }
  }

  lemma {:induction false} InkOfTrimmedLeft(s: string, f: char -> bool)
    requires forall c :: f(c) ==> IsSpace(c)
    ensures Ink(TrimLeft(s, f)) == Ink(s)
  {
    if s != "" && f(s[0]) {
      InkOfTrimmedLeft(s[1..], f);
    }
  }

  lemma {:induction false} InkConcat(a: string, b: string)
    ensures Ink(a + b) == if Ink(a) != "" then Ink(a) + b else Ink(b)
  {
    if a == "" {
      assert a + b == b;
    } else if IsSpace(a[0]) {
      assert (a + b)[1..] == a[1..] + b;
      InkConcat(a[1..], b);
    }
  }

  lemma InkDecides(s: string)
    ensures LooksLikeArray(s) <==> Ink(s) != "" && Ink(s)[0] == '['
    ensures TrimSpace(s) == "" <==> Ink(s) == ""
  {
    InkOfTrimmedRight(Ink(s), IsSpace);
    TrimLeftTight(s, IsSpace);
    TrimIsTight(s, IsSpace);
    assert TrimSpace(s) != "" ==> TrimSpace(s)[..1] == [TrimSpace(s)[0]];
  }

  /** Trimming newlines does not change the first visible character. */
  lemma InkOfTrimmed(text: string)
    ensures var trimmed := TrimChar(text, '\n');
            (Ink(text) == "" <==> Ink(trimmed) == "") && (Ink(text) != "" ==> Ink(trimmed)[0] == Ink(text)[0])
  {
    var newline := c => c == '\n';
    assert TrimChar(text, '\n') == TrimRight(TrimLeft(text, newline), newline);
    InkOfTrimmedLeft(text, newline);
    InkOfTrimmedRight(TrimLeft(text, newline), newline);
  }

  /** The joined text begins with the old one, trimmed. */
  lemma JoinedBegins(text: string, added: seq<string>)
    ensures exists more :: Join(Lines(text) + added, '\n') == TrimChar(text, '\n') + more
  {
    var trimmed := TrimChar(text, '\n');
    JoinSplit(trimmed, '\n');
    if added == [] {
      assert Lines(text) + added == Lines(text);
      assert trimmed == trimmed + "";
    } else {
      JoinConcat(Lines(text), added, '\n');
      var more := ['\n'] + Join(added, '\n');
      assert trimmed + ['\n'] + Join(added, '\n') == trimmed + more;
    }
  }

  lemma StillLines(text: string, added: seq<string>)
    requires TrimSpace(text) != "" && !LooksLikeArray(text)
    ensures !LooksLikeArray(Join(Lines(text) + added, '\n'))
  {
    InkOfTrimmed(text);
    InkDecides(text);
    JoinedBegins(text, added);
    var more :| Join(Lines(text) + added, '\n') == TrimChar(text, '\n') + more;
    InkConcat(TrimChar(text, '\n'), more);
    InkDecides(Join(Lines(text) + added, '\n'));
  }

  /** So appending to a text of lines with a visible character, whatever is appended, is read back as written. */
  lemma AppendReadsBack(text: string, input: string, parse: ArrayParser)
    requires TrimSpace(text) != "" && !LooksLikeArray(text)
    ensures var all := Appended(text, Split(input, '\n'), parse);
            GetKeys(text, parse) <= all && GetKeys(Join(all, '\n'), parse) == all
  {
    var added := NewKeys(ExistingKeys(text, parse), Split(input, '\n'));
    StillLines(text, added);
    AppendReadsBackExactly(text, input, parse);
    LinesExtendable(text, added);
    InkOfTrimmed(text);
    InkDecides(text);
  }

  /** The existing records stay where they are and the new keys are enabled. */
  lemma AppendKeepsRecords(row: Row, all: seq<string>, parse: ArrayParser)
    requires InRange(row.info) && row.info.size == |GetKeys(row.key, parse)| && GetKeys(row.key, parse) <= all
    requires Readable(all, parse)
    ensures var after := Store(row, Join(all, '\n'), row.info, parse);
            && after.info.size == |all| && InRange(after.info)
            && |ShownRow(after, parse)| == |all| && ShownRow(row, parse) <= ShownRow(after, parse)
            && forall i :: row.info.size <= i < |all| ==> ShownRow(after, parse)[i] == KeyStatus(all[i], 1, 0, "")
  {
    StoredAppended(row, all, parse);
  }

  lemma StoredAppended(row: Row, all: seq<string>, parse: ArrayParser)
    requires InRange(row.info) && row.info.size <= |all| && Readable(all, parse)
    ensures var after := Store(row, Join(all, '\n'), row.info, parse);
            after.info == row.info.(size := |all|) && GetKeys(after.key, parse) == all
  {
    JoinEmpty(all, '\n');
    assert !IsArray("", parse);
    LinesReadBack(all);
    var size := |all|;
    assert (map i | i in row.info.status && i < size :: row.info.status[i]) == row.info.status;
  }

  // ---------------------------------------------------------------------------------------
  // Listing
  // ---------------------------------------------------------------------------------------

  /** The matching positions, in order, each with a record of the wanted status, and none missing. */
  lemma {:induction false} MatchingExactly(shown: seq<KeyStatus>, wanted: Option<int>)
    ensures forall i :: i in Matching(shown, wanted) <==> 0 <= i < |shown| && (wanted.None? || shown[i].status == wanted.value)
    ensures forall i, j :: 0 <= i < j < |Matching(shown, wanted)| ==> Matching(shown, wanted)[i] < Matching(shown, wanted)[j]
    decreases |shown|
  {
    if shown != [] {
      var n := |shown| - 1;
      MatchingExactly(shown[..n], wanted);
      var before := Matching(shown[..n], wanted);
      forall i | 0 <= i < |before| ensures before[i] < n {
        assert before[i] in before;
      }
    }
  }

  /** The first `pages` pages, one after the other. */
  function Pages(list: seq<nat>, pages: nat, size: nat): seq<nat> {
    if pages == 0 then [] else Pages(list, pages - 1, size) + Page(list, pages, size)
  }

  lemma {:induction false} PagesAreAPrefix(list: seq<nat>, pages: nat, size: nat)
    requires size > 0
    ensures Pages(list, pages, size) == list[..if pages * size < |list| then pages * size else |list|]
  {
    if pages > 0 {
      PagesAreAPrefix(list, pages - 1, size);
      assert pages * size == (pages - 1) * size + size;
      PagePiece(list, (pages - 1) * size, size, Page(list, pages, size));
    }
  }

  lemma PagePiece(list: seq<nat>, start: nat, size: nat, page: seq<nat>)
    requires page == (var end := if start + size > |list| then |list| else start + size; if start < |list| then list[start..end] else [])
    ensures list[..if start < |list| then start else |list|] + page == list[..if start + size < |list| then start + size else |list|]
  {}

  lemma PageCountReaches(total: nat, size: nat)
    requires size > 0
    ensures PageCount(total, size) * size >= total && PageCount(total, size) >= 1
  {
    var n := total + size - 1;
    assert n == (n / size) * size + n % size;
  }

  /** Turning all the pages shows the whole list, in order, each position once. */
  lemma PagesShowAll(list: seq<nat>, size: nat)
    requires size > 0
    ensures Pages(list, PageCount(|list|, size), size) == list
  {
    PagesAreAPrefix(list, PageCount(|list|, size), size);
    PageCountReaches(|list|, size);
  }
}
