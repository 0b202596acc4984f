/** The channel record whose keys and tables the management operations rebuild in place. */
module MultiKey {
  import opened Text
  import opened NameLists
  import opened MultiKeyModel
  import opened MultiKeyTheorems
  import opened Options

  datatype Counts = Counts(enabled: nat, manual: nat, auto: nat)

  class KeyedChannel {
    var key: string
    var size: int
    var status: map<int, int>
    var time: map<int, int>
    var reason: map<int, string>
    const parse: ArrayParser

    constructor (key: string, info: Info, parse: ArrayParser)
      ensures this.key == key && View() == info && this.parse == parse
    {
      this.key, this.parse := key, parse;
      size, status, time, reason := info.size, info.status, info.time, info.reason;
    }

    function View(): Info
      reads this
    {
      Info(size, status, time, reason)
    }

    /** Deleting the key at one position; refused for a position out of range, and for the last key. */
    method DeleteKey(keyIndex: int) returns (ok: bool)
      modifies this
      ensures var keys := GetKeys(old(key), parse);
              var rest := KeptKeys(keys, Only(keyIndex));
              && (ok <==> 0 <= keyIndex < old(size) && rest != [])
              && (ok ==> key == Join(rest, '\n') && View() == WithoutKey(old(View()), |keys|, keyIndex))
              && (!ok ==> key == old(key) && View() == old(View()))
    {
      if keyIndex < 0 || keyIndex >= size {
        return false;
      }
      var remaining, info := SkipKey(GetKeys(key, parse), View(), keyIndex);
      if |remaining| == 0 {
        return false;
      }
      Replace(remaining, info);
      return true;
    }

    /** The new keys and tables take the place of the old. */
    method Replace(remaining: seq<string>, info: Info)
      modifies this
      ensures key == Join(remaining, '\n') && View() == info
    {
      key, size, status, time, reason := Join(remaining, '\n'), info.size, info.status, info.time, info.reason;
    }

    /** Deleting the keys that were disabled automatically; refused when there is none. */
    method DeleteDisabledKeys() returns (deleted: nat)
      modifies this
      ensures var keys, before := GetKeys(old(key), parse), old(View());
              var rest := KeptKeys(keys, AutoDisabled(before));
              && deleted == |keys| - |rest|
              && (deleted > 0 ==> key == Join(rest, '\n') && View() == WithoutAutoDisabled(before, |keys|))
              && (deleted == 0 ==> key == old(key) && View() == before)
    {
      var remaining, info;
      remaining, info, deleted := SkipDisabled(GetKeys(key, parse), View());
      if deleted > 0 {
        Replace(remaining, info);
      }
    }

    /** Adding keys. `given` is the key text of the request, `input` the keys it stands for; a channel without keys takes the text as it is. */
    method AppendKeys(given: string, input: seq<string>)
      modifies this`key
      ensures key == if old(key) == "" then given else Join(Appended(old(key), input, parse), '\n')
    {
      if key == "" {
        key := given;
        return;
      }
      var existing := ExistingKeys(key, parse);
      var added := Deduplicate(existing, input);
      key := Join(existing + added, '\n');
    }

    /** Writing the channel to its row, and reading it again: an empty key text leaves the stored one. */
    method Update(stored: Row) returns (row: Row)
      modifies this
      ensures row == Store(stored, old(key), old(View()), parse)
      ensures key == row.key && View() == row.info
    {
      var text := if key != "" then key else stored.key;
      size := |CountedKeys(text, parse)|;
      status := DropFrom(status, size);
      key := text;
      row := Row(text, View());
    }

    /** The records and the totals by status. */
    method GetKeyStatus() returns (shown: seq<KeyStatus>, counts: Counts)
      ensures shown == Shown(GetKeys(key, parse), View())
      ensures counts == Counts(Count(shown, 1), Count(shown, 2), Count(shown, 3))
    {
      var keys := GetKeys(key, parse);
      shown := [];
      var enabled, manual, auto := 0, 0, 0;
      var i := 0;
      while i < |keys|
        invariant 0 <= i <= |keys| && |shown| == i
        invariant forall j :: 0 <= j < i ==> shown[j] == ShownAt(keys[j], View(), j)
        invariant enabled == Count(shown, ENABLED) && manual == Count(shown, MANUALLY_DISABLED) && auto == Count(shown, AUTO_DISABLED)
      {
        var s := if i in status then status[i] else ENABLED;
        var since := if s != ENABLED && i in time then time[i] else 0;
        var why := if s != ENABLED && i in reason then reason[i] else "";
        if s == ENABLED {
          enabled := enabled + 1;
        } else if s == MANUALLY_DISABLED {
          manual := manual + 1;
        } else if s == AUTO_DISABLED {
          auto := auto + 1;
        }
        var record := KeyStatus(keys[i], s, since, why);
        CountSnoc(shown, record, ENABLED);
        CountSnoc(shown, record, MANUALLY_DISABLED);
        CountSnoc(shown, record, AUTO_DISABLED);
        shown := shown + [record];
        i := i + 1;
      }
      counts := Counts(enabled, manual, auto);
    }
  }

  lemma MatchingSnoc(shown: seq<KeyStatus>, i: nat, wanted: Option<int>)
    requires i < |shown|
    ensures Matching(shown[..i + 1], wanted) ==
            Matching(shown[..i], wanted) + if wanted.None? || shown[i].status == wanted.value then [i] else []
  {
    assert shown[..i + 1][..i] == shown[..i];
  }

  method FilterRecords(shown: seq<KeyStatus>, wanted: Option<int>) returns (list: seq<nat>)
    ensures list == Matching(shown, wanted)
  {
    list := [];
    for i := 0 to |shown|
      invariant list == Matching(shown[..i], wanted)
    {
      MatchingSnoc(shown, i, wanted);
      if wanted.None? || shown[i].status == wanted.value {
        list := list + [i];
      }
    }
    assert shown[..|shown|] == shown;
  }

  method CountPages(total: nat, size: nat) returns (pages: nat)
    requires size > 0
    ensures pages == PageCount(total, size) && pages >= 1
  {
    PageCountReaches(total, size);
    if total == 0 {
      assert (size - 1) / size == 0;
    }
    pages := (total + size - 1) / size;
    if pages == 0 {
      pages := 1;
    }
  }

  /** One page of the records with the wanted status. */
  method ListPage(shown: seq<KeyStatus>, wanted: Option<int>, askedPage: int, askedSize: int)
    returns (items: seq<nat>, total: nat, page: nat, pages: nat)
    ensures total == |Matching(shown, wanted)| && pages == PageCount(total, PageSize(askedSize)) && page == PageNumber(askedPage, pages)
    ensures 1 <= page <= pages && items == Page(Matching(shown, wanted), page, PageSize(askedSize))
    ensures PageSize(askedSize) == if askedSize <= 0 then 50 else askedSize
  {
    var list := FilterRecords(shown, wanted);
    var size := PageSize(askedSize);
    total := |list|;
    pages := CountPages(total, size);
    page := if askedPage <= 0 then 1 else askedPage;
    if page > pages {
      page := pages;
    }
    items := Page(list, page, size);
  }

  function Count(shown: seq<KeyStatus>, status: int): nat
    decreases |shown|
  {
    if shown == [] then 0
    else Count(shown[..|shown| - 1], status) + if shown[|shown| - 1].status == status then 1 else 0
  }

  lemma CountSnoc(shown: seq<KeyStatus>, record: KeyStatus, status: int)
    ensures Count(shown + [record], status) == Count(shown, status) + if record.status == status then 1 else 0
  {
    assert (shown + [record])[..|shown|] == shown;
  }

  // ---------------------------------------------------------------------------------------
  // The loops that rebuild the tables
  // ---------------------------------------------------------------------------------------

  lemma MovedStep<T>(table: map<int, T>, at: seq<int>, i: int, carry: int -> bool)
    ensures Moved(table, at + [i], carry) ==
            if i in table && carry(i) then Moved(table, at, carry)[|at| := table[i]] else Moved(table, at, carry)
  {
    assert (at + [i])[..|at|] == at;
  }

  lemma KeptKeysStep(keys: seq<string>, i: nat, drop: int -> bool)
    requires i < |keys|
    ensures KeptKeys(keys[..i + 1], drop) == KeptKeys(keys[..i], drop) + if drop(i) then [] else [keys[i]]
  {
    assert keys[..i + 1][..i] == keys[..i];
  }

  method SkipKey(keys: seq<string>, info: Info, keyIndex: int) returns (remaining: seq<string>, rebuilt: Info)
    ensures remaining == KeptKeys(keys, Only(keyIndex)) && rebuilt == WithoutKey(info, |keys|, keyIndex)
    ensures rebuilt.size == |remaining|
  {
    var newIndex, i := 0, 0;
    var status: map<int, int>, time: map<int, int>, reason: map<int, string> := map[], map[], map[];
    ghost var at: seq<int> := [];
    remaining := [];
    while i < |keys|
      invariant 0 <= i <= |keys| && newIndex == |remaining| == |at|
      invariant remaining == KeptKeys(keys[..i], Only(keyIndex)) && at == Kept(i, Only(keyIndex))
      invariant status == Moved(info.status, at, Disabled(info))
      invariant time == Moved(info.time, at, Any())
      invariant reason == Moved(info.reason, at, Any())
    {
      KeptKeysStep(keys, i, Only(keyIndex));
      if i != keyIndex {
        remaining := remaining + [keys[i]];
        MovedStep(info.status, at, i, Disabled(info));
        if i in info.status && info.status[i] != ENABLED {
          status := status[newIndex := info.status[i]];
        }
        MovedStep(info.time, at, i, Any());
        if i in info.time {
          time := time[newIndex := info.time[i]];
        }
        MovedStep(info.reason, at, i, Any());
        if i in info.reason {
          reason := reason[newIndex := info.reason[i]];
        }
        newIndex := newIndex + 1;
        at := at + [i];
      }
      i := i + 1;
    }
    assert keys[..|keys|] == keys;
    rebuilt := Info(|remaining|, status, time, reason);
  }

  method SkipDisabled(keys: seq<string>, info: Info) returns (remaining: seq<string>, rebuilt: Info, deleted: nat)
    ensures remaining == KeptKeys(keys, AutoDisabled(info)) && rebuilt == WithoutAutoDisabled(info, |keys|)
    ensures rebuilt.size == |remaining| && deleted == |keys| - |remaining|
  {
    var newIndex, i := 0, 0;
    var status: map<int, int>, time: map<int, int>, reason: map<int, string> := map[], map[], map[];
    ghost var at: seq<int> := [];
    remaining, deleted := [], 0;
    while i < |keys|
      invariant 0 <= i <= |keys| && newIndex == |remaining| == |at| && deleted == i - newIndex
      invariant remaining == KeptKeys(keys[..i], AutoDisabled(info)) && at == Kept(i, AutoDisabled(info))
      invariant status == Moved(info.status, at, Disabled(info))
      invariant time == Moved(info.time, at, Disabled(info))
      invariant reason == Moved(info.reason, at, Disabled(info))
    {
      KeptKeysStep(keys, i, AutoDisabled(info));
      var s := if i in info.status then info.status[i] else ENABLED;
      if s == AUTO_DISABLED {
        deleted := deleted + 1;
      } else {
        remaining := remaining + [keys[i]];
        MovedStep(info.status, at, i, Disabled(info));
        MovedStep(info.time, at, i, Disabled(info));
        MovedStep(info.reason, at, i, Disabled(info));
        if s != ENABLED {
          status := status[newIndex := s];
          if i in info.time {
            time := time[newIndex := info.time[i]];
          }
          if i in info.reason {
            reason := reason[newIndex := info.reason[i]];
          }
        }
        newIndex := newIndex + 1;
        at := at + [i];
      }
      i := i + 1;
    }
    assert keys[..|keys|] == keys;
    rebuilt := Info(|remaining|, status, time, reason);
  }

  lemma HasMember(s: set<int>)
    requires s != {}
    ensures exists i :: i in s
  {
    assert (forall i :: i !in s) ==> |s| == 0;
  }

  /** Statuses from a position on are forgotten. */
  method DropFrom(status: map<int, int>, size: int) returns (left: map<int, int>)
    ensures left == map i | i in status && i < size :: status[i]
  {
    left := status;
    var rest := status.Keys;
    while rest != {}
      invariant rest <= status.Keys
      invariant left == map i | i in status && (i in rest || i < size) :: status[i]
    {
      HasMember(rest);
      var i :| i in rest;
      rest := rest - {i};
      if i >= size {
        left := left - {i};
      }
    }
  }

  // ---------------------------------------------------------------------------------------
  // The loops that append
  // ---------------------------------------------------------------------------------------

  lemma {:induction false} TrimmedSnoc(list: seq<string>, x: string)
    ensures Trimmed(list + [x]) == Trimmed(list) + if TrimSpace(x) == "" then [] else [TrimSpace(x)]
  {
    if list != [] {
      assert (list + [x])[1..] == list[1..] + [x];
      TrimmedSnoc(list[1..], x);
    }
  }

  lemma {:induction false} MinusSnoc(list: seq<string>, x: string, other: seq<string>)
    ensures Minus(list + [x], other) == Minus(list, other) + if x in other then [] else [x]
  {
    if list != [] {
      assert (list + [x])[1..] == list[1..] + [x];
      MinusSnoc(list[1..], x, other);
    }
  }

  /** One more input line: the new keys gain its trimmed text, if that is neither blank nor seen. */
  lemma NewKeysStep(existing: seq<string>, input: seq<string>, i: nat)
    requires i < |input|
    ensures var x, before := TrimSpace(input[i]), NewKeys(existing, input[..i]);
            NewKeys(existing, input[..i + 1]) ==
            if x == "" || x in Trimmed(existing) || x in Trimmed(input[..i]) then before else before + [x]
    ensures forall y :: y in Trimmed(input[..i + 1]) <==> y in Trimmed(input[..i]) || (y != "" && y == TrimSpace(input[i]))
  {
    var x, seen := TrimSpace(input[i]), Trimmed(input[..i]);
    assert input[..i + 1] == input[..i] + [input[i]];
    TrimmedSnoc(input[..i], input[i]);
    UniqIsDistinct(seen);
    UniqIsDistinct(Trimmed(existing));
    if x == "" {
      assert seen + [] == seen;
    } else {
      assert (seen + [x])[..|seen|] == seen;
      MinusSnoc(Uniq(seen), x, Normalize(existing));
    }
  }

  method Deduplicate(existing: seq<string>, input: seq<string>) returns (added: seq<string>)
    ensures added == NewKeys(existing, input)
  {
    var seen: set<string> := {};
    for i := 0 to |existing|
      invariant forall x :: x in seen <==> x in Trimmed(existing[..i])
    {
      assert existing[..i + 1] == existing[..i] + [existing[i]];
      TrimmedSnoc(existing[..i], existing[i]);
      var x := TrimSpace(existing[i]);
      if x != "" {
        seen := seen + {x};
      }
    }
    assert existing[..|existing|] == existing;
    added := [];
    for i := 0 to |input|
      invariant forall x :: x in seen <==> x in Trimmed(existing) || x in Trimmed(input[..i])
      invariant added == NewKeys(existing, input[..i])
    {
      NewKeysStep(existing, input, i);
      var x := TrimSpace(input[i]);
      if x != "" && x !in seen {
        seen := seen + {x};
        added := added + [x];
      }
    }
    assert input[..|input|] == input;
  }
}
