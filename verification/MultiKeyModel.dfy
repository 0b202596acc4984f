/**
 A channel with several keys: the key text, the list it stands for, and three tables keyed by
 position in that list. A position without a status is enabled.
 */
module MultiKeyModel {
  import opened Options
  import opened Text
  import opened NameLists

  const ENABLED := 1
  const MANUALLY_DISABLED := 2
  const AUTO_DISABLED := 3

  datatype Info = Info(size: int, status: map<int, int>, time: map<int, int>, reason: map<int, string>)

  /** The elements of a JSON array, or None for a text that is not one. */
  type ArrayParser = string -> Option<seq<string>>

  predicate LooksLikeArray(text: string) {
    HasPrefix(TrimSpace(text), "[")
  }

  predicate IsArray(text: string, parse: ArrayParser) {
    LooksLikeArray(text) && parse(TrimSpace(text)).Some?
  }

  function Lines(text: string): seq<string> {
    Split(TrimChar(text, '\n'), '\n')
  }

  function GetKeys(text: string, parse: ArrayParser): seq<string> {
    if text == "" then []
    else if IsArray(text, parse) then parse(TrimSpace(text)).value
    else Lines(text)
  }

  /** The list whose length is recorded: an empty array counts as one line. */
  function CountedKeys(text: string, parse: ArrayParser): seq<string> {
    if text == "" then []
    else if IsArray(text, parse) && parse(TrimSpace(text)).value != [] then parse(TrimSpace(text)).value
    else Lines(text)
  }

  // ---------------------------------------------------------------------------------------
  // What the channel says about its keys
  // ---------------------------------------------------------------------------------------

  /** The key at a position, its effective status and, if it is disabled, when and why. */
  datatype KeyStatus = KeyStatus(key: string, status: int, time: int, reason: string)

  function StatusAt(info: Info, i: int): int {
    if i in info.status then info.status[i] else ENABLED
  }

  function ShownAt(key: string, info: Info, i: int): KeyStatus {
    var status := StatusAt(info, i);
    KeyStatus(
      key, status,
      if status != ENABLED && i in info.time then info.time[i] else 0,
      if status != ENABLED && i in info.reason then info.reason[i] else "")
  }

  function Shown(keys: seq<string>, info: Info): seq<KeyStatus> {
    seq(|keys|, i requires 0 <= i < |keys| => ShownAt(keys[i], info, i))
  }

  /** The positions whose record has the wanted status, or all of them. */
  function Matching(shown: seq<KeyStatus>, wanted: Option<int>): seq<nat>
    decreases |shown|
  {
    if shown == [] then []
    else
      var n := |shown| - 1;
      Matching(shown[..n], wanted) + if wanted.None? || shown[n].status == wanted.value then [n] else []
  }

  const DEFAULT_PAGE_SIZE := 50

  function PageSize(asked: int): nat {
    if asked <= 0 then DEFAULT_PAGE_SIZE else asked
  }

  /** The number of pages; an empty list has one. */
  function PageCount(total: nat, size: nat): nat
    requires size > 0
  {
    if total == 0 then 1 else (total + size - 1) / size
  }

  /** The page shown: the first if none is asked for, the last if it lies beyond. */
  function PageNumber(asked: int, count: nat): nat {
    if asked <= 0 then 1 else if asked > count then count else asked
  }

  /** The part of a list on a page. */
  function Page(list: seq<nat>, page: nat, size: nat): seq<nat>
    requires page > 0
  {
    var start := (page - 1) * size;
    var end := if start + size > |list| then |list| else start + size;
    if 0 <= start < |list| && start <= end then list[start..end] else []
  }

  /** Every table's positions are below the recorded size. */
  ghost predicate InRange(info: Info) {
    && (forall i :: i in info.status ==> 0 <= i < info.size)
    && (forall i :: i in info.time ==> 0 <= i < info.size)
    && (forall i :: i in info.reason ==> 0 <= i < info.size)
  }

  // ---------------------------------------------------------------------------------------
  // Deletion
  // ---------------------------------------------------------------------------------------

  /** The positions below `n` that are not dropped, in order. */
  function Kept(n: nat, drop: int -> bool): seq<int> {
    if n == 0 then [] else Kept(n - 1, drop) + if drop(n - 1) then [] else [n - 1]
  }

  function KeptKeys(keys: seq<string>, drop: int -> bool): seq<string>
    decreases |keys|
  {
    if keys == [] then []
    else
      var n := |keys| - 1;
      KeptKeys(keys[..n], drop) + if drop(n) then [] else [keys[n]]
  }

  /** A table read at the given old positions, for those that `carry` over. */
  function Moved<T>(table: map<int, T>, at: seq<int>, carry: int -> bool): map<int, T>
    decreases |at|
  {
    if at == [] then map[]
    else
      var n := |at| - 1;
      var moved := Moved(table, at[..n], carry);
      if at[n] in table && carry(at[n]) then moved[n := table[at[n]]] else moved
  }

  function Only(k: int): int -> bool {
    i => i == k
  }

  function Any(): int -> bool {
    i => true
  }

  function Disabled(info: Info): int -> bool {
    i => StatusAt(info, i) != ENABLED
  }

  function AutoDisabled(info: Info): int -> bool {
    i => StatusAt(info, i) == AUTO_DISABLED
  }

  /** The tables rebuilt for the given old positions. Statuses are carried over for disabled keys, the rest as told. */
  function Rebuilt(info: Info, at: seq<int>, carry: int -> bool): Info {
    Info(|at|, Moved(info.status, at, Disabled(info)), Moved(info.time, at, carry), Moved(info.reason, at, carry))
  }

  /** The tables when one key is dropped: the time and the reason are carried over whatever the status. */
  function WithoutKey(info: Info, n: nat, k: int): Info {
    Rebuilt(info, Kept(n, Only(k)), Any())
  }

  function WithoutAutoDisabled(info: Info, n: nat): Info {
    Rebuilt(info, Kept(n, AutoDisabled(info)), Disabled(info))
  }

  // ---------------------------------------------------------------------------------------
  // Appending and storing
  // ---------------------------------------------------------------------------------------

  /** The keys that appending starts from: none for a text that looks like an array and is not one. */
  function ExistingKeys(text: string, parse: ArrayParser): seq<string> {
    if LooksLikeArray(text) then (if IsArray(text, parse) then parse(TrimSpace(text)).value else [])
    else Lines(text)
  }

  function NewKeys(existing: seq<string>, input: seq<string>): seq<string> {
    Minus(Normalize(input), Normalize(existing))
  }

  function Appended(text: string, input: seq<string>, parse: ArrayParser): seq<string> {
    var existing := ExistingKeys(text, parse);
    existing + NewKeys(existing, input)
  }

  /** The row in the database. */
  datatype Row = Row(key: string, info: Info)

  /** Storing: an empty key text leaves the stored one, and the size is counted anew from the text. */
  function Store(row: Row, key: string, info: Info, parse: ArrayParser): Row {
    var text := if key != "" then key else row.key;
    var size := |CountedKeys(text, parse)|;
    Row(text, info.(size := size, status := map i | i in info.status && i < size :: info.status[i]))
  }

  function ShownRow(row: Row, parse: ArrayParser): seq<KeyStatus> {
    Shown(GetKeys(row.key, parse), row.info)
  }
}
