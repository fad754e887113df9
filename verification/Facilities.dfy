/** facilities.py: the key/value store of the facilities partition, its files and its disk accounting. */
module FacilitiesStore {
  const MAX_DISK_USAGE := 1024 * 1024 * 16
  const VMI_SUCCESS := 0
  const VMI_FAILURE := 1

  // ---------- texts ----------

  function CharBytes(c: char): (n: nat)
    ensures 1 <= n <= 4
  {
    if c as int < 0x80 then 1 else if c as int < 0x800 then 2 else if c as int < 0x10000 then 3 else 4
  }

  /** len(value.encode()) */
  function EncodedSize(s: string): (n: nat)
    ensures n >= |s|
  {
    if s == [] then 0 else CharBytes(s[0]) + EncodedSize(s[1..])
  }

  /** n bytes of UTF-8 carry 7 bits if n is 1, and 5 n + 1 otherwise. */
  function Capacity(n: nat): nat
    requires 1 <= n <= 4
  {
    if n == 1 then 0x80 else if n == 2 then 0x800 else if n == 3 then 0x1_0000 else 0x20_0000
  }

  /** Each character takes the fewest bytes that carry it. */
  lemma {:induction false} CharIsShortest(c: char, n: nat)
    requires 1 <= n <= 4
    ensures CharBytes(c) <= n <==> (c as int) < Capacity(n)
  {}

  /** A text takes the bytes of its parts, and of one character those of the character. */
  lemma {:induction false} SizesAdd(s: string, t: string)
    ensures EncodedSize(s + t) == EncodedSize(s) + EncodedSize(t)
    ensures forall c :: EncodedSize([c]) == CharBytes(c)
  {
    if s == [] {
      assert s + t == t;
    } else {
      SizesAdd(s[1..], t);
      assert (s + t)[1..] == s[1..] + t;
    }
    forall c
      ensures EncodedSize([c]) == CharBytes(c)
    {
      assert [c][1..] == [];
    }
  }

  predicate OneBytePerChar(s: string) { forall i | 0 <= i < |s| :: s[i] as int < 0x80 }

  lemma {:induction false} SizeIsLengthIffAscii(s: string)
    ensures EncodedSize(s) == |s| <==> OneBytePerChar(s)
  {
    if s != [] {
      SizeIsLengthIffAscii(s[1..]);
      assert OneBytePerChar(s) <==> s[0] as int < 0x80 && OneBytePerChar(s[1..]) by {
        if s[0] as int < 0x80 && OneBytePerChar(s[1..]) {
          forall i | 0 <= i < |s|
            ensures s[i] as int < 0x80
          {
            if i > 0 { assert s[i] == s[1..][i - 1]; }
          }
        }
      }
    }
  }

  /** get_name_ok; `words` are the characters that `[\w-]` matches.  The pattern's `$` also stops before a final
    newline. */
  predicate NameOk(words: set<char>, n: string) {
    && 0 < |n| < 17
    && (AllIn(words, n) || (|n| > 1 && n[|n| - 1] == '\n' && AllIn(words, n[..|n| - 1])))
  }

  predicate AllIn(words: set<char>, n: string) { forall i | 0 <= i < |n| :: n[i] in words }

  /** A key that the store refuses: empty, longer than 16, or with a character that is not allowed, other than a
    newline at the end that something precedes. */
  predicate IsBadKey(words: set<char>, key: string) {
    || |key| == 0 || |key| > 16
    || exists i | 0 <= i < |key| :: key[i] !in words && !(key[i] == '\n' && 0 < i && i == |key| - 1)
  }

  lemma {:induction false} KeyIsOkIff(words: set<char>, key: string)
    ensures NameOk(words, key) <==> !IsBadKey(words, key)
  {
    if !IsBadKey(words, key) && !AllIn(words, key) {
      var last := |key| - 1;
      assert key[last] == '\n' && last > 0;
      assert forall i | 0 <= i < last :: key[..last][i] == key[i];
    }
    if NameOk(words, key) && !AllIn(words, key) {
      var last := |key| - 1;
      forall i | 0 <= i < last
        ensures key[i] in words
      {
        assert key[..last][i] in words;
      }
    }
  }

  // ---------- the store as a value ----------

  /** storage, io_id, disk_usage, and the files named by an id in FAC_IO_DIR. */
  datatype Store = Store(storage: map<string, nat>, ioId: nat, diskUsage: int, files: map<nat, string>)

  const EMPTY := Store(map[], 0, 0, map[])

  datatype Op = Get(key: string) | Set(key: string, value: string)

  /** The answer to one request; an exception that nothing catches ends the service. */
  datatype Answer = GetRet(key: string, value: string, result: int) | SetRet(key: string, result: int) | Raised

  /** Keys are legal, and have distinct ids below io_id, each naming a file. */
  ghost predicate KeysSound(words: set<char>, s: Store) {
    && (forall k | k in s.storage :: NameOk(words, k) && s.storage[k] < s.ioId && s.storage[k] in s.files)
    && (forall j, k | j in s.storage && k in s.storage && j != k :: s.storage[j] != s.storage[k])
  }

  /** There is no file but those of the keys. */
  ghost predicate FilesSound(s: Store) { forall id | id in s.files :: HasKey(s, id) }

  ghost predicate HasKey(s: Store, id: nat) { exists k :: k in s.storage && s.storage[k] == id }

  ghost predicate Sound(words: set<char>, s: Store) { KeysSound(words, s) && FilesSound(s) }

  function FileText(s: Store, id: nat): string { if id in s.files then s.files[id] else "" }

  /** The plain map that the store stands for. */
  function Contents(s: Store): map<string, string> { map k | k in s.storage :: FileText(s, s.storage[k]) }

  /** Bytes in the files with ids below n. */
  function BytesBelow(files: map<nat, string>, n: nat): nat {
    if n == 0 then 0 else BytesBelow(files, n - 1) + if n - 1 in files then EncodedSize(files[n - 1]) else 0
  }

  function LiveBytes(s: Store): nat { BytesBelow(s.files, s.ioId) }

  /** process_get.  A key that is not stored raises KeyError, which is not caught. */
  function GetAnswer(words: set<char>, s: Store, key: string): Answer {
    if !NameOk(words, key) then GetRet(key, "", VMI_FAILURE)
    else if key !in s.storage || s.storage[key] !in s.files then Raised
    else GetRet(key, s.files[s.storage[key]], VMI_SUCCESS)
  }

  predicate Accepted(words: set<char>, s: Store, key: string, value: string) {
    NameOk(words, key) && s.diskUsage + EncodedSize(value) <= MAX_DISK_USAGE
  }

  /** What an accepted SET of a key leaves of its old value. */
  function Removed(s: Store, key: string): Store {
    if key !in s.storage then s
    else
      var id := s.storage[key];
      Store(s.storage - {key}, s.ioId, s.diskUsage - EncodedSize(FileText(s, id)), s.files - {id})
  }

  /** A new file under a fresh id; the usage grows by characters, not bytes. */
  function Written(s: Store, key: string, value: string): Store {
    Store(s.storage[key := s.ioId], s.ioId + 1, s.diskUsage + |value|, s.files[s.ioId := value])
  }

  /** process_set on the state. */
  function AfterSet(words: set<char>, s: Store, key: string, value: string): Store {
    if Accepted(words, s, key, value) then Written(Removed(s, key), key, value) else s
  }

  /** process_set's answer.  For a bad key it sets a field that Set_ret does not have, which raises. */
  function SetAnswer(words: set<char>, s: Store, key: string, value: string): Answer {
    if !NameOk(words, key) then Raised
    else SetRet(key, if Accepted(words, s, key, value) then VMI_SUCCESS else VMI_FAILURE)
  }

  // ---------- one SET ----------

  lemma {:induction false} RemovedKeysSound(words: set<char>, s: Store, key: string)
    requires KeysSound(words, s)
    ensures KeysSound(words, Removed(s, key)) && key !in Removed(s, key).storage
  {}

  lemma {:induction false} OtherKeyStays(s: Store, key: string, id: nat)
    requires HasKey(s, id) && (key in s.storage ==> s.storage[key] != id)
    ensures HasKey(Removed(s, key), id)
  {
    hide FileText, EncodedSize;
    var k :| k in s.storage && s.storage[k] == id;
    assert k in Removed(s, key).storage;
  }

  lemma {:induction false} RemovedFilesSound(words: set<char>, s: Store, key: string)
    requires KeysSound(words, s) && FilesSound(s)
    ensures FilesSound(Removed(s, key))
  {
    forall id | id in Removed(s, key).files
      ensures HasKey(Removed(s, key), id)
    {
      assert HasKey(s, id);
      hide NameOk, FilesSound, HasKey, FileText, EncodedSize;
      OtherKeyStays(s, key, id);
    }
  }

  lemma {:induction false} RemovedContents(words: set<char>, s: Store, key: string)
    requires KeysSound(words, s)
    ensures Contents(Removed(s, key)) == Contents(s) - {key}
  {}

  lemma {:induction false} WrittenKeysSound(words: set<char>, s: Store, key: string, value: string)
    requires KeysSound(words, s) && NameOk(words, key) && key !in s.storage
    ensures KeysSound(words, Written(s, key, value))
  {}

  lemma {:induction false} WrittenFilesSound(s: Store, key: string, value: string)
    requires FilesSound(s) && key !in s.storage
    ensures FilesSound(Written(s, key, value))
  {
    var s' := Written(s, key, value);
    forall id | id in s'.files
      ensures HasKey(s', id)
    {
      if id == s.ioId {
        assert s'.storage[key] == id;
      } else {
        assert HasKey(s, id);
        var k :| k in s.storage && s.storage[k] == id;
        assert k in s'.storage && s'.storage[k] == id;
      }
    }
  }

  lemma {:induction false} WrittenContents(words: set<char>, s: Store, key: string, value: string)
    requires KeysSound(words, s) && key !in s.storage
    ensures Contents(Written(s, key, value)) == Contents(s)[key := value]
  {}

  lemma {:induction false} RemovedIsSound(words: set<char>, s: Store, key: string)
    requires Sound(words, s)
    ensures Sound(words, Removed(s, key)) && key !in Removed(s, key).storage
    ensures Contents(Removed(s, key)) == Contents(s) - {key}
  {
    RemovedKeysSound(words, s, key);
    RemovedFilesSound(words, s, key);
    RemovedContents(words, s, key);
  }

  lemma {:induction false} WrittenIsSound(words: set<char>, s: Store, key: string, value: string)
    requires Sound(words, s) && NameOk(words, key) && key !in s.storage
    ensures Sound(words, Written(s, key, value))
    ensures Contents(Written(s, key, value)) == Contents(s)[key := value]
  {
    WrittenKeysSound(words, s, key, value);
    WrittenFilesSound(s, key, value);
    WrittenContents(words, s, key, value);
  }

  lemma UpdateAfterRemoval(m: map<string, string>, key: string, value: string)
    ensures (m - {key})[key := value] == m[key := value]
  {}

  /** A SET that is accepted maps its key to its value and changes no other key; one that is not changes nothing. */
  lemma {:induction false} SetRefinesMapUpdate(words: set<char>, s: Store, key: string, value: string)
    requires Sound(words, s)
    ensures var s' := AfterSet(words, s, key, value);
            && Sound(words, s')
            && (Accepted(words, s, key, value) ==> Contents(s') == Contents(s)[key := value])
            && (!Accepted(words, s, key, value) ==> s' == s)
  {
    if Accepted(words, s, key, value) {
      RemovedIsSound(words, s, key);
      WrittenIsSound(words, Removed(s, key), key, value);
      UpdateAfterRemoval(Contents(s), key, value);
    }
  }

  lemma {:induction false} KeysHaveFiles(words: set<char>, s: Store)
    requires Sound(words, s)
    ensures forall k | k in s.storage :: s.storage[k] in s.files
  {}

  lemma {:induction false} BytesWithout(files: map<nat, string>, n: nat, id: nat)
    requires id in files
    ensures BytesBelow(files - {id}, n) == BytesBelow(files, n) - if id < n then EncodedSize(files[id]) else 0
  {
    if n > 0 { BytesWithout(files, n - 1, id); }
  }

  lemma {:induction false} BytesWith(files: map<nat, string>, n: nat, id: nat, value: string)
    requires n <= id
    ensures BytesBelow(files[id := value], n) == BytesBelow(files, n)
  {
    if n > 0 { BytesWith(files, n - 1, id, value); }
  }

  /** The usage misses exactly the bytes that a SET's value has beyond its characters. */
  lemma {:induction false} SetMovesTheBalance(words: set<char>, s: Store, key: string, value: string)
    requires Sound(words, s)
    ensures var s' := AfterSet(words, s, key, value);
            LiveBytes(s') - s'.diskUsage == LiveBytes(s) - s.diskUsage
              + if Accepted(words, s, key, value) then EncodedSize(value) - |value| else 0
    ensures Accepted(words, s, key, value) ==>
              LiveBytes(AfterSet(words, s, key, value)) <= MAX_DISK_USAGE + (LiveBytes(s) - s.diskUsage)
  {
    if Accepted(words, s, key, value) {
      if key in s.storage { BytesWithout(s.files, s.ioId, s.storage[key]); }
      BytesWith(Removed(s, key).files, s.ioId, s.ioId, value);
    }
  }

  // ---------- whole histories ----------

  /** The store and the answers so far; nothing is served after an exception. */
  datatype Run = Run(store: Store, answers: seq<Answer>, down: bool)

  function Serve(words: set<char>, op: Op, r: Run): Run {
    match op
    case Get(key) =>
      var a := GetAnswer(words, r.store, key);
      Run(r.store, r.answers + [a], a.Raised?)
    case Set(key, value) =>
      var a := SetAnswer(words, r.store, key, value);
      Run(AfterSet(words, r.store, key, value), r.answers + [a], a.Raised?)
  }

  function After(words: set<char>, ops: seq<Op>, n: nat): Run
    requires n <= |ops|
  {
    if n == 0 then Run(EMPTY, [], false)
    else
      var r := After(words, ops, n - 1);
      if r.down then r else Serve(words, ops[n - 1], r)
  }

  /** The same history on a plain map: an accepted SET updates it, and GET looks it up. */
  function PlainMap(words: set<char>, ops: seq<Op>, n: nat): map<string, string>
    requires n <= |ops|
  {
    if n == 0 then map[]
    else if !Updates(words, ops, n - 1) then PlainMap(words, ops, n - 1)
    else PlainMap(words, ops, n - 1)[ops[n - 1].key := ops[n - 1].value]
  }

  /** Request k is a SET that succeeds. */
  predicate Updates(words: set<char>, ops: seq<Op>, k: nat)
    requires k < |ops|
  {
    var r := After(words, ops, k);
    !r.down && ops[k].Set? && Accepted(words, r.store, ops[k].key, ops[k].value)
  }

  /** The store refines the plain map over every history. */
  lemma {:induction false} StoreRefinesMap(words: set<char>, ops: seq<Op>, n: nat)
    requires n <= |ops|
    ensures Sound(words, After(words, ops, n).store)
    ensures Contents(After(words, ops, n).store) == PlainMap(words, ops, n)
    decreases n
  {
    if n > 0 {
      StoreRefinesMap(words, ops, n - 1);
      var r := After(words, ops, n - 1);
      if ops[n - 1].Set? { SetRefinesMapUpdate(words, r.store, ops[n - 1].key, ops[n - 1].value); }
    }
  }

  /** GET of a legal key answers what the plain map holds, and takes the service down if it holds nothing. */
  lemma {:induction false} GetLooksUpMap(words: set<char>, ops: seq<Op>, k: nat)
    requires k < |ops| && ops[k].Get? && !After(words, ops, k).down
    ensures var key, m := ops[k].key, PlainMap(words, ops, k);
            var r := After(words, ops, k + 1);
            && |r.answers| > 0
            && r.store == After(words, ops, k).store
            && r.answers[|r.answers| - 1]
               == (if !NameOk(words, key) then GetRet(key, "", 1)
                   else if key in m then GetRet(key, m[key], 0)
                   else Raised)
  {
    StoreRefinesMap(words, ops, k);
    var s := After(words, ops, k).store;
    assert ops[k].key in Contents(s) <==> ops[k].key in s.storage;
  }

  /** Bytes beyond characters, over all successful SETs. */
  function Excess(words: set<char>, ops: seq<Op>, n: nat): nat
    requires n <= |ops|
  {
    if n == 0 then 0
    else Excess(words, ops, n - 1)
         + if Updates(words, ops, n - 1) then EncodedSize(ops[n - 1].value) - |ops[n - 1].value| else 0
  }

  /** Exact accounting over every history: the files hold `Excess` more bytes than disk_usage says, and the quota holds
    up to that excess. */
  lemma {:induction false} DiskAccounting(words: set<char>, ops: seq<Op>, n: nat)
    requires n <= |ops|
    ensures var s := After(words, ops, n).store;
            && LiveBytes(s) == s.diskUsage + Excess(words, ops, n)
            && LiveBytes(s) <= MAX_DISK_USAGE + Excess(words, ops, n)
    decreases n
  {
    if n > 0 {
      DiskAccounting(words, ops, n - 1);
      StoreRefinesMap(words, ops, n - 1);
      var s := After(words, ops, n - 1).store;
      if ops[n - 1].Set? { SetMovesTheBalance(words, s, ops[n - 1].key, ops[n - 1].value); }
    }
  }

  /** SET of a legal key succeeds if the bytes in the files, less the excess so far, leave room for its value.  With an
    illegal key it takes the service down. */
  lemma {:induction false} SetAnswersByRoom(words: set<char>, ops: seq<Op>, k: nat)
    requires k < |ops| && ops[k].Set? && !After(words, ops, k).down
    ensures var key, value, r := ops[k].key, ops[k].value, After(words, ops, k + 1);
            var room := 16_777_216 + Excess(words, ops, k) - LiveBytes(After(words, ops, k).store);
            && |r.answers| > 0
            && r.answers[|r.answers| - 1]
               == (if !NameOk(words, key) then Raised
                   else SetRet(key, if EncodedSize(value) <= room then 0 else 1))
            && PlainMap(words, ops, k + 1)
               == if NameOk(words, key) && EncodedSize(value) <= room then PlainMap(words, ops, k)[key := value]
                  else PlainMap(words, ops, k)
  {
    hide NameOk, EncodedSize, LiveBytes, AfterSet;
    DiskAccounting(words, ops, k);
  }

  /** By its characters, a key that is refused is refused always: a SET raises and a GET answers failure. */
  lemma {:induction false} BadKeysAreRefused(words: set<char>, ops: seq<Op>, k: nat)
    requires k < |ops| && !After(words, ops, k).down
    ensures var r := After(words, ops, k + 1);
            && |r.answers| > 0
            && var answer := r.answers[|r.answers| - 1];
               && (ops[k].Set? ==> (answer.Raised? <==> IsBadKey(words, ops[k].key)))
               && (ops[k].Get? ==> (answer == GetRet(ops[k].key, "", 1) <==> IsBadKey(words, ops[k].key)))
  {
    hide EncodedSize, LiveBytes, AfterSet, NameOk, IsBadKey;
    KeyIsOkIff(words, ops[k].key);
    if ops[k].Get? { GetLooksUpMap(words, ops, k); } else { SetAnswersByRoom(words, ops, k); }
  }

  /** So no key with any other character is ever stored. */
  lemma {:induction false} StoredKeysAreGood(words: set<char>, ops: seq<Op>, n: nat, key: string)
    requires n <= |ops| && key in After(words, ops, n).store.storage
    ensures 0 < |key| <= 16
    ensures forall i | 0 <= i < |key| :: key[i] in words || (key[i] == '\n' && 0 < i && i == |key| - 1)
  {
    hide After, NameOk;
    StoreRefinesMap(words, ops, n);
    KeyIsOkIff(words, key);
  }

  /** Request k is one that nothing answers: a SET of an illegal key, or a GET of a legal one that has not been set. */
  predicate Unanswered(words: set<char>, ops: seq<Op>, k: nat)
    requires k < |ops|
  {
    if ops[k].Set? then !NameOk(words, ops[k].key)
    else NameOk(words, ops[k].key) && ops[k].key !in PlainMap(words, ops, k)
  }

  lemma {:induction false} RequestTakesDownIff(words: set<char>, ops: seq<Op>, k: nat)
    requires k < |ops| && !After(words, ops, k).down
    ensures After(words, ops, k + 1).down <==> Unanswered(words, ops, k)
  {
    StoreRefinesMap(words, ops, k);
    hide NameOk, AfterSet;
    KeysHaveFiles(words, After(words, ops, k).store);
    var s := After(words, ops, k).store;
    assert ops[k].key in Contents(s) <==> ops[k].key in s.storage;
  }

  /** A history takes the service down if and only if there is such a request in it. */
  lemma {:induction false} DownIffUnanswered(words: set<char>, ops: seq<Op>, n: nat)
    requires n <= |ops|
    ensures After(words, ops, n).down <==> exists k | 0 <= k < n :: Unanswered(words, ops, k)
    decreases n
  {
    hide Serve, Unanswered, PlainMap;
    if n > 0 {
      DownIffUnanswered(words, ops, n - 1);
      if !After(words, ops, n - 1).down { RequestTakesDownIff(words, ops, n - 1); }
    }
  }

  ghost predicate AllAscii(words: set<char>, ops: seq<Op>, n: nat)
    requires n <= |ops|
  {
    forall k | 0 <= k < n && Updates(words, ops, k) :: OneBytePerChar(ops[k].value)
  }

  lemma {:induction false} UpdatesAreSets(words: set<char>, ops: seq<Op>, k: nat)
    requires k < |ops| && Updates(words, ops, k)
    ensures ops[k].Set?
  {
    hide After;
  }

  lemma {:induction false} NoExcessIffAscii(words: set<char>, ops: seq<Op>, n: nat)
    requires n <= |ops|
    ensures Excess(words, ops, n) == 0 <==> AllAscii(words, ops, n)
    decreases n
  {
    hide After, Updates, EncodedSize, OneBytePerChar;
    if n > 0 {
      NoExcessIffAscii(words, ops, n - 1);
      if Updates(words, ops, n - 1) {
        UpdatesAreSets(words, ops, n - 1);
        SizeIsLengthIffAscii(ops[n - 1].value);
      }
    }
  }

  /** disk_usage is the size of the files if and only if every stored value has been ASCII; then the files also keep
    within the quota. */
  lemma {:induction false} UsageIsExactIffAscii(words: set<char>, ops: seq<Op>, n: nat)
    requires n <= |ops|
    ensures var s := After(words, ops, n).store;
            && (s.diskUsage == LiveBytes(s) <==> AllAscii(words, ops, n))
            && (AllAscii(words, ops, n) ==> LiveBytes(s) <= MAX_DISK_USAGE)
  {
    DiskAccounting(words, ops, n);
    NoExcessIffAscii(words, ops, n);
  }

  // ---------- the service ----------

  datatype MsgType = GET | SET

  function TypesOf(ops: seq<Op>): (types: seq<MsgType>)
    ensures |types| == |ops|
  {
    if ops == [] then [] else [if ops[0].Get? then GET else SET] + TypesOf(ops[1..])
  }

  function GetsOf(ops: seq<Op>): seq<string> {
    if ops == [] then [] else if ops[0].Get? then [ops[0].key] + GetsOf(ops[1..]) else GetsOf(ops[1..])
  }

  function SetsOf(ops: seq<Op>): seq<(string, string)> {
    if ops == [] then [] else if ops[0].Set? then [(ops[0].key, ops[0].value)] + SetsOf(ops[1..]) else SetsOf(ops[1..])
  }

  function ServeAll(words: set<char>, ops: seq<Op>, r: Run): Run {
    if ops == [] || r.down then r else ServeAll(words, ops[1..], Serve(words, ops[0], r))
  }

  /** Serving message by message is the history that the laws above are about. */
  lemma {:induction false} ServeAllIsAfter(words: set<char>, ops: seq<Op>, i: nat, n: nat)
    requires i <= n <= |ops|
    ensures ServeAll(words, ops[i..n], After(words, ops, i)) == After(words, ops, n)
    decreases n - i
  {
    if i < n {
      assert ops[i..n][1..] == ops[i + 1..n];
      if After(words, ops, i).down {
        DownForGood(words, ops, i, n);
      } else {
        ServeAllIsAfter(words, ops, i + 1, n);
      }
    }
  }

  lemma {:induction false} DownForGood(words: set<char>, ops: seq<Op>, i: nat, n: nat)
    requires i <= n <= |ops| && After(words, ops, i).down
    ensures After(words, ops, n) == After(words, ops, i)
    decreases n
  {
    if i < n { DownForGood(words, ops, i, n - 1); }
  }

  class Facilities {
    const words: set<char>
    var storage: map<string, nat>
    var ioId: nat
    var diskUsage: int
    // FAC_IO_DIR; file operations are assumed to succeed
    var files: map<nat, string>

    ghost function State(): Store
      reads this
    {
      Store(storage, ioId, diskUsage, files)
    }

    constructor (words: set<char>)
      ensures State() == EMPTY && this.words == words
    {
      this.words := words;
      storage, ioId, diskUsage, files := map[], 0, 0, map[];
    }

    method ProcessGet(key: string) returns (answer: Answer)
      ensures answer == GetAnswer(words, State(), key)
    {
      if !NameOk(words, key) { return GetRet(key, "", VMI_FAILURE); }
      if key !in storage { return Raised; }
      var id := storage[key];
      if id !in files { return Raised; }
      return GetRet(key, files[id], VMI_SUCCESS);
    }

    method ProcessSet(key: string, value: string) returns (answer: Answer)
      requires Sound(words, State())
      modifies this
      ensures answer == SetAnswer(words, old(State()), key, value)
      ensures State() == AfterSet(words, old(State()), key, value) && Sound(words, State())
    {
      SetRefinesMapUpdate(words, State(), key, value);
      KeysHaveFiles(words, State());
      hide NameOk, Sound, EncodedSize, Written;
      if !NameOk(words, key) { return Raised; }
      if diskUsage + EncodedSize(value) > MAX_DISK_USAGE { return SetRet(key, VMI_FAILURE); }
      if key in storage { RemoveExisting(key); }
      WriteNew(key, value);
      return SetRet(key, VMI_SUCCESS);
    }

    /** Overwriting starts with removing the file. */
    method RemoveExisting(key: string)
      requires key in storage && storage[key] in files
      modifies this
      ensures State() == Removed(old(State()), key)
    {
      var existing := storage[key];
      diskUsage := diskUsage - EncodedSize(files[existing]);
      files := files - {existing};
      storage := storage - {key};
    }

    method WriteNew(key: string, value: string)
      modifies this
      ensures State() == Written(old(State()), key, value)
    {
      var id := ioId;
      ioId := ioId + 1;
      diskUsage := diskUsage + |value|;
      storage := storage[key := id];
      files := files[id := value];
    }

    /** fe2be_process_protobuf, for GET and SET: each type takes the first message left of its kind.  `ops` are the
      requests in the order of the types. */
    method Fe2beProcessProtobuf(types: seq<MsgType>, getList: seq<string>, setList: seq<(string, string)>,
                                ghost ops: seq<Op>)
      returns (answers: seq<Answer>, down: bool)
      requires Sound(words, State())
      requires types == TypesOf(ops) && getList == GetsOf(ops) && setList == SetsOf(ops)
      modifies this
      ensures Run(State(), answers, down) == ServeAll(words, ops, Run(old(State()), [], false))
      ensures Sound(words, State())
    {
      var gets, sets := getList, setList;
      answers, down := [], false;
      ghost var left := ops;
      var i := 0;
      while i < |types| && !down
        invariant i <= |types| && types[i..] == TypesOf(left) && Sound(words, State())
        invariant !down ==> gets == GetsOf(left) && sets == SetsOf(left)
        invariant ServeAll(words, ops, Run(old(State()), [], false))
                == ServeAll(words, left, Run(State(), answers, down))
      {
        var answer;
        if types[i] == GET {
          answer := ProcessGet(gets[0]);
          gets := gets[1..];
        } else {
          answer := ProcessSet(sets[0].0, sets[0].1);
          sets := sets[1..];
        }
        answers, down := answers + [answer], answer.Raised?;
        left := left[1..];
        i := i + 1;
      }
    }
  }
}
