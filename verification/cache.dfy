/** The file-backed expiring cache: one JSON file per key in the cache directory.
    The directory is a map from file name to content and the clock is an integer
    passed to every operation that reads it. */
module CacheStore {
  import opened Wrappers
  import opened Strings
  import Json

  /** Every cache file name ends with this suffix. */
  const Suffix := ".json"

  /** The TTL of the process-wide cache instance, in seconds. */
  const DefaultTtl := 3600

  /** `Cache()` over a directory holding `files`: the default TTL is 3600 seconds. */
  function NewStore(files: map<string, FileContent>, writable: bool): (r: Store)
    ensures r.files == files && r.writable == writable
    ensures forall key, data, now :: writable ==>
              Set(r, key, data, None, now).Ok? &&
              Set(r, key, data, None, now).value.files[FileName(key)].expiresAt == now + 3600
  {
    Store(files, DefaultTtl, writable)
  }

  /** What a file in the cache directory holds. `Record` is a JSON object whose
      `expires_at` compares with a number; its `data` and `timestamp` fields may be
      missing (`set` always writes both, and nothing ever reads `timestamp`).
      `Corrupt` is everything `expires_at` cannot be read from: a file that is not
      JSON, JSON that is not an object, an object without `expires_at`, or one whose
      `expires_at` does not compare with a number. */
  datatype FileContent =
    | Record(data: Option<Json.Value>, timestamp: Option<int>, expiresAt: int)
    | Corrupt

  /** The cache: the cache directory's files, the TTL used when `set` is given none,
      and whether the process may create, overwrite and remove files there. */
  datatype Store = Store(files: map<string, FileContent>, defaultTtl: int, writable: bool)

  /** The exception `set` lets escape when the cache directory refuses the write. */
  datatype WriteError = WriteRefused

  /** What `get` returns, together with the cache it leaves behind. */
  datatype Lookup = Lookup(value: Option<Json.Value>, after: Store)

  /** `get_stats`'s dictionary. */
  datatype Stats = Stats(total: nat, expired: nat, valid: int)

  /** Separator characters that a key may not carry into a file name. */
  predicate IsSeparator(c: char) {
    c == '/' || c == '\\'
  }

  /** The key with both separators replaced, in the order the code replaces them. */
  function SafeKey(key: string): (r: string)
    ensures |r| == |key|
    ensures forall i :: 0 <= i < |key| ==> r[i] == (if IsSeparator(key[i]) then '_' else key[i])
    ensures '/' !in r && '\\' !in r
  {
    ReplaceChar(ReplaceChar(key, '/', '_'), '\\', '_')
  }

  /** The name of the file that holds `key`'s record. */
  function FileName(key: string): (r: string)
    ensures |r| == |key| + |Suffix|
    ensures r[..|key|] == SafeKey(key)
    ensures EndsWith(r, Suffix)
    ensures '/' !in r && '\\' !in r
  {
    var r := SafeKey(key) + Suffix;
    assert r[|r| - |Suffix|..] == Suffix;
    r
  }

  /** Two keys share a file exactly when they agree once separators are read as `_`. */
  lemma SameFileIff(k1: string, k2: string)
    ensures FileName(k1) == FileName(k2) <==>
              |k1| == |k2| &&
              forall i :: 0 <= i < |k1| ==>
                (if IsSeparator(k1[i]) then '_' else k1[i]) == (if IsSeparator(k2[i]) then '_' else k2[i])
  {
    assert FileName(k1) == SafeKey(k1) + Suffix;
    assert FileName(k2) == SafeKey(k2) + Suffix;
    if FileName(k1) == FileName(k2) {
      assert |k1| == |k2|;
      assert SafeKey(k1) == FileName(k1)[..|k1|] == SafeKey(k2);
      forall i | 0 <= i < |k1|
        ensures (if IsSeparator(k1[i]) then '_' else k1[i]) == (if IsSeparator(k2[i]) then '_' else k2[i])
      {
        assert SafeKey(k1)[i] == SafeKey(k2)[i];
      }
    } else if |k1| == |k2| {
      assert SafeKey(k1) != SafeKey(k2);
      var i :| 0 <= i < |k1| && SafeKey(k1)[i] != SafeKey(k2)[i];
    }
  }

  /** The accepted collision: a separator and an underscore in the same place name
      the same file, so `a/b` and `a_b` share `a_b.json`. */
  lemma SeparatorCollision(x: string, y: string)
    ensures FileName(x + "/" + y) == FileName(x + "_" + y) == FileName(x + "\\" + y)
  {
    var slash, under, back := x + "/" + y, x + "_" + y, x + "\\" + y;
    assert forall i :: 0 <= i < |under| && i != |x| ==> slash[i] == under[i] == back[i];
    SameFileIff(slash, under);
    SameFileIff(back, under);
  }

  /** `clear` and `get_stats` consider exactly the names ending in `.json`. */
  predicate IsCacheFile(name: string) {
    EndsWith(name, Suffix)
  }

  /** A file that `get_stats` counts as expired at time `now`: its `expires_at`
      cannot be read, or the clock is past it. */
  predicate Expired(content: FileContent, now: int) {
    content.Corrupt? || now > content.expiresAt
  }

  /** A file whose `data` `get` returns at time `now`: unexpired and holding `data`. */
  predicate Served(content: FileContent, now: int) {
    !Expired(content, now) && content.data.Some?
  }

  /** The file `name` holds a record that `get` returns at time `now`. */
  predicate Live(files: map<string, FileContent>, name: string, now: int) {
    name in files && Served(files[name], now)
  }

  /** The TTL `set` applies: the given one, or the cache's default when it is `None`. */
  function EffectiveTtl(s: Store, ttl: Option<int>): int {
    ttl.GetOr(s.defaultTtl)
  }

  /** `set(key, data, ttl)` at time `now`. The write is not guarded, so a directory
      that refuses it makes `set` raise. */
  function Set(s: Store, key: string, data: Json.Value, ttl: Option<int>, now: int): (r: Result<Store, WriteError>)
    ensures r.Ok? <==> s.writable
    ensures r.Ok? ==> r.value.defaultTtl == s.defaultTtl && r.value.writable
    ensures r.Ok? ==> r.value.files.Keys == s.files.Keys + {FileName(key)}
    ensures r.Ok? ==> r.value.files[FileName(key)] == Record(Some(data), Some(now), now + EffectiveTtl(s, ttl))
    ensures r.Ok? ==> forall f :: f in s.files && f != FileName(key) ==> r.value.files[f] == s.files[f]
  {
    if !s.writable then Err(WriteRefused)
    else
      var ttl' := if ttl.None? then s.defaultTtl else ttl.value;
      Ok(s.(files := s.files[FileName(key) := Record(Some(data), Some(now), now + ttl')]))
  }

  /** A guarded `os.remove` of file `name`: its failure is swallowed, so a directory
      that refuses it keeps the file. */
  function Remove(s: Store, name: string): Store {
    if s.writable then s.(files := s.files - {name}) else s
  }

  /** `get(key)` at time `now`: the stored data of a live record; otherwise `None`,
      after trying to remove the expired, data-less or corrupt file. */
  function Get(s: Store, key: string, now: int): (r: Lookup)
    ensures r.value.Some? <==> Live(s.files, FileName(key), now)
    ensures r.value.Some? ==> Some(r.value.value) == s.files[FileName(key)].data && r.after == s
    ensures r.value.None? ==>
              r.after.files == (if s.writable then s.files - {FileName(key)} else s.files)
    ensures r.after.defaultTtl == s.defaultTtl && r.after.writable == s.writable
  {
    var name := FileName(key);
    if name !in s.files then Lookup(None, s)
    else
      match s.files[name]
      case Corrupt => Lookup(None, Remove(s, name))
      case Record(data, _, expiresAt) =>
        if now > expiresAt then Lookup(None, Remove(s, name))
        else if data.None? then Lookup(None, Remove(s, name))
        else Lookup(data, s)
  }

  /** `delete(key)`; a refused removal leaves the cache as it was. */
  function Delete(s: Store, key: string): (r: Store)
    ensures s.writable ==> FileName(key) !in r.files
    ensures !s.writable ==> r == s
    ensures forall f :: f != FileName(key) ==> (f in r.files <==> f in s.files)
    ensures forall f :: f in r.files ==> f in s.files && r.files[f] == s.files[f]
    ensures r.defaultTtl == s.defaultTtl && r.writable == s.writable
  {
    var name := FileName(key);
    if name in s.files then Remove(s, name) else s
  }

  /** `clear()`: removes every `.json` file; a refused removal leaves it in place. */
  function Clear(s: Store): (r: Store)
    ensures s.writable ==> forall f :: f in r.files <==> f in s.files && !IsCacheFile(f)
    ensures !s.writable ==> r == s
    ensures forall f :: f in r.files ==> f in s.files && r.files[f] == s.files[f]
    ensures r.defaultTtl == s.defaultTtl && r.writable == s.writable
  {
    if !s.writable then s
    else s.(files := map f | f in s.files && !IsCacheFile(f) :: s.files[f])
  }

  /** The files `get_stats` counts in `total`. */
  function CacheFiles(files: map<string, FileContent>): set<string> {
    set f | f in files && IsCacheFile(f)
  }

  /** The files `get_stats` counts in `expired`. */
  function ExpiredFiles(files: map<string, FileContent>, now: int): set<string> {
    set f | f in files && IsCacheFile(f) && Expired(files[f], now)
  }

  /** `get_stats()` at time `now`: a scan over the directory listing. */
  method GetStats(s: Store, now: int) returns (r: Stats)
    ensures r.total == |CacheFiles(s.files)|
    ensures r.expired == |ExpiredFiles(s.files, now)|
    ensures 0 <= r.expired <= r.total
    ensures r.valid == r.total - r.expired
  {
    ghost var cacheFiles := CacheFiles(s.files);
    ghost var expiredFiles := ExpiredFiles(s.files, now);
    var pending := s.files.Keys;
    var total: nat, expired: nat := 0, 0;
    while pending != {}
      invariant pending <= s.files.Keys
      invariant total == |cacheFiles - pending|
      invariant expired == |expiredFiles - pending|
      invariant expired <= total
      decreases pending
    {
      var name :| name in pending;
      CountStep(cacheFiles, pending, name);
      CountStep(expiredFiles, pending, name);
      if IsCacheFile(name) {
        total := total + 1;
        if Expired(s.files[name], now) {
          expired := expired + 1;
        }
      }
      pending := pending - {name};
    }
    r := Stats(total, expired, total - expired);
  }

  /** Moving one name from the pending set to the visited part adds one to the
      visited count of a set exactly when the name belongs to that set. */
  lemma CountStep(all: set<string>, pending: set<string>, name: string)
    requires name in pending
    ensures |all - (pending - {name})| == |all - pending| + (if name in all then 1 else 0)
  {
    if name in all {
      assert all - (pending - {name}) == (all - pending) + {name};
    } else {
      assert all - (pending - {name}) == all - pending;
    }
  }

  // ---------------------------------------------------------------------
  // Properties relating several operations.
  // ---------------------------------------------------------------------

  /** A value just set is read back, through any key that names the same file, at
      every time up to and including its expiry instant (expiry is strict). */
  lemma SetThenGet(s: Store, key: string, alias: string, data: Json.Value, ttl: Option<int>, now: int, later: int)
    requires s.writable
    requires FileName(alias) == FileName(key)
    requires now <= later <= now + EffectiveTtl(s, ttl)
    ensures Set(s, key, data, ttl, now).Ok?
    ensures Get(Set(s, key, data, ttl, now).value, alias, later) == Lookup(Some(data), Set(s, key, data, ttl, now).value)
  {
  }

  /** Once the clock is past the expiry instant, `get` returns nothing and the file
      is gone, so `get_stats` counts one file fewer. */
  lemma SetThenGetExpired(s: Store, key: string, data: Json.Value, ttl: Option<int>, now: int, later: int)
    requires s.writable
    requires later > now + EffectiveTtl(s, ttl)
    ensures Set(s, key, data, ttl, now).Ok?
    ensures Get(Set(s, key, data, ttl, now).value, key, later).value == None
    ensures FileName(key) !in Get(Set(s, key, data, ttl, now).value, key, later).after.files
    ensures |CacheFiles(Get(Set(s, key, data, ttl, now).value, key, later).after.files)|
            == |CacheFiles(Set(s, key, data, ttl, now).value.files)| - 1
  {
    var set' := Set(s, key, data, ttl, now).value;
    var got := Get(set', key, later);
    assert CacheFiles(got.after.files) == CacheFiles(set'.files) - {FileName(key)};
  }

  /** Setting one key does not change what `get` returns for a key in another file. */
  lemma SetLeavesOtherKeys(s: Store, key: string, other: string, data: Json.Value, ttl: Option<int>, now: int, later: int)
    requires FileName(other) != FileName(key)
    ensures Set(s, key, data, ttl, now).Ok? ==>
              Get(Set(s, key, data, ttl, now).value, other, later).value == Get(s, other, later).value
  {
  }

  /** A corrupt record reads as absent and is removed if the directory allows it;
      nothing else changes. */
  lemma GetCorrupt(s: Store, key: string, now: int)
    requires FileName(key) in s.files && s.files[FileName(key)].Corrupt?
    ensures Get(s, key, now) ==
              Lookup(None, s.(files := if s.writable then s.files - {FileName(key)} else s.files))
  {
  }

  /** An unexpired record without `data` disagrees between the two readers: `get`
      fails on the missing field and removes the file, while `get_stats`, which reads
      only `expires_at`, counts it as valid. */
  lemma DatalessRecordCountedValid(s: Store, key: string, now: int)
    requires FileName(key) in s.files
    requires s.files[FileName(key)].Record? && s.files[FileName(key)].data.None?
    requires now <= s.files[FileName(key)].expiresAt
    ensures Get(s, key, now).value.None?
    ensures s.writable ==> FileName(key) !in Get(s, key, now).after.files
    ensures FileName(key) in CacheFiles(s.files) - ExpiredFiles(s.files, now)
  {
    assert IsCacheFile(FileName(key));
  }

  /** After `clear` in a writable directory, no key has a value and the statistics are all zero. */
  lemma ClearEmpties(s: Store, key: string, now: int)
    requires s.writable
    ensures Get(Clear(s), key, now) == Lookup(None, Clear(s))
    ensures CacheFiles(Clear(s).files) == {}
    ensures ExpiredFiles(Clear(s).files, now) == {}
  {
    assert IsCacheFile(FileName(key));
  }

  /** `delete` in a writable directory makes `get` return nothing for the key and for
      every key sharing its file. */
  lemma DeleteThenGet(s: Store, key: string, alias: string, now: int)
    requires s.writable
    requires FileName(alias) == FileName(key)
    ensures Get(Delete(s, key), alias, now) == Lookup(None, Delete(s, key))
  {
  }

  /** In a directory that refuses writes nothing changes the files: `get`, `delete`
      and `clear` leave them as they were and `set` raises. */
  lemma ReadOnlyKeepsFiles(s: Store, key: string, data: Json.Value, ttl: Option<int>, now: int)
    requires !s.writable
    ensures Get(s, key, now).after == s
    ensures Delete(s, key) == s && Clear(s) == s
    ensures Set(s, key, data, ttl, now) == Err(WriteRefused)
  {
  }
}
