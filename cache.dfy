/**
 * `utils/cache.py`: a directory of JSON files, one per cache key, holding the time the
 * value was written and the value; lazy expiry and self-healing on read; a memoising
 * wrapper; and a sweep that deletes entry files by modification age.
 *
 * The directory is a map from name to entry (a sub-directory, or a file with its
 * permission bits and content), with a second map for each entry's modification time. The clock is a parameter (`now`), and SHA-256 is a
 * function value the store is built with.
 */
module Cache {
  import opened Common
  import opened Text
  import CacheKey

  /** What the `timestamp` field of a stored object holds, as `json.load` reads it: a
      number within the float range (`true` and `false` subtract as 1 and 0, so they count
      as numbers; a float literal beyond the range reads as an infinity), one of the
      non-finite constants `Infinity`, `-Infinity` and `NaN` that `json.load` accepts, an
      integer literal too large to convert to a float, or anything else (a string, list,
      object or `null`). */
  datatype Stamp = Number(seconds: real) | Infinity(positive: bool) | NaN | HugeInteger | NotNumber

  /** A stamp `time.time() - stamp` can be computed for and compared. */
  predicate Comparable(stamp: Stamp) {
    !stamp.NotNumber? && !stamp.HugeInteger?
  }

  /** A key of the stored JSON object: absent, or present with some content. */
  datatype Field<T> = Missing | Present(content: T)

  /** What an entry file holds, as `get` reads it once it is open. A payload is the JSON
      round trip of a returned value; `None` stands for JSON `null`. */
  datatype Content<V> =
    | NotUtf8       // bytes that are not UTF-8: UnicodeDecodeError
    | Undecodable   // not JSON at all (an empty or truncated file too): JSONDecodeError
    | Unloadable(reason: LoadFailure)  // JSON that `json.load` still refuses, see below
    | NotAnObject   // JSON, but not an object: subscripting raises TypeError
    | Object(timestamp: Field<Stamp>, value: Field<Option<V>>)

  /** One name in the cache directory: a sub-directory, which `open` and `os.remove` both
      refuse with OSError, or a file with its permission bits and its content. Opening a
      file for writing truncates it but keeps its permission bits. */
  datatype Record<V> =
    | Directory
    | File(readable: bool, writable: bool, content: Content<V>)

  /** Why `json.load` raises on text that is JSON by the grammar: an integer literal of
      more than 4300 digits makes `int()` raise ValueError, and nesting deeper than the
      interpreter's recursion limit raises RecursionError. Neither is a JSONDecodeError. */
  datatype LoadFailure = TooManyDigits | TooDeep

  /** An exception that leaves `get` or the memoised call. */
  datatype Exception =
    | OSError | TypeError | UnicodeDecodeError | OverflowError | ValueError | RecursionError
    | Raised(name: string)

  /** What a Python call does: return a value (possibly `None`) or raise. */
  datatype Outcome<V> = Returned(value: Option<V>) | Threw(error: Exception)

  /** The cache directory: file contents and modification times, over the same names. */
  datatype Disk<V> = Disk(files: map<string, Record<V>>, mtimes: map<string, real>)

  ghost predicate WellFormed<V>(d: Disk<V>) { d.files.Keys == d.mtimes.Keys }

  /** `_get_cache_path`: the entry file for a key. */
  function CachePath(key: string): (name: string)
    ensures IsJsonName(name)
  {
    key + ".json"
  }

  /** `filename.endswith('.json')`. */
  predicate IsJsonName(name: string) {
    |name| >= 5 && name[|name| - 5..] == ".json"
  }

  /** The object `set` writes. */
  function Payload<V>(value: Option<V>, now: real): Content<V> {
    Object(Present(Number(now)), Present(value))
  }

  /** A readable and writable entry file holding what `set` writes. */
  function Written<V>(value: Option<V>, now: real): Record<V> {
    File(true, true, Payload(value, now))
  }

  /** A name `get` can open for reading. */
  predicate Readable<V>(rec: Record<V>) {
    rec.File? && rec.readable
  }

  /** How `get` judges a record it has opened, at time `now`. */
  datatype Verdict<V> = Fresh(value: Option<V>) | Expired | Malformed | Fails(error: Exception)

  /** `time.time() - timestamp > expiry_time` for a numeric stamp, with IEEE comparison:
      `now - Infinity` is `-Infinity`, `now + Infinity` is `Infinity`, and every comparison
      with `NaN` is false. */
  predicate Elapsed(stamp: Stamp, now: real, expiryTime: int) {
    match stamp
    case Number(t) => now - t > expiryTime as real
    case Infinity(positive) => !positive
    case NaN => false
    case HugeInteger => false
    case NotNumber => false
  }

  /** How `get` judges the content of an entry file it has opened, at time `now`. */
  function Assess<V>(c: Content<V>, now: real, expiryTime: int): (v: Verdict<V>)
    ensures v.Fresh? <==> c.Object? && c.timestamp.Present? && Comparable(c.timestamp.content)
                          && !Elapsed(c.timestamp.content, now, expiryTime) && c.value.Present?
    ensures v.Fresh? ==> v.value == c.value.content
    ensures v.Expired? <==> c.Object? && c.timestamp.Present? && Comparable(c.timestamp.content)
                            && Elapsed(c.timestamp.content, now, expiryTime)
    ensures v.Malformed? <==> c.Undecodable? || (c.Object? && c.timestamp.Missing?)
                              || (c.Object? && c.timestamp.Present? && Comparable(c.timestamp.content)
                                  && !Elapsed(c.timestamp.content, now, expiryTime)
                                  && c.value.Missing?)
    ensures v.Fails? <==> c.NotUtf8? || c.Unloadable? || c.NotAnObject?
                          || (c.Object? && c.timestamp.Present? && !Comparable(c.timestamp.content))
    ensures v.Fails? && c.NotUtf8? ==> v.error == UnicodeDecodeError
    ensures v.Fails? && c.Unloadable? ==> v.error == (if c.reason.TooManyDigits? then ValueError else RecursionError)
    ensures v.Fails? && c.Object? ==> v.error == (if c.timestamp.content.HugeInteger? then OverflowError else TypeError)
    ensures v.Fails? && c.NotAnObject? ==> v.error == TypeError
  {
    match c
    case NotUtf8 => Fails(UnicodeDecodeError)
    case Undecodable => Malformed
    case Unloadable(TooManyDigits) => Fails(ValueError)
    case Unloadable(TooDeep) => Fails(RecursionError)
    case NotAnObject => Fails(TypeError)
    case Object(stamp, value) =>
      match stamp
      case Missing => Malformed
      case Present(NotNumber) => Fails(TypeError)
      case Present(HugeInteger) => Fails(OverflowError)
      case Present(t) =>
        if Elapsed(t, now, expiryTime) then Expired
        else if value.Missing? then Malformed
        else Fresh(value.content)
  }

  /** How `get` judges the name of an entry: a directory, or a file without read
      permission, makes `open(..., 'r')` raise OSError; otherwise the content decides. */
  function Judge<V>(rec: Record<V>, now: real, expiryTime: int): (v: Verdict<V>)
    ensures !Readable(rec) ==> v == Fails(OSError)
    ensures Readable(rec) ==> v == Assess(rec.content, now, expiryTime)
  {
    if Readable(rec) then Assess(rec.content, now, expiryTime) else Fails(OSError)
  }

  /** `get(key)` at time `now`: what it returns or raises, and the directory afterwards. */
  function GetSpec<V>(d: Disk<V>, key: string, now: real, expiryTime: int): (Outcome<V>, Disk<V>)
  {
    var path := CachePath(key);
    if path !in d.files then (Returned(None), d)
    else
      match Judge(d.files[path], now, expiryTime)
      case Fresh(v) => (Returned(v), d)
      case Expired => (Returned(None), Disk(d.files - {path}, d.mtimes - {path}))
      case Malformed => (Returned(None), Disk(d.files - {path}, d.mtimes - {path}))
      case Fails(e) => (Threw(e), d)
  }

  /** The entry of `key` exists and cannot be opened for writing: a directory, or a file
      without write permission. */
  predicate Blocked<V>(d: Disk<V>, key: string) {
    CachePath(key) in d.files
    && (d.files[CachePath(key)].Directory? || !d.files[CachePath(key)].writable)
  }

  /** The entry of `key` is a file without read permission. */
  predicate Unreadable<V>(d: Disk<V>, key: string) {
    CachePath(key) in d.files && d.files[CachePath(key)].File? && !d.files[CachePath(key)].readable
  }

  /** The directory after `open(path, 'w')` on the entry of `key` at time `now`, with
      `content` written: a new file is readable and writable, and an existing one keeps
      its permission bits. Nothing else changes. */
  function Rewritten<V>(d: Disk<V>, key: string, content: Content<V>, now: real): (d': Disk<V>)
    requires !Blocked(d, key)
    ensures d'.files.Keys == d.files.Keys + {CachePath(key)}
    ensures d'.mtimes.Keys == d.mtimes.Keys + {CachePath(key)}
    ensures d'.files[CachePath(key)] == File(!Unreadable(d, key), true, content)
    ensures d'.mtimes[CachePath(key)] == now
    ensures forall n :: n in d.files && n != CachePath(key) ==> d'.files[n] == d.files[n]
    ensures forall n :: n in d.mtimes && n != CachePath(key) ==> d'.mtimes[n] == d.mtimes[n]
  {
    var path := CachePath(key);
    Disk(d.files[path := File(!Unreadable(d, key), true, content)], d.mtimes[path := now])
  }

  /** `set(key, value)` at time `now`: what it returns or raises, and the directory
      afterwards. `dumpError(v)` is what `json.dump` raises on `v`, if anything (TypeError
      for a type JSON has no form for); by then `open(..., 'w')` has truncated the file
      and part of the object may be written, which leaves a file that is not JSON. */
  function SetSpec<V>(d: Disk<V>, key: string, value: Option<V>, now: real,
                      dumpError: V -> Option<Exception>): (r: (Outcome<V>, Disk<V>))
    ensures r.0.Returned? <==> !Blocked(d, key) && (value.None? || dumpError(value.value).None?)
    ensures r.0.Returned? ==> r.0.value.None? && r.1 == Rewritten(d, key, Payload(value, now), now)
    ensures Blocked(d, key) ==> r == (Threw(OSError), d)
    ensures r.1.files.Keys == d.files.Keys + {CachePath(key)}
    ensures forall n :: n in d.files && n != CachePath(key) ==> r.1.files[n] == d.files[n]
    ensures d.mtimes.Keys <= r.1.mtimes.Keys
    ensures forall n :: n in d.mtimes && n != CachePath(key) ==> r.1.mtimes[n] == d.mtimes[n]
  {
    if Blocked(d, key) then (Threw(OSError), d)
    else if value.Some? && dumpError(value.value).Some? then
      (Threw(dumpError(value.value).value), Rewritten(d, key, Undecodable, now))
    else (Returned(None), Rewritten(d, key, Payload(value, now), now))
  }

  /** The files `clear(older_than)` deletes: `.json` names, old enough by modification
      time when an age is given, whose removal does not fail. `os.remove` always fails on
      a directory; `failing` names the files whose removal fails as well (a file in a
      directory the process cannot write, say). */
  function Swept<V>(d: Disk<V>, olderThan: Option<int>, now: real, failing: set<string>): (gone: set<string>)
    ensures gone <= d.files.Keys
    ensures forall n :: n in gone ==> IsJsonName(n) && n !in failing && d.files[n].File?
  {
    set n | n in d.files && n in d.mtimes && IsJsonName(n) && d.files[n].File? && n !in failing
              && (olderThan.None? || now - d.mtimes[n] > olderThan.value as real)
  }

  lemma {:induction false} SweptHas<V>(d: Disk<V>, olderThan: Option<int>, now: real, failing: set<string>, n: string)
    requires WellFormed(d) && n in d.files
    ensures n in Swept(d, olderThan, now, failing) <==>
              IsJsonName(n) && d.files[n].File? && n !in failing
              && (olderThan.None? || now - d.mtimes[n] > olderThan.value as real)
  {
  }

  /** The checks the loop of `clear` makes on one listed name, modified at `mtime`:
      whether it ends up removed. Removing a directory or a name in `failing` raises
      OSError, which the loop skips. */
  method Removes(name: string, directory: bool, mtime: real, olderThan: Option<int>, now: real,
                 failing: set<string>)
    returns (removed: bool)
    ensures removed <==> IsJsonName(name) && !directory && name !in failing
                         && (olderThan.None? || now - mtime > olderThan.value as real)
  {
    if !IsJsonName(name) {
      return false;
    }
    if olderThan.Some? {
      var age := now - mtime;
      if age <= olderThan.value as real {
        return false;
      }
    }
    removed := !directory && name !in failing;
  }

  /** Visiting one more name of the listing keeps "removed so far = victims visited so far". */
  lemma {:induction false} VisitStep(target: set<string>, gone: set<string>, listing: set<string>, name: string, removed: bool)
    requires gone == target - listing && name in listing
    requires removed <==> name in target
    ensures (if removed then gone + {name} else gone) == target - (listing - {name})
  {
  }

  /** Removing one more listed name keeps the directory equal to the original one minus
      the names removed so far, and the count equal to their number. */
  lemma {:induction false} RemoveOneMore<V>(d: Disk<V>, gone: set<string>, name: string)
    requires name !in gone
    ensures d.files - (gone + {name}) == (d.files - gone) - {name}
    ensures d.mtimes - (gone + {name}) == (d.mtimes - gone) - {name}
    ensures |gone + {name}| == |gone| + 1
  {
  }

  /** One visit of the loop of `clear`: the names removed so far stay the victims visited
      so far, and the directory stays the original one minus them. */
  lemma {:induction false} ClearStep<V>(d: Disk<V>, olderThan: Option<int>, now: real, failing: set<string>,
                                        gone: set<string>, listing: set<string>, name: string, removed: bool)
    requires WellFormed(d) && listing <= d.files.Keys && name in listing
    requires gone == Swept(d, olderThan, now, failing) - listing
    requires removed <==> IsJsonName(name) && !d.files[name].Directory? && name !in failing
                          && (olderThan.None? || now - d.mtimes[name] > olderThan.value as real)
    ensures var next := if removed then gone + {name} else gone;
            next == Swept(d, olderThan, now, failing) - (listing - {name})
            && d.files - next == (if removed then (d.files - gone) - {name} else d.files - gone)
            && d.mtimes - next == (if removed then (d.mtimes - gone) - {name} else d.mtimes - gone)
            && |next| == |gone| + (if removed then 1 else 0)
  {
    SweptHas(d, olderThan, now, failing, name);
    VisitStep(Swept(d, olderThan, now, failing), gone, listing, name, removed);
    if removed {
      RemoveOneMore(d, gone, name);
    }
  }

  /** The loop of `clear` over the listing of the directory `d`: each listed name is
      removed when `Removes` says so, and the names removed are counted. The listing is
      visited in no particular order. */
  method Sweep<V>(d: Disk<V>, olderThan: Option<int>, now: real, failing: set<string>)
    returns (after: Disk<V>, count: nat)
    requires WellFormed(d)
    ensures var gone := Swept(d, olderThan, now, failing);
            after == Disk(d.files - gone, d.mtimes - gone) && count == |gone|
  {
    ghost var target := Swept(d, olderThan, now, failing);
    ghost var gone: set<string> := {};
    var entries, stamps := d.files, d.mtimes;
    count := 0;
    var listing := entries.Keys;
    while listing != {}
      invariant listing <= d.files.Keys
      invariant gone == target - listing
      invariant entries == d.files - gone && stamps == d.mtimes - gone
      invariant count == |gone|
      decreases listing
    {
      var name :| name in listing;
      assert name !in gone;
      var removed := Removes(name, entries[name].Directory?, stamps[name], olderThan, now, failing);
      ClearStep(d, olderThan, now, failing, gone, listing, name, removed);
      listing := listing - {name};
      if removed {
        entries, stamps := entries - {name}, stamps - {name};
        gone := gone + {name};
        count := count + 1;
      }
    }
    assert gone == target;
    after := Disk(entries, stamps);
  }

  /** A keyword argument: `str()` of its value and the value's truthiness. */
  datatype Arg = Arg(text: string, truthy: bool)

  predicate DistinctArgNames(kwargs: seq<(string, Arg)>) {
    forall i, j :: 0 <= i < j < |kwargs| ==> kwargs[i].0 != kwargs[j].0
  }

  /** The truth of `kwargs.pop('skip_cache', False)`. */
  predicate SkipRequested(kwargs: seq<(string, Arg)>) {
    exists i :: 0 <= i < |kwargs| && kwargs[i].0 == "skip_cache" && kwargs[i].1.truthy
  }

  /** The keyword arguments left after `kwargs.pop('skip_cache', ...)`, as `str()` text. */
  function KeyedArgs(kwargs: seq<(string, Arg)>): (kw: CacheKey.Kwargs)
    requires DistinctArgNames(kwargs)
    ensures CacheKey.DistinctNames(kw)
    ensures forall i :: 0 <= i < |kw| ==> kw[i].0 != "skip_cache"
    ensures forall p :: p in kw <==> exists i :: 0 <= i < |kwargs| && kwargs[i].0 != "skip_cache"
                                                && p == (kwargs[i].0, kwargs[i].1.text)
    decreases |kwargs|
  {
    if kwargs == [] then []
    else
      var tail := KeyedArgs(kwargs[1..]);
      assert forall i :: 0 < i < |kwargs| ==> kwargs[i] == kwargs[1..][i - 1];
      if kwargs[0].0 == "skip_cache" then tail
      else
        assert forall q :: q in tail ==> q.0 != kwargs[0].0;
        var r := [(kwargs[0].0, kwargs[0].1.text)] + tail;
        assert CacheKey.DistinctNames(r) by {
          forall i, j | 0 <= i < j < |r| ensures r[i].0 != r[j].0 {
            assert r[j] == tail[j - 1] && r[j] in tail;
            if i > 0 {
              assert r[i] == tail[i - 1];
            }
          }
        }
        r
  }

  /** A keyword argument named `self`: passing it on to `_get_cache_key(self, ...)` raises
      TypeError (multiple values for argument 'self'). */
  predicate SelfPassed(kwargs: seq<(string, Arg)>) {
    exists i :: 0 <= i < |kwargs| && kwargs[i].0 == "self"
  }

  /** The hashed key the wrapper derives for a call of `name` (a call that passes no
      keyword `self`; one that does raises instead). */
  function MemoKey(digest: string -> string, name: string, args: seq<string>,
                   kwargs: seq<(string, Arg)>): string
    requires DistinctArgNames(kwargs) && !SelfPassed(kwargs)
  {
    digest(CacheKey.KeyString(name, args, KeyedArgs(kwargs)))
  }

  /** One call of the memoised wrapper: its outcome, whether the wrapped function ran,
      and the directory afterwards. */
  datatype Memo<V> = Memo(outcome: Outcome<V>, invoked: bool, disk: Disk<V>)

  /** The wrapper of `cached(func)` called with `args` and `kwargs`. `call` is what `func`
      does when it runs; the read happens at `readAt` and the write at `writtenAt`; an
      exception the write raises leaves the wrapper. */
  function CachedSpec<V>(d: Disk<V>, expiryTime: int, digest: string -> string,
                         dumpError: V -> Option<Exception>, name: string,
                         args: seq<string>, kwargs: seq<(string, Arg)>, call: Outcome<V>,
                         readAt: real, writtenAt: real): Memo<V>
    requires DistinctArgNames(kwargs)
  {
    if SkipRequested(kwargs) then Memo(call, true, d)
    else if SelfPassed(kwargs) then Memo(Threw(TypeError), false, d)
    else
      var key := MemoKey(digest, name, args, kwargs);
      var (got, d1) := GetSpec(d, key, readAt, expiryTime);
      if got.Threw? || got.value.Some? then Memo(got, false, d1)
      else if call.Threw? then Memo(call, true, d1)
      else
        var (written, d2) := SetSpec(d1, key, call.value, writtenAt, dumpError);
        Memo(if written.Threw? then written else call, true, d2)
  }

  /** The `expiry_time` a store gets when none is given: one day, in seconds. */
  const DefaultExpiry: int := 86400

  /** The store: its configuration, and the directory it reads and writes. */
  class CacheStore<V> {
    const expiryTime: int
    const digest: string -> string
    const dumpError: V -> Option<Exception>
    var files: map<string, Record<V>>
    var mtimes: map<string, real>

    ghost predicate Valid() reads this {
      files.Keys == mtimes.Keys
    }

    function State(): Disk<V> reads this {
      Disk(files, mtimes)
    }

    /** `Cache(cache_dir, expiry_time)`: `found` is the directory when it already exists;
        otherwise it is created empty. `expiry_time` defaults to one day, as for the
        global instance `cache = Cache()`. */
    constructor (digest: string -> string, dumpError: V -> Option<Exception>,
                 found: Option<Disk<V>>, expiryTime: int := DefaultExpiry)
      requires found.Some? ==> WellFormed(found.value)
      ensures Valid()
      ensures this.expiryTime == expiryTime && this.digest == digest && this.dumpError == dumpError
      ensures State() == if found.Some? then found.value else Disk(map[], map[])
    {
      this.expiryTime := expiryTime;
      this.digest := digest;
      this.dumpError := dumpError;
      if found.Some? {
        files := found.value.files;
        mtimes := found.value.mtimes;
      } else {
        files := map[];
        mtimes := map[];
      }
    }

    /** `get(key)` at time `now`. */
    method Get(key: string, now: real) returns (r: Outcome<V>)
      requires Valid()
      modifies this
      ensures Valid()
      ensures (r, State()) == GetSpec(old(State()), key, now, expiryTime)
    {
      var path := CachePath(key);
      if path !in files {
        return Returned(None);
      }
      var verdict := Judge(files[path], now, expiryTime);
      if verdict.Fails? {
        return Threw(verdict.error);
      }
      if verdict.Fresh? {
        return Returned(verdict.value);
      }
      files := files - {path};
      mtimes := mtimes - {path};
      r := Returned(None);
    }

    /** `set(key, value)` at time `now`. */
    method Set(key: string, value: Option<V>, now: real) returns (r: Outcome<V>)
      requires Valid()
      modifies this
      ensures Valid()
      ensures (r, State()) == SetSpec(old(State()), key, value, now, dumpError)
    {
      var path := CachePath(key);
      if path in files && (files[path].Directory? || !files[path].writable) {
        return Threw(OSError);
      }
      var readable := path !in files || files[path].readable;
      mtimes := mtimes[path := now];
      if value.Some? && dumpError(value.value).Some? {
        files := files[path := File(readable, true, Undecodable)];
        return Threw(dumpError(value.value).value);
      }
      files := files[path := File(readable, true, Payload(value, now))];
      r := Returned(None);
    }

    /** `clear(older_than)` at time `now`; removing a name in `failing` raises OSError,
        which the loop skips. */
    method Clear(olderThan: Option<int>, now: real, failing: set<string>) returns (count: nat)
      requires Valid()
      modifies this
      ensures Valid()
      ensures var gone := Swept(old(State()), olderThan, now, failing);
              State() == Disk(old(files) - gone, old(mtimes) - gone) && count == |gone|
    {
      var after;
      after, count := Sweep(State(), olderThan, now, failing);
      files, mtimes := after.files, after.mtimes;
    }

    /** One call of the wrapper `cached(func)` returns, for a function called `name`;
        `call` is what `func(*args, **kwargs)` does when it runs. */
    method Cached(name: string, args: seq<string>, kwargs: seq<(string, Arg)>, call: Outcome<V>,
                  readAt: real, writtenAt: real)
      returns (r: Outcome<V>, invoked: bool)
      requires Valid()
      requires DistinctArgNames(kwargs)
      modifies this
      ensures Valid()
      ensures Memo(r, invoked, State())
              == CachedSpec(old(State()), expiryTime, digest, dumpError, name, args, kwargs, call, readAt, writtenAt)
    {
      if SkipRequested(kwargs) {
        return call, true;
      }
      if SelfPassed(kwargs) {
        return Threw(TypeError), false;
      }
      var key := MemoKey(digest, name, args, kwargs);
      var cachedResult := Get(key, readAt);
      if cachedResult.Threw? || cachedResult.value.Some? {
        return cachedResult, false;
      }
      r, invoked := call, true;
      if r.Returned? {
        var written := Set(key, r.value, writtenAt);
        if written.Threw? {
          r := written;
        }
      }
    }
  }

  // ----- What `get` promises -----

  /** A key with no entry file is a miss, and nothing changes. */
  lemma {:induction false} GetAbsentIsMiss<V>(d: Disk<V>, key: string, now: real, expiryTime: int)
    requires CachePath(key) !in d.files
    ensures GetSpec(d, key, now, expiryTime) == (Returned(None), d)
  {
  }

  /** An entry older than the expiry time is a miss and its file is removed; an entry
      exactly as old as the expiry time is still a hit. */
  lemma {:induction false} GetExpiry<V>(d: Disk<V>, key: string, now: real, expiryTime: int, t: real, v: Option<V>)
    requires CachePath(key) in d.files && d.files[CachePath(key)] == Written(v, t)
    ensures now - t > expiryTime as real ==>
              GetSpec(d, key, now, expiryTime).0 == Returned(None)
              && GetSpec(d, key, now, expiryTime).1.files == d.files - {CachePath(key)}
    ensures now - t == expiryTime as real ==> GetSpec(d, key, now, expiryTime) == (Returned(v), d)
  {
  }

  /** An entry that is not JSON, or lacks `timestamp` (or, when fresh, `value`), is a miss
      and its file is removed; every other file stays. */
  lemma {:induction false} GetHealsMalformed<V>(d: Disk<V>, key: string, now: real, expiryTime: int)
    requires CachePath(key) in d.files
    requires Judge(d.files[CachePath(key)], now, expiryTime).Malformed?
    ensures GetSpec(d, key, now, expiryTime).0 == Returned(None)
    ensures GetSpec(d, key, now, expiryTime).1.files.Keys == d.files.Keys - {CachePath(key)}
    ensures forall n :: n in d.files && n != CachePath(key) ==>
              GetSpec(d, key, now, expiryTime).1.files[n] == d.files[n]
  {
  }

  /** Failures other than undecodable JSON and missing keys propagate, and nothing is
      removed: a file that cannot be opened for reading, bytes that are not UTF-8, JSON
      that `json.load` refuses all the same, JSON that is not an object, a timestamp that
      is not a number or does not fit a float. */
  lemma {:induction false} GetPropagatesOtherErrors<V>(d: Disk<V>, key: string, now: real, expiryTime: int)
    requires CachePath(key) in d.files
    requires var rec := d.files[CachePath(key)];
             !Readable(rec) || rec.content.NotUtf8? || rec.content.Unloadable? || rec.content.NotAnObject?
             || (rec.content.Object? && rec.content.timestamp.Present? && !Comparable(rec.content.timestamp.content))
    ensures GetSpec(d, key, now, expiryTime).0.Threw?
    ensures GetSpec(d, key, now, expiryTime).1 == d
  {
  }

  /** Non-finite timestamps: an entry stamped `Infinity` or `NaN` never expires, and one
      stamped `-Infinity` always has. */
  lemma {:induction false} NonFiniteStamps<V>(v: Option<V>, now: real, expiryTime: int)
    ensures Assess(Object(Present(Infinity(true)), Present(v)), now, expiryTime) == Fresh(v)
    ensures Assess(Object(Present(NaN), Present(v)), now, expiryTime) == Fresh(v)
    ensures Assess(Object(Present(Infinity(false)), Present(v)), now, expiryTime) == Expired
  {
  }

  /** After a `set(k, v)` at time `t` that returns, `get(k)` within the expiry time
      returns `v` and leaves the directory as it was, unless the entry file was
      write-only, which it stays (`WriteOnlyEntry`). */
  lemma {:induction false} SetThenGet<V>(d: Disk<V>, key: string, v: Option<V>, t: real, now: real, expiryTime: int,
                                         dumpError: V -> Option<Exception>)
    requires !Unreadable(d, key)
    requires now - t <= expiryTime as real
    ensures var (r, d') := SetSpec(d, key, v, t, dumpError);
            r.Returned? ==> GetSpec(d', key, now, expiryTime) == (Returned(v), d')
  {
  }

  /** A `set` whose value `json.dump` refuses raises that exception and leaves a file that
      is not JSON, which the next `get` of the key removes, reporting a miss (unless the
      file is write-only, see `WriteOnlyEntry`). */
  lemma {:induction false} FailedDumpHeals<V>(d: Disk<V>, key: string, v: V, t: real, now: real, expiryTime: int,
                                              dumpError: V -> Option<Exception>)
    requires WellFormed(d) && !Blocked(d, key) && !Unreadable(d, key) && dumpError(v).Some?
    ensures var (r, d') := SetSpec(d, key, Some(v), t, dumpError);
            r == Threw(dumpError(v).value)
            && GetSpec(d', key, now, expiryTime)
               == (Returned(None), Disk(d.files - {CachePath(key)}, d.mtimes - {CachePath(key)}))
  {
    var path := CachePath(key);
    var d' := SetSpec(d, key, Some(v), t, dumpError).1;
    assert d'.files - {path} == d.files - {path};
    assert d'.mtimes - {path} == d.mtimes - {path};
  }

  /** A `set` on an entry that cannot be opened for writing raises OSError and changes
      nothing; a directory, or a file that cannot be read either, makes `get` raise OSError
      too. */
  lemma {:induction false} BlockedSetRaises<V>(d: Disk<V>, key: string, v: Option<V>, t: real, now: real,
                                               expiryTime: int, dumpError: V -> Option<Exception>)
    requires Blocked(d, key)
    ensures SetSpec(d, key, v, t, dumpError) == (Threw(OSError), d)
    ensures !Readable(d.files[CachePath(key)]) ==> GetSpec(d, key, now, expiryTime) == (Threw(OSError), d)
  {
  }

  /** A read-only entry file: `get` reads it as any other, while `set` raises OSError and
      changes nothing. */
  lemma {:induction false} ReadOnlyEntry<V>(d: Disk<V>, key: string, c: Content<V>, v: Option<V>, t: real,
                                            now: real, expiryTime: int, dumpError: V -> Option<Exception>)
    requires CachePath(key) in d.files && d.files[CachePath(key)] == File(true, false, c)
    ensures SetSpec(d, key, v, t, dumpError) == (Threw(OSError), d)
    ensures Judge(d.files[CachePath(key)], now, expiryTime) == Assess(c, now, expiryTime)
    ensures Assess(c, now, expiryTime).Fresh? ==>
              GetSpec(d, key, now, expiryTime) == (Returned(Assess(c, now, expiryTime).value), d)
  {
  }

  /** A write-only entry file: `get` raises OSError; `set` writes it (or raises what
      `json.dump` raises), and it stays write-only, so `get` still raises OSError. */
  lemma {:induction false} WriteOnlyEntry<V>(d: Disk<V>, key: string, v: Option<V>, t: real, now: real,
                                             expiryTime: int, dumpError: V -> Option<Exception>)
    requires CachePath(key) in d.files && d.files[CachePath(key)].File?
    requires !d.files[CachePath(key)].readable && d.files[CachePath(key)].writable
    ensures GetSpec(d, key, now, expiryTime) == (Threw(OSError), d)
    ensures var (r, d') := SetSpec(d, key, v, t, dumpError);
            (r.Returned? <==> v.None? || dumpError(v.value).None?)
            && GetSpec(d', key, now, expiryTime) == (Threw(OSError), d')
  {
  }

  /** A `set`, whether it returns or raises, keeps the directory well formed and touches
      only its own key. */
  lemma {:induction false} SetKeepsOthers<V>(d: Disk<V>, key: string, other: string, v: Option<V>, t: real, now: real,
                                             expiryTime: int, dumpError: V -> Option<Exception>)
    requires WellFormed(d)
    requires CachePath(other) != CachePath(key)
    ensures WellFormed(SetSpec(d, key, v, t, dumpError).1)
    ensures GetSpec(SetSpec(d, key, v, t, dumpError).1, other, now, expiryTime).0 == GetSpec(d, other, now, expiryTime).0
  {
  }

  // ----- What `clear` promises -----

  /** `clear()` removes every `.json` file whose removal succeeds, never a directory or a
      file of another name, and counts what it removed. */
  lemma {:induction false} ClearAll<V>(d: Disk<V>, now: real, failing: set<string>)
    requires WellFormed(d)
    ensures var gone := Swept(d, None, now, failing);
            (forall n :: n in d.files ==> (n in gone <==> IsJsonName(n) && d.files[n].File? && n !in failing))
  {
  }

  /** `clear(t)` removes only files whose modification age exceeds `t`, and every such
      `.json` file whose removal succeeds. */
  lemma {:induction false} ClearByAge<V>(d: Disk<V>, t: int, now: real, failing: set<string>)
    requires WellFormed(d)
    ensures var gone := Swept(d, Some(t), now, failing);
            forall n :: n in d.files ==>
              (n in gone <==> IsJsonName(n) && d.files[n].File? && n !in failing && now - d.mtimes[n] > t as real)
  {
  }

  /** Every entry file `set` writes, in full or cut short by a failed `json.dump`, is a
      `.json` file, so `clear()` with no failing removal deletes it. */
  lemma {:induction false} ClearRemovesEntries<V>(d: Disk<V>, key: string, v: Option<V>, t: real, now: real,
                                                  dumpError: V -> Option<Exception>)
    requires WellFormed(d) && !Blocked(d, key)
    ensures CachePath(key) in Swept(SetSpec(d, key, v, t, dumpError).1, None, now, {})
  {
  }

  // ----- What the memoising wrapper promises -----

  /** With `skip_cache` truthy the function runs, its outcome is returned, and the
      directory is neither read nor written. */
  lemma {:induction false} SkipBypassesCache<V>(d: Disk<V>, expiryTime: int, digest: string -> string,
                             dumpError: V -> Option<Exception>, name: string,
                             args: seq<string>, kwargs: seq<(string, Arg)>, call: Outcome<V>,
                             readAt: real, writtenAt: real)
    requires DistinctArgNames(kwargs)
    requires SkipRequested(kwargs)
    ensures CachedSpec(d, expiryTime, digest, dumpError, name, args, kwargs, call, readAt, writtenAt) == Memo(call, true, d)
  {
  }

  /** Without `skip_cache`, a keyword argument named `self` makes the wrapper raise
      TypeError before anything is read or run. */
  lemma {:induction false} SelfKeywordRaises<V>(d: Disk<V>, expiryTime: int, digest: string -> string,
                             dumpError: V -> Option<Exception>, name: string,
                             args: seq<string>, kwargs: seq<(string, Arg)>, call: Outcome<V>,
                             readAt: real, writtenAt: real)
    requires DistinctArgNames(kwargs)
    requires !SkipRequested(kwargs) && SelfPassed(kwargs)
    ensures CachedSpec(d, expiryTime, digest, dumpError, name, args, kwargs, call, readAt, writtenAt)
            == Memo(Threw(TypeError), false, d)
  {
  }

  /** A stored value other than `None` that has not expired is returned without running
      the function, and the directory does not change. */
  lemma {:induction false} HitSkipsCall<V>(d: Disk<V>, expiryTime: int, digest: string -> string,
                             dumpError: V -> Option<Exception>, name: string,
                        args: seq<string>, kwargs: seq<(string, Arg)>, call: Outcome<V>,
                        readAt: real, writtenAt: real, t: real, v: V)
    requires DistinctArgNames(kwargs) && !SkipRequested(kwargs) && !SelfPassed(kwargs)
    requires var path := CachePath(MemoKey(digest, name, args, kwargs));
             path in d.files && d.files[path] == Written(Some(v), t)
    requires readAt - t <= expiryTime as real
    ensures CachedSpec(d, expiryTime, digest, dumpError, name, args, kwargs, call, readAt, writtenAt)
            == Memo(Returned(Some(v)), false, d)
  {
  }

  /** On a miss, or when the stored value is `None`, the function runs once; a value it
      returns is stored under the call's key at `writtenAt` and returned unless that write
      raises, and an exception it raises leaves nothing written. */
  lemma {:induction false} MissRunsCall<V>(d: Disk<V>, expiryTime: int, digest: string -> string,
                             dumpError: V -> Option<Exception>, name: string,
                        args: seq<string>, kwargs: seq<(string, Arg)>, call: Outcome<V>,
                        readAt: real, writtenAt: real)
    requires DistinctArgNames(kwargs) && !SkipRequested(kwargs) && !SelfPassed(kwargs)
    requires GetSpec(d, MemoKey(digest, name, args, kwargs), readAt, expiryTime).0 == Returned(None)
    ensures var m := CachedSpec(d, expiryTime, digest, dumpError, name, args, kwargs, call, readAt, writtenAt);
            var healed := GetSpec(d, MemoKey(digest, name, args, kwargs), readAt, expiryTime).1;
            m.invoked
            && (call.Threw? ==> m.outcome == call && m.disk == healed)
            && (call.Returned? ==>
                  var written := SetSpec(healed, MemoKey(digest, name, args, kwargs), call.value, writtenAt, dumpError);
                  m.disk == written.1 && m.outcome == (if written.0.Threw? then written.0 else call))
  {
  }

  /** Two calls with the same arguments in a row: when the first ran the function and got
      a value other than `None`, the second, within the expiry time of the write, returns
      that value without running the function. */
  lemma {:induction false} SecondCallHits<V>(d: Disk<V>, expiryTime: int, digest: string -> string,
                             dumpError: V -> Option<Exception>, name: string,
                          args: seq<string>, kwargs: seq<(string, Arg)>, call1: Outcome<V>,
                          call2: Outcome<V>, read1: real, write1: real, read2: real, write2: real,
                          v: V)
    requires DistinctArgNames(kwargs) && !SkipRequested(kwargs)
    requires var m1 := CachedSpec(d, expiryTime, digest, dumpError, name, args, kwargs, call1, read1, write1);
             m1.invoked && m1.outcome == Returned(Some(v))
    requires read2 - write1 <= expiryTime as real
    ensures var m1 := CachedSpec(d, expiryTime, digest, dumpError, name, args, kwargs, call1, read1, write1);
            CachedSpec(m1.disk, expiryTime, digest, dumpError, name, args, kwargs, call2, read2, write2)
            == Memo(Returned(Some(v)), false, m1.disk)
  {
    var m1 := CachedSpec(d, expiryTime, digest, dumpError, name, args, kwargs, call1, read1, write1);
    assert !SelfPassed(kwargs);
    var key := MemoKey(digest, name, args, kwargs);
    assert m1.disk.files[CachePath(key)] == Written(Some(v), write1);
    HitSkipsCall(m1.disk, expiryTime, digest, dumpError, name, args, kwargs, call2, read2, write2, write1, v);
  }

  /** A stored `None` reads as a miss: after a call whose function returned `None`, the
      next call with the same arguments runs the function again. */
  lemma {:induction false} StoredNoneRunsAgain<V>(d: Disk<V>, expiryTime: int, digest: string -> string,
                             dumpError: V -> Option<Exception>, name: string,
                               args: seq<string>, kwargs: seq<(string, Arg)>, call1: Outcome<V>,
                               call2: Outcome<V>, read1: real, write1: real, read2: real, write2: real)
    requires DistinctArgNames(kwargs) && !SkipRequested(kwargs)
    requires var m1 := CachedSpec(d, expiryTime, digest, dumpError, name, args, kwargs, call1, read1, write1);
             m1.invoked && m1.outcome == Returned(None)
    ensures var m1 := CachedSpec(d, expiryTime, digest, dumpError, name, args, kwargs, call1, read1, write1);
            CachedSpec(m1.disk, expiryTime, digest, dumpError, name, args, kwargs, call2, read2, write2).invoked
  {
    var m1 := CachedSpec(d, expiryTime, digest, dumpError, name, args, kwargs, call1, read1, write1);
    assert !SelfPassed(kwargs);
    var key := MemoKey(digest, name, args, kwargs);
    assert m1.disk.files[CachePath(key)] == Written(None, write1);
    assert GetSpec(m1.disk, key, read2, expiryTime).0 == Returned(None);
  }

  /** A read-only entry file holding a fresh `null`: the wrapper reads a miss, runs the
      function, and then raises the OSError of the `set` that cannot open the file, which
      stays as it was. */
  lemma {:induction false} ReadOnlyNullRaises<V>(d: Disk<V>, expiryTime: int, digest: string -> string,
                             dumpError: V -> Option<Exception>, name: string,
                             args: seq<string>, kwargs: seq<(string, Arg)>, call: Outcome<V>,
                             readAt: real, writtenAt: real, t: real)
    requires DistinctArgNames(kwargs) && !SkipRequested(kwargs) && !SelfPassed(kwargs)
    requires var path := CachePath(MemoKey(digest, name, args, kwargs));
             path in d.files && d.files[path] == File(true, false, Payload(None, t))
    requires readAt - t <= expiryTime as real
    requires call.Returned?
    ensures CachedSpec(d, expiryTime, digest, dumpError, name, args, kwargs, call, readAt, writtenAt)
            == Memo(Threw(OSError), true, d)
  {
  }

  /** The key ignores the order of the keyword arguments and the `skip_cache` flag. */
  lemma {:induction false} MemoKeyIgnoresKwargOrder(digest: string -> string, name: string, args: seq<string>,
                                 kw1: seq<(string, Arg)>, kw2: seq<(string, Arg)>)
    requires DistinctArgNames(kw1) && DistinctArgNames(kw2) && !SelfPassed(kw1) && !SelfPassed(kw2)
    requires forall p :: p in kw1 && p.0 != "skip_cache" <==> p in kw2 && p.0 != "skip_cache"
    ensures MemoKey(digest, name, args, kw1) == MemoKey(digest, name, args, kw2)
  {
    var a, b := KeyedArgs(kw1), KeyedArgs(kw2);
    forall p ensures p in a <==> p in b {
      if p in a {
        var i :| 0 <= i < |kw1| && kw1[i].0 != "skip_cache" && p == (kw1[i].0, kw1[i].1.text);
        assert kw1[i] in kw1;
        var j :| 0 <= j < |kw2| && kw2[j] == kw1[i];
      }
      if p in b {
        var j :| 0 <= j < |kw2| && kw2[j].0 != "skip_cache" && p == (kw2[j].0, kw2[j].1.text);
        assert kw2[j] in kw2;
        var i :| 0 <= i < |kw1| && kw1[i] == kw2[j];
      }
    }
    DistinctSameSet(a, b);
    CacheKey.KeyIgnoresKwargOrder(name, args, a, b);
  }

  /** Two duplicate-free lists with the same elements hold them with the same multiplicity. */
  lemma {:induction false} DistinctSameSet(a: CacheKey.Kwargs, b: CacheKey.Kwargs)
    requires CacheKey.DistinctNames(a) && CacheKey.DistinctNames(b)
    requires forall p :: p in a <==> p in b
    ensures multiset(a) == multiset(b)
  {
    forall p ensures multiset(a)[p] == multiset(b)[p] {
      OccursOnce(a, p);
      OccursOnce(b, p);
    }
  }

  lemma {:induction false} OccursOnce(s: CacheKey.Kwargs, p: (string, string))
    requires CacheKey.DistinctNames(s)
    ensures multiset(s)[p] == if p in s then 1 else 0
    decreases |s|
  {
    if s != [] {
      assert s == [s[0]] + s[1..];
      assert CacheKey.DistinctNames(s[1..]) by {
        forall i, j | 0 <= i < j < |s[1..]| ensures s[1..][i].0 != s[1..][j].0 {
          assert s[1..][i] == s[i + 1] && s[1..][j] == s[j + 1];
        }
      }
      OccursOnce(s[1..], p);
      if s[0] == p {
        assert p !in s[1..] by {
          forall j | 0 <= j < |s[1..]| ensures s[1..][j] != p {
            assert s[1..][j] == s[j + 1];
          }
        }
      }
    }
  }
}
