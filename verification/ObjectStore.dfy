/**
 PUT, GET and DELETE of cpp-object-storage-demo/server.cpp over the data directory and
 the metadata store, with injected failures of writes, flushes, renames, removes and
 metadata updates.  The operating system resolves a key to a file; different keys may
 resolve to the same one.  Replacing an object goes through the file of the key plus
 ".tmp".
 */
module ObjectStore {

  type Key = string
  type Path = string
  type Bytes = seq<int>

  /** The file that a key names in the data directory. */
  type Resolver = Key -> Path

  datatype Status = Ok | NotFound | Exception | Crash

  /** What a handler answers; `data` only for a successful GET. */
  datatype Reply = Reply(status: Status, data: Bytes)

  /**
   Injected failures.  A write fails inside `writeData`, which reports it, after `written` bytes; or the
   bytes stay in the stdio buffer and only `fclose` fails to write them, after `flushed` bytes, when the
   reply is already fixed.
   */
  datatype Faults = Faults(write: bool, written: nat, flush: bool, flushed: nat,
                           rename: bool, remove: bool, metaPut: bool, metaDel: bool)

  datatype Op = Put(key: Key, body: Bytes, f: Faults) | Get(key: Key) | Delete(key: Key, f: Faults)

  datatype Disk = Disk(files: map<Path, Bytes>, meta: set<Key>)

  function Tmp(key: Key): Key { key + ".tmp" }

  /** `writeData` reports fewer bytes than the body has. */
  predicate Refused(body: Bytes, f: Faults) { f.write && f.written < |body| }

  /** `fclose` loses the end of the body, and nobody looks. */
  predicate Short(body: Bytes, f: Faults) { f.flush && f.flushed < |body| }

  /** What the file holds once it is closed. */
  function Closed(body: Bytes, f: Faults): Bytes {
    if Refused(body, f) then body[..f.written] else if Short(body, f) then body[..f.flushed] else body
  }

  // ----- Handlers, as functions -----

  function PutDisk(file: Resolver, d: Disk, key: Key, body: Bytes, f: Faults): (Disk, Reply) {
    var data := Closed(body, f);
    if body == [] then (d, Reply(Exception, []))            // an empty body arrives as a null buffer
    else if key !in d.meta then
      var files := d.files[file(key) := data];
      if Refused(body, f) || f.metaPut then (Disk(files, d.meta), Reply(Exception, []))
      else (Disk(files, d.meta + {key}), Reply(Ok, []))
    else if Refused(body, f) || f.rename then
      (Disk(d.files[file(Tmp(key)) := data], d.meta), Reply(Exception, []))
    else (Disk((d.files - {file(Tmp(key))})[file(key) := data], d.meta), Reply(Ok, []))
  }

  function DeleteDisk(file: Resolver, d: Disk, key: Key, f: Faults): (Disk, Reply) {
    if key !in d.meta then
      (if f.remove then d else d.(files := d.files - {file(key)}), Reply(NotFound, []))
    else if file(key) !in d.files then
      (if f.metaDel then d else d.(meta := d.meta - {key}), Reply(NotFound, []))
    else if f.metaDel then (d, Reply(Exception, []))
    else (Disk(if f.remove then d.files else d.files - {file(key)}, d.meta - {key}), Reply(Ok, []))
  }

  /** A missing file makes `fileLength` seek on a null stream before the null check. */
  function GetReply(file: Resolver, d: Disk, key: Key): Reply {
    if key !in d.meta then Reply(NotFound, [])
    else if file(key) !in d.files then Reply(Crash, [])
    else Reply(Ok, d.files[file(key)])
  }

  function Exec(file: Resolver, d: Disk, op: Op): (Disk, Reply) {
    match op
    case Put(key, body, f) => PutDisk(file, d, key, body, f)
    case Get(key) => (d, GetReply(file, d, key))
    case Delete(key, f) => DeleteDisk(file, d, key, f)
  }

  // ----- What clients see: a map from keys to objects -----

  type Db = map<Key, Bytes>

  /** The disk represents the database: metadata lists its keys and every listed key has its complete file. */
  ghost predicate Represents(file: Resolver, d: Disk, db: Db) {
    && d.meta == db.Keys
    && forall k :: k in db ==> file(k) in d.files && d.files[file(k)] == db[k]
  }

  /** The database after a request, given only the reply: OK takes full effect, anything else changes nothing. */
  function Effect(db: Db, op: Op, r: Reply): Db {
    match op
    case Put(key, body, _) => if r.status == Ok then db[key := body] else db
    case Delete(key, _) => if r.status == Ok then db - {key} else db
    case Get(_) => db
  }

  /** The reply is right for the database. */
  predicate Truthful(db: Db, op: Op, r: Reply) {
    match op
    case Put(_, _, _) => r.status == Ok || r.status == Exception
    case Delete(key, _) => if key in db then r.status == Ok || r.status == Exception else r.status == NotFound
    case Get(key) => r == if key in db then Reply(Ok, db[key]) else Reply(NotFound, [])
  }

  /** Different keys have different files, and no key's temporary file is the file of a key. */
  ghost predicate Apart(file: Resolver, keys: set<Key>) {
    && (forall k, l :: k in keys && l in keys && file(k) == file(l) ==> k == l)
    && (forall k, l :: k in keys && l in keys ==> file(Tmp(k)) != file(l))
  }

  /** A PUT answers OK although the end of its body is lost. */
  predicate Lossy(op: Op, r: Reply) { op.Put? && r.status == Ok && Short(op.body, op.f) }

  lemma PutIsAtomicIff(file: Resolver, d: Disk, db: Db, key: Key, body: Bytes, f: Faults)
    requires Represents(file, d, db) && Apart(file, db.Keys + {key})
    ensures var (d', r) := PutDisk(file, d, key, body, f);
            Represents(file, d', if r.status == Ok then db[key := body] else db) <==> !(r.status == Ok && Short(body, f))
  {
    var (d', r) := PutDisk(file, d, key, body, f);
    assert key in db.Keys + {key};
    assert forall k :: k in db && k != key ==>
      file(k) != file(key) && file(k) != file(Tmp(key)) && d'.files[file(k)] == db[k];
    if r.status == Ok { assert d'.files[file(key)] == Closed(body, f); }
  }

  lemma DeleteIsAtomic(file: Resolver, d: Disk, db: Db, key: Key, f: Faults)
    requires Represents(file, d, db) && Apart(file, db.Keys + {key})
    ensures var (d', r) := DeleteDisk(file, d, key, f);
            Represents(file, d', if r.status == Ok then db - {key} else db)
  {
    assert key in db.Keys + {key};
    assert forall k :: k in db && k != key ==> file(k) != file(key);
  }

  /**
   A PUT answers OK exactly if it has a body, its write is complete, and the rename, or for a new key the metadata
   update, succeeds; a DELETE does exactly if the object and its file are there and the metadata update succeeds.
   */
  lemma AnswersOkIff(file: Resolver, d: Disk, op: Op)
    ensures var r := Exec(file, d, op).1;
            match op
            case Put(key, body, f) =>
              && (r.status == Ok <==>
                 && body != [] && (f.write ==> |body| <= f.written)
                 && if key in d.meta then !f.rename else !f.metaPut)
              && (r.status != Ok ==> r.status == Exception)
            case Delete(key, f) =>
              && (r.status == Ok <==> key in d.meta && file(key) in d.files && !f.metaDel)
              && (r.status == Exception <==> key in d.meta && file(key) in d.files && f.metaDel)
              && (r.status == NotFound <==> key !in d.meta || file(key) !in d.files)
            case Get(key) =>
              && (r.status == Ok <==> key in d.meta && file(key) in d.files)
              && (r.status == NotFound <==> key !in d.meta)
              && (r.status == Crash <==> key in d.meta && file(key) !in d.files)
  {
  }

  /**
   A DELETE whose updates succeed leaves neither file nor metadata of its key, a replacement that answers OK leaves
   no temporary file, and no request touches a file other than those two.
   */
  lemma NothingLeftBehind(file: Resolver, d: Disk, op: Op, p: Path)
    ensures var (d', r) := Exec(file, d, op);
            && (op.Delete? && !op.f.remove && !op.f.metaDel ==> op.key !in d'.meta && file(op.key) !in d'.files)
            && (op.Put? && r.status == Ok && op.key in d.meta && file(Tmp(op.key)) != file(op.key) ==>
                  file(Tmp(op.key)) !in d'.files)
            && (p != file(op.key) && p != file(Tmp(op.key)) ==>
                  (p in d'.files <==> p in d.files) && (p in d.files ==> d'.files[p] == d.files[p]))
            && (forall k :: k != op.key ==> (k in d'.meta <==> k in d.meta))
  {
  }

  /**
   Where files are apart, one request is atomic if and only if it is not a PUT that answers OK with a failed flush.
   */
  lemma RequestIsAtomicIff(file: Resolver, d: Disk, db: Db, op: Op)
    requires Represents(file, d, db) && Apart(file, db.Keys + {op.key})
    ensures var (d', r) := Exec(file, d, op);
            Truthful(db, op, r) && (Represents(file, d', Effect(db, op, r)) <==> !Lossy(op, r))
  {
    match op
    case Put(key, body, f) => PutIsAtomicIff(file, d, db, key, body, f);
    case Delete(key, f) => DeleteIsAtomic(file, d, db, key, f);
    case Get(_) =>
  }

  /**
   A fault-free replacement is atomic if and only if it moves no other object's file away and no object shares its
   file with another value.
   */
  lemma ReplaceIsAtomicIff(file: Resolver, d: Disk, db: Db, key: Key, body: Bytes, f: Faults)
    requires Represents(file, d, db) && key in db && body != [] && !f.write && !f.flush && !f.rename
    ensures var (d', r) := Exec(file, d, Put(key, body, f));
            r.status == Ok &&
            (Represents(file, d', db[key := body]) <==>
             forall k :: k in db && k != key ==> if file(k) == file(key) then db[k] == body else file(k) != file(Tmp(key)))
  {
    var (d', r) := Exec(file, d, Put(key, body, f));
    assert d'.files == (d.files - {file(Tmp(key))})[file(key) := body] && d'.meta == db[key := body].Keys;
  }

  // ----- The server object -----

  class Server {
    const file: Resolver
    var files: map<Path, Bytes>
    var meta: set<Key>

    ghost function View(): Disk
      reads this
    { Disk(files, meta) }

    constructor (file: Resolver)
      ensures this.file == file && View() == Disk(map[], {}) && Represents(file, View(), map[])
    {
      this.file := file;
      files, meta := map[], {};
    }

    /**
     `handlePut`: an OK stores the object, if its flush succeeds, and an exception changes nothing that clients see.
     */
    method HandlePut(key: Key, body: Bytes, f: Faults) returns (r: Reply)
      modifies this
      ensures r.status == Ok || r.status == Exception
      ensures r.status == Ok <==>
                && body != [] && (f.write ==> |body| <= f.written)
                && if key in old(meta) then !f.rename else !f.metaPut
      ensures forall db: Db :: old(Represents(file, View(), db)) && Apart(file, db.Keys + {key}) ==>
                (Represents(file, View(), if r.status == Ok then db[key := body] else db) <==> r.status != Ok || !Short(body, f))
      ensures (View(), r) == PutDisk(file, old(View()), key, body, f)
    {
      ghost var d := View();
      r := Store(key, body, f);
      forall db: Db | Represents(file, d, db) && Apart(file, db.Keys + {key})
        ensures Represents(file, View(), if r.status == Ok then db[key := body] else db) <==> r.status != Ok || !Short(body, f)
      {
        RequestIsAtomicIff(file, d, db, Put(key, body, f));
      }
    }

    /** The body of `handlePut`: the file opened is the one that is closed, wherever a rename has moved it. */
    method Store(key: Key, body: Bytes, f: Faults) returns (r: Reply)
      modifies this
      ensures (View(), r) == PutDisk(file, old(View()), key, body, f)
    {
      if body == [] { return Reply(Exception, []); }
      r := Reply(Ok, []);
      var known := key in meta;
      var open := file(if known then Tmp(key) else key);
      files := files[open := []];                            // "wb+"
      if Refused(body, f) {
        r := Reply(Exception, []);
      } else if known {
        if f.rename {
          r := Reply(Exception, []);
        } else {
          files := (files - {open})[file(key) := []];
          open := file(key);
        }
      } else if f.metaPut {
        r := Reply(Exception, []);
      } else {
        meta := meta + {key};
      }
      files := files[open := Closed(body, f)];               // fclose, in `delete target`
      assert files == PutDisk(file, old(View()), key, body, f).0.files;
    }

    /** `handleDelete`: an OK removes the object, and any other reply changes nothing that clients see. */
    method HandleDelete(key: Key, f: Faults) returns (r: Reply)
      modifies this
      ensures forall db: Db :: old(Represents(file, View(), db)) && Apart(file, db.Keys + {key}) ==>
                && Represents(file, View(), if r.status == Ok then db - {key} else db)
                && (if key in db then r.status == Ok || r.status == Exception else r.status == NotFound)
      ensures r.status == Ok <==> key in old(meta) && file(key) in old(files) && !f.metaDel
      ensures r.status == NotFound <==> key !in old(meta) || file(key) !in old(files)
      ensures (View(), r) == DeleteDisk(file, old(View()), key, f)
    {
      ghost var d := View();
      r := Remove(key, f);
      forall db: Db | Represents(file, d, db) && Apart(file, db.Keys + {key})
        ensures && Represents(file, View(), if r.status == Ok then db - {key} else db)
                && (if key in db then r.status == Ok || r.status == Exception else r.status == NotFound)
      {
        RequestIsAtomicIff(file, d, db, Delete(key, f));
      }
    }

    method Remove(key: Key, f: Faults) returns (r: Reply)
      modifies this
      ensures (View(), r) == DeleteDisk(file, old(View()), key, f)
    {
      if key !in meta {
        if !f.remove { files := files - {file(key)}; }
        return Reply(NotFound, []);
      }
      if file(key) !in files {
        if !f.metaDel { meta := meta - {key}; }
        return Reply(NotFound, []);
      }
      if f.metaDel { return Reply(Exception, []); }
      meta := meta - {key};
      if !f.remove { files := files - {file(key)}; }
      r := Reply(Ok, []);
    }

    /** `handleGet`: the object that the database holds. */
    method HandleGet(key: Key) returns (r: Reply)
      ensures forall db: Db :: Represents(file, View(), db) ==> r == if key in db then Reply(Ok, db[key]) else Reply(NotFound, [])
      ensures r == GetReply(file, View(), key)
    {
      if key !in meta { return Reply(NotFound, []); }
      if file(key) !in files { return Reply(Crash, []); }
      r := Reply(Ok, files[file(key)]);
    }
  }

  // ----- Runs -----

  ghost predicate UsesKeys(ops: seq<Op>, keys: set<Key>) { forall i :: 0 <= i < |ops| ==> ops[i].key in keys }

  /** After every request the disk represents what the replies so far say, and every reply is right. */
  ghost predicate RunIsAtomic(file: Resolver, d: Disk, db: Db, ops: seq<Op>)
    decreases |ops|
  {
    ops != [] ==>
      var (d', r) := Exec(file, d, ops[0]);
      && Represents(file, d', Effect(db, ops[0], r)) && Truthful(db, ops[0], r)
      && RunIsAtomic(file, d', Effect(db, ops[0], r), ops[1..])
  }

  /** Some PUT of the run answers OK although its flush failed. */
  ghost predicate SomeLossy(file: Resolver, d: Disk, ops: seq<Op>)
    decreases |ops|
  {
    ops != [] &&
      var (d', r) := Exec(file, d, ops[0]);
      Lossy(ops[0], r) || SomeLossy(file, d', ops[1..])
  }

  /** Where files are apart, a run with any failures is atomic if and only if no PUT answers OK with a failed flush. */
  lemma {:induction false} RunIsAtomicIff(file: Resolver, d: Disk, db: Db, ops: seq<Op>, keys: set<Key>)
    requires Represents(file, d, db) && db.Keys <= keys && Apart(file, keys) && UsesKeys(ops, keys)
    ensures RunIsAtomic(file, d, db, ops) <==> !SomeLossy(file, d, ops)
    decreases |ops|
  {
    if ops != [] {
      var (d', r) := Exec(file, d, ops[0]);
      assert ops[0].key in keys;
      RequestIsAtomicIff(file, d, db, ops[0]);
      if !Lossy(ops[0], r) { RunIsAtomicIff(file, d', Effect(db, ops[0], r), ops[1..], keys); }
    }
  }

  const NO_FAULTS: Faults := Faults(false, 0, false, 0, false, false, false, false)

  const EMPTY: Disk := Disk(map[], {})

  /** A run of two requests is atomic only if the second is, after the first. */
  lemma AtomicTwice(file: Resolver, d: Disk, db: Db, ops: seq<Op>)
    requires |ops| >= 2 && RunIsAtomic(file, d, db, ops)
    ensures var (d1, r1) := Exec(file, d, ops[0]);
            var (d2, r2) := Exec(file, d1, ops[1]);
            && Represents(file, d1, Effect(db, ops[0], r1))
            && Represents(file, d2, Effect(Effect(db, ops[0], r1), ops[1], r2))
            && RunIsAtomic(file, d2, Effect(Effect(db, ops[0], r1), ops[1], r2), ops[2..])
  {
    assert ops[1..][0] == ops[1] && ops[1..][1..] == ops[2..];
  }

  /** Two keys with one file: storing the second overwrites the first. */
  lemma AliasLosesData(file: Resolver, k: Key, l: Key)
    requires k != l && file(k) == file(l)
    ensures var ops := [Put(k, [1], NO_FAULTS), Put(l, [2], NO_FAULTS)];
            !SomeLossy(file, EMPTY, ops) && !RunIsAtomic(file, EMPTY, map[], ops)
  {
    var ops := [Put(k, [1], NO_FAULTS), Put(l, [2], NO_FAULTS)];
    NoFlushNoLoss(file, EMPTY, ops);
    if RunIsAtomic(file, EMPTY, map[], ops) {
      AtomicTwice(file, EMPTY, map[], ops);
    }
  }

  /** Store a key, store the key of its temporary file, replace the first. */
  function Clash(k: Key, l: Key): seq<Op> {
    [Put(k, [1], NO_FAULTS), Put(l, [2], NO_FAULTS), Put(k, [3], NO_FAULTS)]
  }

  /** What is on disk after the clash: the second object's file is gone. */
  lemma AfterClash(file: Resolver, k: Key, l: Key)
    requires file(k) != file(l) && file(Tmp(k)) == file(l)
    ensures var d1 := Exec(file, EMPTY, Clash(k, l)[0]).0;
            var d2 := Exec(file, d1, Clash(k, l)[1]).0;
            Exec(file, d2, Clash(k, l)[2]) == (Disk(map[file(k) := [3]], {k, l}), Reply(Ok, []))
            && d1 == Disk(map[file(k) := [1]], {k}) && d2 == Disk(map[file(k) := [1], file(l) := [2]], {k, l})
  {
    var d1 := Exec(file, EMPTY, Clash(k, l)[0]).0;
    assert d1 == Disk(map[file(k) := [1]], {k});
    var d2 := Exec(file, d1, Clash(k, l)[1]).0;
    assert d2 == Disk(map[file(k) := [1], file(l) := [2]], {k, l});
    assert (d2.files - {file(l)})[file(k) := [3]] == map[file(k) := [3]];
  }

  lemma ClashLosesData(file: Resolver, k: Key, l: Key)
    requires file(k) != file(l) && file(Tmp(k)) == file(l)
    ensures !SomeLossy(file, EMPTY, Clash(k, l)) && !RunIsAtomic(file, EMPTY, map[], Clash(k, l))
  {
    NoFlushNoLoss(file, EMPTY, Clash(k, l));
    AfterClash(file, k, l);
    if RunIsAtomic(file, EMPTY, map[], Clash(k, l)) {
      AtomicTwice(file, EMPTY, map[], Clash(k, l));
    }
  }

  /** A key that is its own temporary file loses its object to a failed replacement. */
  lemma OwnTmpLosesData(file: Resolver, k: Key)
    requires file(Tmp(k)) == file(k)
    ensures var ops := [Put(k, [1], NO_FAULTS), Put(k, [3], NO_FAULTS.(write := true))];
            !SomeLossy(file, EMPTY, ops) && !RunIsAtomic(file, EMPTY, map[], ops)
  {
    var ops := [Put(k, [1], NO_FAULTS), Put(k, [3], NO_FAULTS.(write := true))];
    NoFlushNoLoss(file, EMPTY, ops);
    if RunIsAtomic(file, EMPTY, map[], ops) {
      AtomicTwice(file, EMPTY, map[], ops);
    }
  }

  lemma {:induction false} NoFlushNoLoss(file: Resolver, d: Disk, ops: seq<Op>)
    requires forall i :: 0 <= i < |ops| && ops[i].Put? ==> !ops[i].f.flush
    ensures !SomeLossy(file, d, ops)
    decreases |ops|
  {
    if ops != [] { NoFlushNoLoss(file, Exec(file, d, ops[0]).0, ops[1..]); }
  }

  /** A failed flush after the reply: OK, and the object is cut. */
  lemma FlushLosesData(file: Resolver, k: Key, body: Bytes, flushed: nat)
    requires flushed < |body|
    ensures var op := Put(k, body, NO_FAULTS.(flush := true, flushed := flushed));
            var (d, r) := Exec(file, EMPTY, op);
            r.status == Ok && Exec(file, d, Get(k)).1 == Reply(Ok, body[..flushed])
            && !RunIsAtomic(file, EMPTY, map[], [op])
  {
    var op := Put(k, body, NO_FAULTS.(flush := true, flushed := flushed));
    var (d, r) := Exec(file, EMPTY, op);
    assert k in Effect(map[], op, r);
  }

  /**
   Exactly when the store keeps its promise: files are apart if and only if every run over the keys, with
   any failures, is atomic up to the flushes it loses.
   */
  lemma AtomicIffApart(file: Resolver, keys: set<Key>)
    ensures Apart(file, keys) <==>
            forall ops :: UsesKeys(ops, keys) ==>
                (RunIsAtomic(file, EMPTY, map[], ops) <==> !SomeLossy(file, EMPTY, ops))
  {
    if Apart(file, keys) {
      forall ops | UsesKeys(ops, keys) ensures RunIsAtomic(file, EMPTY, map[], ops) <==> !SomeLossy(file, EMPTY, ops) {
        RunIsAtomicIff(file, EMPTY, map[], ops, keys);
      }
    } else if k, l :| k in keys && l in keys && file(k) == file(l) && k != l {
      AliasLosesData(file, k, l);
      assert UsesKeys([Put(k, [1], NO_FAULTS), Put(l, [2], NO_FAULTS)], keys);
    } else {
      var k, l :| k in keys && l in keys && file(Tmp(k)) == file(l);
      if k == l {
        OwnTmpLosesData(file, k);
        assert UsesKeys([Put(k, [1], NO_FAULTS), Put(k, [3], NO_FAULTS.(write := true))], keys);
      } else {
        ClashLosesData(file, k, l);
        assert UsesKeys(Clash(k, l), keys);
      }
    }
  }

  // ----- Crashes -----

  ghost predicate SomeCrash(file: Resolver, d: Disk, ops: seq<Op>)
    decreases |ops|
  {
    ops != [] &&
      var (d', r) := Exec(file, d, ops[0]);
      r.status == Crash || SomeCrash(file, d', ops[1..])
  }

  /** No request on one key can take away the file of another. */
  ghost predicate NoFileTaken(file: Resolver, keys: set<Key>) {
    forall k, l :: k in keys && l in keys && k != l ==> file(k) != file(l) && file(Tmp(k)) != file(l)
  }

  /** Every key with metadata has a file, complete or not. */
  ghost predicate Backed(file: Resolver, d: Disk) { forall k :: k in d.meta ==> file(k) in d.files }

  lemma {:induction false} BackedRunsDoNotCrash(file: Resolver, d: Disk, ops: seq<Op>, keys: set<Key>)
    requires Backed(file, d) && d.meta <= keys && NoFileTaken(file, keys) && UsesKeys(ops, keys)
    ensures !SomeCrash(file, d, ops)
    decreases |ops|
  {
    if ops != [] {
      assert ops[0].key in keys;
      BackedRunsDoNotCrash(file, Exec(file, d, ops[0]).0, ops[1..], keys);
    }
  }

  lemma CrashesAtEnd(file: Resolver, d: Disk, ops: seq<Op>)
    requires |ops| == 4
    requires var d1 := Exec(file, d, ops[0]).0;
             var d2 := Exec(file, d1, ops[1]).0;
             var d3 := Exec(file, d2, ops[2]).0;
             Exec(file, d3, ops[3]).1.status == Crash
    ensures SomeCrash(file, d, ops)
  {
    var d1 := Exec(file, d, ops[0]).0;
    var d2 := Exec(file, d1, ops[1]).0;
    var d3 := Exec(file, d2, ops[2]).0;
    assert ops[1..][1..] == ops[2..] && ops[2..][1..] == ops[3..];
    assert SomeCrash(file, d3, ops[3..]);
    assert SomeCrash(file, d2, ops[2..]);
    assert SomeCrash(file, d1, ops[1..]);
  }

  /** After the clash, a GET of the second key crashes. */
  lemma ClashCrashes(file: Resolver, k: Key, l: Key)
    requires file(k) != file(l) && file(Tmp(k)) == file(l)
    ensures SomeCrash(file, EMPTY, Clash(k, l) + [Get(l)])
  {
    AfterClash(file, k, l);
    CrashesAtEnd(file, EMPTY, Clash(k, l) + [Get(l)]);
  }

  /** Deleting one of two keys with one file makes a GET of the other crash. */
  lemma AliasCrashes(file: Resolver, k: Key, l: Key)
    requires k != l && file(k) == file(l)
    ensures SomeCrash(file, EMPTY, [Put(k, [1], NO_FAULTS), Put(l, [2], NO_FAULTS), Delete(k, NO_FAULTS), Get(l)])
  {
    CrashesAtEnd(file, EMPTY, [Put(k, [1], NO_FAULTS), Put(l, [2], NO_FAULTS), Delete(k, NO_FAULTS), Get(l)]);
  }

  /** No run over the keys, with any failures, crashes if and only if no request can take away another key's file. */
  lemma CrashFreeIff(file: Resolver, keys: set<Key>)
    ensures (forall ops :: UsesKeys(ops, keys) ==> !SomeCrash(file, EMPTY, ops)) <==> NoFileTaken(file, keys)
  {
    if NoFileTaken(file, keys) {
      forall ops | UsesKeys(ops, keys) ensures !SomeCrash(file, EMPTY, ops) { BackedRunsDoNotCrash(file, EMPTY, ops, keys); }
    } else if k, l :| k in keys && l in keys && k != l && file(k) == file(l) {
      AliasCrashes(file, k, l);
      assert UsesKeys([Put(k, [1], NO_FAULTS), Put(l, [2], NO_FAULTS), Delete(k, NO_FAULTS), Get(l)], keys);
    } else {
      var k, l :| k in keys && l in keys && k != l && file(Tmp(k)) == file(l);
      ClashCrashes(file, k, l);
      assert UsesKeys(Clash(k, l) + [Get(l)], keys);
    }
  }

  // ----- Keys that the file system identifies -----

  /** One way in which the file system identifies names: slashes in front of the key add nothing to the path. */
  function Resolve(key: Key): Path { if key != "" && key[0] == '/' then Resolve(key[1..]) else key }

  /** A name that the file system takes as it is: one component, and not a name for a directory. */
  predicate Plain(k: Key) { k != "" && '/' !in k && k != "." && k != ".." }

  /** No key is checked on arrival, so a key and the key with a slash in front are two objects in one file. */
  lemma SlashAliases(k: Key)
    requires Plain(k)
    ensures var l := "/" + k;
            !Apart(Resolve, {k, l}) && !NoFileTaken(Resolve, {k, l})
            && !RunIsAtomic(Resolve, EMPTY, map[], [Put(k, [1], NO_FAULTS), Put(l, [2], NO_FAULTS)])
  {
    var l := "/" + k;
    assert l[1..] == k && |l| == |k| + 1;
    AliasLosesData(Resolve, k, l);
    assert k in {k, l} && l in {k, l};
  }

  /**
   However the file system resolves names, as long as plain ones are files of their own: plain keys are apart
   exactly if none is another key plus ".tmp".
   */
  lemma PlainKeysApart(file: Resolver, keys: set<Key>)
    requires forall k :: k in keys ==> Plain(k)
    requires forall k, l :: Plain(k) && Plain(l) && file(k) == file(l) ==> k == l
    ensures Apart(file, keys) <==> forall k :: k in keys ==> Tmp(k) !in keys
  {
    forall k | k in keys ensures Plain(Tmp(k)) && Tmp(k) != k { assert |Tmp(k)| == |k| + 4; }
    if k :| k in keys && Tmp(k) in keys { assert file(Tmp(k)) == file(Tmp(k)); }
  }
}
