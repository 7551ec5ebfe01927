/** Replacing a machine's config file: `saveToFile` and the migration in `loadConfig`, as atomic file
    system steps each of which may fail, with every intermediate state on record. */
module ConfigStore {

  type Bytes = seq<bv8>
  type Files = map<string, Bytes>

  datatype Stat = Exists | NotExist | StatError

  datatype Result = Ok | TempFailed | WriteFailed | CloseFailed | RemoveFailed | RenameFailed

  datatype Operation =
    | TempFile(name: string)
    | Write(path: string, data: Bytes)
    | Close
    | Remove(path: string)
    | Rename(from: string, to: string)
    | Read(path: string)
    | MakeDir

  /** An operation and whether it succeeded. */
  datatype Done = Done(op: Operation, ok: bool)

  /** The file system. A crash leaves the files as they are in some element of `seen`. */
  class Disk {
    var files: Files
    ghost var seen: set<Files>     // every state so far
    ghost var log: seq<Done>       // every operation so far

    ghost predicate Valid()
      reads this
    {
      files in seen
    }

    /** One atomic step. */
    method Become(next: Files)
      requires Valid()
      modifies this`files, this`seen
      ensures Valid() && files == next && seen == old(seen) + {next}
    {
      files := next;
      seen := seen + {next};
    }

    /** `os.Stat`: right about existence, unless it reports some other error. */
    method StatFile(path: string) returns (s: Stat)
      requires Valid()
      ensures s == Exists ==> path in files
      ensures s == NotExist ==> path !in files
    {
      var fails: bool := *;
      s := if fails then StatError else if path in files then Exists else NotExist;
    }

    /** `os.Remove`. */
    method Remove(path: string) returns (ok: bool)
      requires Valid()
      modifies this
      ensures Valid()
      ensures if ok then path in old(files) && files == old(files) - {path} && seen == old(seen) + {files}
              else files == old(files) && seen == old(seen)
      ensures log == old(log) + [Done(Operation.Remove(path), ok)]
    {
      var fails: bool := *;
      ok := path in files && !fails;
      log := log + [Done(Operation.Remove(path), ok)];
      if ok { Become(files - {path}); }
    }

    /** `os.Rename`, atomic on one file system. */
    method Rename(from: string, to: string) returns (ok: bool)
      requires Valid()
      modifies this
      ensures Valid()
      ensures if ok then from in old(files) && files == (old(files) - {from})[to := old(files)[from]]
                         && seen == old(seen) + {files}
              else files == old(files) && seen == old(seen)
      ensures log == old(log) + [Done(Operation.Rename(from, to), ok)]
    {
      var fails: bool := *;
      ok := from in files && !fails;
      log := log + [Done(Operation.Rename(from, to), ok)];
      if ok { Become((files - {from})[to := files[from]]); }
    }

    /** `ioutil.TempFile`: creates an empty file under a name that was not in use. */
    method TempFile(prefix: string) returns (ok: bool, name: string)
      requires Valid()
      modifies this
      ensures Valid() && name !in old(files) && |prefix| <= |name|
      ensures if ok then files == old(files)[name := []] && seen == old(seen) + {files}
              else files == old(files) && seen == old(seen)
      ensures log == old(log) + [Done(Operation.TempFile(name), ok)]
    {
      name := prefix;
      ghost var tried: set<string> := {};
      while name in files
        invariant |prefix| <= |name| && tried <= files.Keys && forall t :: t in tried ==> |t| < |name|
        decreases files.Keys - tried
      {
        tried := tried + {name};
        name := name + "0";
      }
      var fails: bool := *;
      ok := !fails;
      log := log + [Done(Operation.TempFile(name), ok)];
      if ok { Become(files[name := []]); }
    }

    /** `ioutil.ReadFile`. */
    method ReadFile(path: string) returns (ok: bool, data: Bytes)
      modifies this`log
      ensures log == old(log) + [Done(Read(path), ok)]
      ensures ok ==> path in files && data == files[path]
    {
      var fails: bool := *;
      ok := path in files && !fails;
      data := if ok then files[path] else [];
      log := log + [Done(Read(path), ok)];
    }

    /** `os.MkdirAll` on the machine's directory. */
    method MakeDirectory() returns (ok: bool)
      modifies this`log
      ensures log == old(log) + [Done(MakeDir, ok)]
    {
      ok := *;
      log := log + [Done(MakeDir, ok)];
    }

    /** Closing the temporary file. */
    method CloseFile() returns (ok: bool)
      modifies this`log
      ensures log == old(log) + [Done(Close, ok)]
    {
      ok := *;
      log := log + [Done(Close, ok)];
    }

    /** `ioutil.WriteFile`: truncates the file, then writes it piece by piece, and may stop anywhere. */
    method Write(path: string, data: Bytes) returns (ok: bool)
      requires Valid()
      modifies this
      ensures Valid() && old(seen) <= seen
      ensures forall h :: h in seen - old(seen) ==> Partial(h, old(files), path, data)
      ensures files == old(files) || Partial(files, old(files), path, data)
      ensures ok ==> files == old(files)[path := data]
      ensures log == old(log) + [Done(Operation.Write(path, data), ok)]
    {
      ok := WriteOut(path, data);
      log := log + [Done(Operation.Write(path, data), ok)];
    }

    method WriteOut(path: string, data: Bytes) returns (ok: bool)
      requires Valid()
      modifies this`files, this`seen
      ensures Valid() && old(seen) <= seen
      ensures forall h :: h in seen - old(seen) ==> Partial(h, old(files), path, data)
      ensures files == old(files) || Partial(files, old(files), path, data)
      ensures ok ==> files == old(files)[path := data]
    {
      var fails: bool := *;
      if fails { return false; }
      Become(files[path := []]);
      assert [] <= data;
      var done := 0;
      while done < |data|
        invariant 0 <= done <= |data| && Valid() && old(seen) <= seen
        invariant files == old(files)[path := data[..done]]
        invariant Partial(files, old(files), path, data)
        invariant forall h :: h in seen - old(seen) ==> Partial(h, old(files), path, data)
      {
        var k: nat := *;
        fails := *;
        if fails { return false; }
        done := if 0 < k <= |data| - done then done + k else |data|;
        Become(files[path := data[..done]]);
      }
      assert data[..done] == data;
      ok := true;
    }
  }

  /** `h` is `before` with a prefix of `data` at `path`. */
  ghost predicate Partial(h: Files, before: Files, path: string, data: Bytes) {
    path in h && h[path] <= data && h == before[path := h[path]]
  }

  /** While `file` is replaced it holds the old bytes or the new bytes, or nothing, and then a temporary file
      holds all of the new bytes. Nothing else changes. */
  ghost predicate Intact(h: Files, before: Files, file: string, tmp: string, data: Bytes)
    requires file in before
  {
    && h - {file, tmp} == before - {file}
    && (file in h ==> h[file] == before[file] || h[file] == data)
    && (file !in h ==> tmp in h && h[tmp] == data)
  }

  /** The only way to lose both: the final rename failed and the deferred removal of the temporary file did not. */
  ghost predicate Lost(h: Files, before: Files, file: string) {
    h == before - {file}
  }

  /** The states that the replacement branch goes through, in order. */
  ghost predicate Step(h: Files, before: Files, file: string, tmp: string, data: Bytes) {
    || h == before
    || Partial(h, before, tmp, data)
    || (file in before && h == before[tmp := data] - {file})
    || (file in before && h == before[file := data])
  }

  lemma StepIsIntact(h: Files, before: Files, file: string, tmp: string, data: Bytes)
    requires Step(h, before, file, tmp, data) && tmp !in before && tmp != file && file in before
    ensures Intact(h, before, file, tmp, data)
  {
    if h == before {
    } else if Partial(h, before, tmp, data) {
      assert h - {file, tmp} == before - {file};
    } else if h == before[tmp := data] - {file} {
      assert h - {file, tmp} == before - {file};
    } else if h == before[file := data] {
      assert h - {file, tmp} == before - {file};
    }
  }

  /** The operations of the replacement branch once there is a temporary file, up to the one that `r` names; all but
      that one succeed. */
  function Swap(r: Result, file: string, tmp: string, data: Bytes): seq<Done> {
    var written, closed, removed := Done(Write(tmp, data), true), Done(Close, true), Done(Remove(file), true);
    match r
    case TempFailed => []
    case WriteFailed => [Done(Write(tmp, data), false)]
    case CloseFailed => [written] + [Done(Close, false)]
    case RemoveFailed => [written] + [closed] + [Done(Remove(file), false)]
    case RenameFailed => [written] + [closed] + [removed] + [Done(Rename(tmp, file), false)]
    case Ok => [written] + [closed] + [removed] + [Done(Rename(tmp, file), true)]
  }

  /** And with the creation of the temporary file before them. */
  function Performed(r: Result, file: string, tmp: string, data: Bytes): seq<Done> {
    [Done(TempFile(tmp), r != TempFailed)] + Swap(r, file, tmp, data)
  }

  /** The replacement branch of `saveToFile`, once the temporary file is there. */
  method FillAndSwap(disk: Disk, data: Bytes, file: string, tmp: string, ghost before: Files) returns (r: Result)
    requires disk.Valid() && tmp !in before && tmp != file && disk.files == before[tmp := []]
    modifies disk
    ensures disk.Valid() && old(disk.seen) <= disk.seen && r != TempFailed
    ensures forall h :: h in disk.seen - old(disk.seen) ==> Step(h, before, file, tmp, data)
    ensures r == Ok ==> file in before && disk.files == before[file := data]
    ensures r == RenameFailed ==> file in before && disk.files == before[tmp := data] - {file}
    ensures r != Ok && r != RenameFailed ==> Partial(disk.files, before, tmp, data)
    ensures disk.log == old(disk.log) + Swap(r, file, tmp, data)
  {
    assert [] <= data;
    var ok := disk.Write(tmp, data);
    PartialTwice(before, tmp, data);
    if !ok { return WriteFailed; }
    assert disk.files == before[tmp := data];
    ok := disk.CloseFile();
    if !ok { return CloseFailed; }
    r := RemoveAndRename(disk, data, file, tmp, before);
  }

  /** Its last two steps: the old file goes, the temporary file takes its name. */
  method RemoveAndRename(disk: Disk, data: Bytes, file: string, tmp: string, ghost before: Files) returns (r: Result)
    requires disk.Valid() && tmp !in before && tmp != file && disk.files == before[tmp := data]
    modifies disk
    ensures disk.Valid() && r in {RemoveFailed, RenameFailed, Ok}
    ensures r == RemoveFailed ==> disk.files == before[tmp := data] && disk.seen == old(disk.seen)
    ensures r != RemoveFailed ==> file in before && before[tmp := data] - {file} in disk.seen
    ensures r == RenameFailed ==> disk.files == before[tmp := data] - {file}
    ensures r == Ok ==> disk.files == before[file := data]
    ensures old(disk.seen) <= disk.seen <= old(disk.seen) + {before[tmp := data] - {file}, before[file := data]}
    ensures disk.log == old(disk.log) + Swap(r, file, tmp, data)[2..]
  {
    var ok := disk.Remove(file);
    if !ok { return RemoveFailed; }
    ok := disk.Rename(tmp, file);
    if !ok { return RenameFailed; }
    Swapped(before, file, tmp, data);
    r := Ok;
  }

  lemma PartialTwice(before: Files, tmp: string, data: Bytes)
    ensures forall h :: Partial(h, before[tmp := []], tmp, data) ==> Partial(h, before, tmp, data)
  {
    forall h | Partial(h, before[tmp := []], tmp, data)
      ensures Partial(h, before, tmp, data)
    {
      assert before[tmp := []][tmp := h[tmp]] == before[tmp := h[tmp]];
    }
  }

  lemma Swapped(before: Files, file: string, tmp: string, data: Bytes)
    requires tmp !in before && tmp != file
    ensures ((before[tmp := data] - {file}) - {tmp})[file := data] == before[file := data]
  {
  }

  /** `saveToFile` past its existence test, with the deferred removal of the temporary file; `removed` says how that
      went. */
  method Replace(disk: Disk, data: Bytes, file: string) returns (r: Result, ghost tmp: string, ghost removed: bool)
    requires disk.Valid()
    modifies disk
    ensures disk.Valid() && old(disk.seen) <= disk.seen
    ensures tmp !in old(disk.files) && tmp != file
    ensures disk.log == old(disk.log) + Performed(r, file, tmp, data) +
                        (if r == TempFailed then [] else [Done(Remove(tmp), removed)])
    ensures r == Ok ==> file in old(disk.files) && disk.files == old(disk.files)[file := data]
    ensures r == RenameFailed ==>
              && file in old(disk.files) && old(disk.files)[tmp := data] - {file} in disk.seen
              && disk.files == (if removed then old(disk.files) else old(disk.files)[tmp := data]) - {file}
    ensures r != Ok && r != RenameFailed ==> disk.files - {tmp} == old(disk.files)
    ensures forall h :: h in disk.seen - old(disk.seen) ==>
              Step(h, old(disk.files), file, tmp, data) || (r == RenameFailed && removed && h == disk.files)
  {
    ghost var before := disk.files;
    var ok, name := disk.TempFile(file + ".tmp");
    tmp, removed := name, false;
    if !ok { return TempFailed, tmp, removed; }
    ghost var h1 := disk.files;
    ghost var seen1 := disk.seen;
    r := FillAndSwap(disk, data, file, name, before);
    ghost var seen2 := disk.seen;
    assert disk.log == old(disk.log) + Performed(r, file, tmp, data);
    var gone := disk.Remove(name);           // deferred
    removed := gone;
    assert r != RenameFailed || !removed ==> Step(disk.files, before, file, tmp, data) by {
      if removed {
        assert r != Ok && r != RenameFailed ==> disk.files == before;
      }
    }
    assert Step(h1, before, file, tmp, data) by {
      assert [] <= data;
      assert Partial(h1, before, tmp, data);
    }
    forall h | h in disk.seen - old(disk.seen)
      ensures Step(h, before, file, tmp, data) || (r == RenameFailed && removed && h == disk.files)
    {
      assert h == h1 || h in seen2 - seen1 || h == disk.files;
    }
  }

  /** Some operation since `before` failed. */
  ghost predicate SomethingFailed(before: seq<Done>, after: seq<Done>) {
    before <= after && exists k :: |before| <= k < |after| && !after[k].ok
  }

  lemma FailureIsOnRecord(before: seq<Done>, r: Result, file: string, tmp: string, data: Bytes, rest: seq<Done>)
    requires r != Ok
    ensures SomethingFailed(before, before + Performed(r, file, tmp, data) + rest)
  {
    var done := Performed(r, file, tmp, data);
    var after := before + done + rest;
    assert after[|before| + |done| - 1] == done[|done| - 1];
  }

  /** `saveToFile`. A new file may be seen half written. For an existing one the result says which operation of the plan
      failed, if any; in every state it is as `Intact` says, except, when the rename failed and the temporary file was
      then removed, in the last one. */
  method SaveToFile(disk: Disk, data: Bytes, file: string) returns (r: Result, ghost tmp: string, ghost removed: bool)
    requires disk.Valid()
    modifies disk
    ensures disk.Valid() && old(disk.seen) <= disk.seen && tmp !in old(disk.files) && tmp != file
    ensures r == Ok ==> disk.files == old(disk.files)[file := data]
    ensures old(disk.log) <= disk.log && (r != Ok ==> SomethingFailed(old(disk.log), disk.log))
    ensures file in old(disk.files) ==>
              disk.log == old(disk.log) + Performed(r, file, tmp, data) +
                          (if r == TempFailed then [] else [Done(Remove(tmp), removed)])
    ensures r != Ok && r != RenameFailed && file in old(disk.files) ==> disk.files - {tmp} == old(disk.files)
    ensures r == RenameFailed ==>
              && file in old(disk.files) && old(disk.files)[tmp := data] - {file} in disk.seen
              && disk.files == (if removed then old(disk.files) else old(disk.files)[tmp := data]) - {file}
    ensures file in old(disk.files) ==> forall h :: h in disk.seen - old(disk.seen) ==>
              || Intact(h, old(disk.files), file, tmp, data)
              || (r == RenameFailed && removed && h == disk.files && Lost(h, old(disk.files), file))
    ensures forall h :: h in disk.seen - old(disk.seen) ==> h - {file, tmp} == old(disk.files) - {file}
  {
    ghost var before := disk.files;
    var s := disk.StatFile(file);
    if s == NotExist {
      var ok := disk.Write(file, data);
      tmp, removed := FreshName(before, file), false;
      assert !ok ==> !disk.log[|old(disk.log)|].ok;
      assert forall h :: Partial(h, before, file, data) ==> h - {file, tmp} == before - {file};
      return if ok then Ok else WriteFailed, tmp, removed;
    }
    r, tmp, removed := Replace(disk, data, file);
    if r != Ok {
      var rest := if r == TempFailed then [] else [Done(Remove(tmp), removed)];
      FailureIsOnRecord(old(disk.log), r, file, tmp, data, rest);
    }
    forall h | h in disk.seen - old(disk.seen)
      ensures h - {file, tmp} == before - {file}
      ensures file in before ==>
                || Intact(h, before, file, tmp, data)
                || (r == RenameFailed && removed && h == disk.files && Lost(h, before, file))
    {
      if Step(h, before, file, tmp, data) {
        if file in before { StepIsIntact(h, before, file, tmp, data); }
      }
    }
  }

  /** A name that is not in use. */
  ghost function FreshName(files: Files, file: string): (name: string)
    ensures name !in files && name != file
  {
    var longest := Longest(files.Keys + {file});
    longest + "0"
  }

  ghost function Longest(names: set<string>): (s: string)
    ensures forall n :: n in names ==> |n| <= |s|
  {
    if names == {} then "" else
      var n :| n in names;
      var s := Longest(names - {n});
      if |s| < |n| then n else s
  }

  // ----- migration

  /** What `host.MigrateHost` and the JSON encoder make of the bytes on disk. */
  datatype Migration = Unreadable | UpToDate | Migrated(data: Bytes)

  datatype Loaded = LoadedAsIs | LoadedMigrated | LoadFailed

  /** The original bytes are in one piece, in the config file or in its backup. */
  ghost predicate OriginalKept(h: Files, config: string, bak: string, original: Bytes) {
    (config in h && h[config] == original) || (bak in h && h[bak] == original)
  }

  /** `loadConfig`: in no state, whichever step fails, has the config file been touched before all of its
      original bytes are in the `.bak` file. */
  method LoadConfig(disk: Disk, config: string, migrate: Bytes -> Migration) returns (r: Loaded)
    requires disk.Valid()
    modifies disk
    ensures disk.Valid() && old(disk.seen) <= disk.seen
    ensures config !in old(disk.files) ==> r == LoadFailed && disk.seen == old(disk.seen)
    ensures config in old(disk.files) ==> forall h :: h in disk.seen - old(disk.seen) ==>
              OriginalKept(h, config, config + ".bak", old(disk.files)[config])
    ensures r == LoadedAsIs ==> disk.files == old(disk.files) && disk.seen == old(disk.seen)
    ensures r == LoadFailed ==>
              || SomethingFailed(old(disk.log), disk.log)
              || (config in old(disk.files) && migrate(old(disk.files)[config]).Unreadable?)
    ensures r == LoadedAsIs ==> config in old(disk.files) && migrate(old(disk.files)[config]).UpToDate?
    ensures r == LoadedMigrated ==>
              && config in old(disk.files) && migrate(old(disk.files)[config]).Migrated?
              && disk.files == old(disk.files)[config + ".bak" := old(disk.files)[config]]
                                              [config := migrate(old(disk.files)[config]).data]
  {
    var read, original := disk.ReadFile(config);
    assert !read ==> !disk.log[|old(disk.log)|].ok;
    if !read { return LoadFailed; }
    var bak := config + ".bak";
    var m := migrate(original);
    if m.Unreadable? { return LoadFailed; }
    if m.UpToDate? { return LoadedAsIs; }
    ghost var before := disk.files;
    ghost var seen0 := disk.seen;
    ghost var tmp1, tmp2, removed;
    var saved;
    saved, tmp1, removed := SaveToFile(disk, original, bak);
    assert config != bak && tmp1 != config;
    ghost var seen1 := disk.seen;
    forall h | h in seen1 - seen0
      ensures config in h && h[config] == original
    {
      assert config in (before - {bak}) && (h - {bak, tmp1})[config] == (before - {bak})[config];
    }
    if saved != Ok { return LoadFailed; }
    ghost var mid, log := disk.files, disk.log;
    var made := disk.MakeDirectory();
    if !made {
      assert !disk.log[|log|].ok;
      return LoadFailed;
    }
    saved, tmp2, removed := SaveToFile(disk, m.data, config);
    assert tmp2 != bak;
    forall h | h in disk.seen - seen1
      ensures bak in h && h[bak] == original
    {
      assert bak in (mid - {config}) && (h - {config, tmp2})[bak] == (mid - {config})[bak];
    }
    r := if saved == Ok then LoadedMigrated else LoadFailed;
  }
}
