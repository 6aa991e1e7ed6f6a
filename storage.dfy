/**
 * What the local upload provider does to the uploads folder, stated as
 * functions on an abstract disk: the settings `init` produces, the effect
 * of a store (`upload` and `uploadStream` alike) and that of `delete`.
 * Whatever the platform decides (whether a directory can be made, whether
 * a write or an unlink goes through, what a failed write leaves behind) is
 * a parameter.
 */
module Storage {
  import opened Wrappers
  import opened Paths

  newtype byte = x: int | 0 <= x < 256

  /** The `sizeLimit` used when the configuration gives none. */
  const DefaultSizeLimit: int := 1000000

  // ---------------------------------------------------------------------------
  // init
  // ---------------------------------------------------------------------------

  /** The configuration `init` receives; an absent `sizeLimit` takes the default. */
  datatype Config = Config(sizeLimit: Option<int>)

  /** What every operation of an initialised provider closes over. */
  datatype Settings = Settings(uploadPath: string, sizeLimit: int)

  /** `init` refuses to start when the uploads folder is missing. */
  datatype InitError = UploadFolderMissing(path: string)

  const MessageHead: string := "The upload folder ("

  /** The text of the error `init` throws; it names the missing folder. */
  function InitMessage(e: InitError): (m: string)
    ensures |MessageHead| + |e.path| < |m|
    ensures m[..|MessageHead|] == MessageHead
    ensures m[|MessageHead| .. |MessageHead| + |e.path|] == e.path
  {
    MessageHead + e.path + ") doesn't exist or is not accessible. Please make sure it exists."
  }

  /** `init`: check that `<publicRoot>/uploads` exists (it is never created)
      and fix the size limit. */
  function InitSettings(publicRoot: string, folderExists: bool, config: Config): (r: Result<Settings, InitError>)
    ensures r.Success? <==> folderExists
    ensures r.Success? ==> r.value.uploadPath == UploadPath(publicRoot)
    ensures r.Success? && config.sizeLimit.None? ==> r.value.sizeLimit == 1000000
    ensures r.Success? && config.sizeLimit.Some? ==> r.value.sizeLimit == config.sizeLimit.value
    ensures r.Failure? ==> r.error.path == UploadPath(publicRoot)
  {
    var uploadPath := UploadPath(publicRoot);
    if !folderExists then Failure(UploadFolderMissing(uploadPath))
    else Success(Settings(uploadPath, config.sizeLimit.GetOr(DefaultSizeLimit)))
  }

  // ---------------------------------------------------------------------------
  // The disk
  // ---------------------------------------------------------------------------

  /** The uploads folder: the namespace directories in it and the stored files. */
  datatype Disk = Disk(dirs: set<string>, files: map<Location, seq<byte>>)

  /** A file can only sit in a namespace directory that exists. */
  ghost predicate Consistent(d: Disk) {
    forall loc :: loc in d.files && loc.namespace.Some? ==> loc.namespace.value in d.dirs
  }

  /** The two file maps agree everywhere except possibly at `loc`. */
  ghost predicate SameExcept(m: map<Location, seq<byte>>, m': map<Location, seq<byte>>, loc: Location) {
    forall l :: l != loc ==> (l in m <==> l in m') && (l in m ==> m[l] == m'[l])
  }

  /** The directory a namespace calls for, if any. */
  function DirsOf(ns: Option<string>): set<string> {
    if ns.Some? then {ns.value} else {}
  }

  // ---------------------------------------------------------------------------
  // Stores: upload and uploadStream
  // ---------------------------------------------------------------------------

  /** An error reported by the platform, passed on to the caller unchanged. */
  datatype IoError = IoError(message: string)

  datatype StoreError = PayloadTooLarge | Io(cause: IoError)

  /** How the write of the target file ends: completely, or with an error
      after which the file holds `left` (`None`: it was not touched). */
  datatype WriteResult = Written | WriteFailed(cause: IoError, left: Option<seq<byte>>)

  /** The platform's answers during one store: whether making the namespace
      directory throws, and how the write ends. */
  datatype StoreEnv = StoreEnv(mkdir: Option<IoError>, write: WriteResult)

  /** A store's effect: the new disk, and the URL or the error. */
  datatype StoreResult = StoreResult(disk: Disk, outcome: Result<string, StoreError>)

  /** `existsSync(dir) || mkdirSync(dir)`: the directory is made only when
      there is a namespace and its directory is missing. */
  predicate MakesDir(d: Disk, ns: Option<string>) {
    ns.Some? && ns.value !in d.dirs
  }

  /** `verifySize`: the size limit is inclusive. */
  predicate SizeAllowed(size: int, limit: int) {
    !(size > limit)
  }

  /** One store of `payload` for the file (`name`, `hash`, `ext`, `size`). */
  function Store(d: Disk, limit: int, name: string, hash: string, ext: string,
                 size: int, payload: seq<byte>, env: StoreEnv): (r: StoreResult)
    // the size guard comes first and leaves everything as it was
    ensures size > limit ==> r == StoreResult(d, Failure(PayloadTooLarge))
    ensures r.outcome == Failure(PayloadTooLarge) ==> size > limit
    // success: the target holds the payload, its directory exists, the URL mirrors the location
    ensures r.outcome.Success? ==>
              var ns := Namespace(name);
              && r.outcome.value == Url(ns, hash, ext)
              && TargetLocation(ns, hash, ext) in r.disk.files
              && r.disk.files[TargetLocation(ns, hash, ext)] == payload
              && DirsOf(ns) <= r.disk.dirs
    // `mkdirSync` runs only for a missing namespace directory; when it throws,
    // the store rejects with that error and nothing changes
    ensures SizeAllowed(size, limit) && MakesDir(d, Namespace(name)) && env.mkdir.Some? ==>
              r == StoreResult(d, Failure(Io(env.mkdir.value)))
    // otherwise the write decides: whatever is already on disk, a completed write succeeds
    ensures SizeAllowed(size, limit) && !(MakesDir(d, Namespace(name)) && env.mkdir.Some?) && env.write.Written? ==>
              r.outcome.Success?
    // and a failed one rejects with the platform's own error, the target holding what it left
    ensures SizeAllowed(size, limit) && !(MakesDir(d, Namespace(name)) && env.mkdir.Some?) && env.write.WriteFailed? ==>
              var target := TargetLocation(Namespace(name), hash, ext);
              && r.outcome == Failure(Io(env.write.cause))
              && r.disk.dirs == d.dirs + DirsOf(Namespace(name))
              && (env.write.left.None? ==> r.disk.files == d.files)
              && (env.write.left.Some? ==> target in r.disk.files && r.disk.files[target] == env.write.left.value)
    ensures r.outcome.Success? ==> env.write.Written?
    // only the target file may change; directories are only added, and only the namespace's
    ensures SameExcept(r.disk.files, d.files, TargetLocation(Namespace(name), hash, ext))
    ensures d.dirs <= r.disk.dirs && r.disk.dirs - d.dirs <= DirsOf(Namespace(name))
    ensures Consistent(d) ==> Consistent(r.disk)
  {
    if !SizeAllowed(size, limit) then StoreResult(d, Failure(PayloadTooLarge))
    else
      var ns := Namespace(name);
      var needsDir := MakesDir(d, ns);
      if needsDir && env.mkdir.Some? then StoreResult(d, Failure(Io(env.mkdir.value)))
      else
        var d' := if needsDir then d.(dirs := d.dirs + {ns.value}) else d;
        var target := TargetLocation(ns, hash, ext);
        match env.write
        case Written =>
          StoreResult(d'.(files := d'.files[target := payload]), Success(Url(ns, hash, ext)))
        case WriteFailed(e, left) =>
          var d'' := if left.Some? then d'.(files := d'.files[target := left.value]) else d';
          StoreResult(d'', Failure(Io(e)))
  }

  // ---------------------------------------------------------------------------
  // delete
  // ---------------------------------------------------------------------------

  /** What `delete` resolves with when there is nothing to remove. */
  const MissingFileMessage: string := "File doesn't exist"

  /** A deletion's effect: the new disk, and the informational message (if
      any) it resolves with or the error it rejects with. */
  datatype RemoveResult = RemoveResult(disk: Disk, outcome: Result<Option<string>, IoError>)

  /** `delete` of (`hash`, `ext`): always the flat location, whatever the
      namespace the file was stored under; `unlink` is the platform's answer. */
  function Remove(d: Disk, hash: string, ext: string, unlink: Option<IoError>): (r: RemoveResult)
    ensures r.disk.dirs == d.dirs
    ensures SameExcept(r.disk.files, d.files, FlatLocation(hash, ext))
    ensures FlatLocation(hash, ext) !in d.files ==> r == RemoveResult(d, Success(Some("File doesn't exist")))
    ensures FlatLocation(hash, ext) in r.disk.files <==> FlatLocation(hash, ext) in d.files && unlink.Some?
    ensures r.outcome.Failure? ==> r.disk == d && unlink == Some(r.outcome.error)
    // a present file: a failed unlink rejects with its error and keeps the file;
    // a successful one resolves without a message
    ensures FlatLocation(hash, ext) in d.files && unlink.Some? ==> r == RemoveResult(d, Failure(unlink.value))
    ensures FlatLocation(hash, ext) in d.files && unlink.None? ==> r.outcome == Success(None)
    ensures Consistent(d) ==> Consistent(r.disk)
  {
    var target := FlatLocation(hash, ext);
    if target !in d.files then RemoveResult(d, Success(Some(MissingFileMessage)))
    else
      match unlink
      case Some(e) => RemoveResult(d, Failure(e))
      case None => RemoveResult(d.(files := d.files - {target}), Success(None))
  }

  // ---------------------------------------------------------------------------
  // Properties relating several operations
  // ---------------------------------------------------------------------------

  /** A payload of exactly the limit passes the guard. */
  lemma SizeLimitIsInclusive(d: Disk, limit: int, name: string, hash: string, ext: string,
                             payload: seq<byte>, env: StoreEnv)
    ensures Store(d, limit, name, hash, ext, limit, payload, env).outcome != Failure(PayloadTooLarge)
    ensures Store(d, limit, name, hash, ext, limit + 1, payload, env).outcome == Failure(PayloadTooLarge)
  {
  }

  /** The payload decides only what the target holds: where it is stored,
      which directory is made, the URL and success or failure are the same
      for any two payloads, which is why `upload` and `uploadStream` agree. */
  lemma PayloadDecidesOnlyContents(d: Disk, limit: int, name: string, hash: string, ext: string,
                                   size: int, p: seq<byte>, q: seq<byte>, env: StoreEnv)
    ensures var rp := Store(d, limit, name, hash, ext, size, p, env);
            var rq := Store(d, limit, name, hash, ext, size, q, env);
            && rp.outcome == rq.outcome
            && rp.disk.dirs == rq.disk.dirs
            && SameExcept(rp.disk.files, rq.disk.files, TargetLocation(Namespace(name), hash, ext))
  {
  }

  /** Storing again under the same (namespace, hash, ext) is no error: the
      second payload replaces the first and nothing else differs from a
      single store of it. */
  lemma SecondStoreOverwrites(d: Disk, limit: int, name1: string, name2: string, hash: string, ext: string,
                              size1: int, size2: int, p1: seq<byte>, p2: seq<byte>, env1: StoreEnv, env2: StoreEnv)
    requires Namespace(name1) == Namespace(name2)
    requires Store(d, limit, name1, hash, ext, size1, p1, env1).outcome.Success?
    requires SizeAllowed(size2, limit) && env2.write.Written?
    ensures var r1 := Store(d, limit, name1, hash, ext, size1, p1, env1);
            var r2 := Store(r1.disk, limit, name2, hash, ext, size2, p2, env2);
            && r2.outcome.Success? && r2.outcome == r1.outcome
            && r2.disk.files == d.files[TargetLocation(Namespace(name1), hash, ext) := p2]
            && r2.disk.dirs == r1.disk.dirs
  {
  }

  /** `delete` cannot reach a namespaced file: after storing under a
      namespace, deleting the same hash and extension leaves that file as
      it was. */
  lemma DeleteMissesNamespacedFile(d: Disk, limit: int, name: string, hash: string, ext: string,
                                   size: int, payload: seq<byte>, env: StoreEnv, unlink: Option<IoError>)
    requires Namespace(name).Some?
    requires Store(d, limit, name, hash, ext, size, payload, env).outcome.Success?
    ensures var r := Remove(Store(d, limit, name, hash, ext, size, payload, env).disk, hash, ext, unlink);
            var target := TargetLocation(Namespace(name), hash, ext);
            target in r.disk.files && r.disk.files[target] == payload
  {
  }

  /** Deleting a flat file just stored removes it and nothing else. */
  lemma DeleteUndoesFlatStore(d: Disk, limit: int, name: string, hash: string, ext: string,
                              size: int, payload: seq<byte>, env: StoreEnv)
    requires Namespace(name).None?
    requires Store(d, limit, name, hash, ext, size, payload, env).outcome.Success?
    ensures var r := Remove(Store(d, limit, name, hash, ext, size, payload, env).disk, hash, ext, None);
            && r.outcome == Success(None)
            && r.disk == Disk(d.dirs, d.files - {FlatLocation(hash, ext)})
  {
  }

  /** The happy path in full: a store the guard admits and the platform
      does not fail makes the namespace directory if it is missing, puts the
      payload at the target and reports the URL; nothing else changes. */
  lemma StoreSucceeds(d: Disk, limit: int, name: string, hash: string, ext: string,
                      size: int, payload: seq<byte>, env: StoreEnv)
    requires SizeAllowed(size, limit) && env.write.Written?
    requires !(MakesDir(d, Namespace(name)) && env.mkdir.Some?)
    ensures var ns := Namespace(name);
            Store(d, limit, name, hash, ext, size, payload, env)
            == StoreResult(Disk(d.dirs + DirsOf(ns), d.files[TargetLocation(ns, hash, ext) := payload]),
                           Success(Url(ns, hash, ext)))
  {
    var ns := Namespace(name);
    if ns.Some? && ns.value in d.dirs {
      assert d.dirs + DirsOf(ns) == d.dirs;
    }
  }

  /** A store without namespace writes `<hash><ext>` directly in the
      uploads folder, creates no directory and reports `/uploads/<hash><ext>`. */
  lemma StoreFlat(d: Disk, limit: int, name: string, hash: string, ext: string,
                  size: int, payload: seq<byte>, env: StoreEnv)
    requires Namespace(name) == None
    requires SizeAllowed(size, limit) && env.write.Written?
    ensures var r := Store(d, limit, name, hash, ext, size, payload, env);
            && r.outcome == Success("/uploads/" + hash + ext)
            && r.disk == Disk(d.dirs, d.files[Location(None, hash + ext) := payload])
  {
    StoreSucceeds(d, limit, name, hash, ext, size, payload, env);
    assert DirsOf(None) == {};
  }

  /** A flat store: `photo.png` stored as `abc123.png` directly in the uploads folder. */
  lemma FlatStoreExample(d: Disk, env: StoreEnv, name: string, payload: seq<byte>)
    requires name == "photo.png"
    requires env.mkdir.None? && env.write.Written?
    ensures var r := Store(d, DefaultSizeLimit, name, "abc123", ".png", 10, payload, env);
            && r.outcome == Success("/uploads/abc123.png")
            && r.disk == Disk(d.dirs, d.files[Location(None, "abc123.png") := payload])
  {
    NoNamespaceExample(name);
    StoreFlat(d, DefaultSizeLimit, name, "abc123", ".png", 10, payload, env);
    assert "abc123" + ".png" == "abc123.png";
    assert "/uploads/" + "abc123" + ".png" == "/uploads/abc123.png";
  }

  /** A store under namespace `n` writes `<n>/<hash><ext>`, creates `n` if
      it is missing and reports `/uploads/<n>/<hash><ext>`. */
  lemma StoreUnderNamespace(d: Disk, limit: int, name: string, n: string, hash: string, ext: string,
                            size: int, payload: seq<byte>, env: StoreEnv)
    requires Namespace(name) == Some(n)
    requires SizeAllowed(size, limit) && env.write.Written?
    requires !(MakesDir(d, Some(n)) && env.mkdir.Some?)
    ensures var r := Store(d, limit, name, hash, ext, size, payload, env);
            && r.outcome == Success("/uploads/" + n + "/" + hash + ext)
            && r.disk == Disk(d.dirs + {n}, d.files[Location(Some(n), hash + ext) := payload])
  {
    StoreSucceeds(d, limit, name, hash, ext, size, payload, env);
  }

  /** A namespaced store: `::user42::avatar.png` goes to `user42/abc123.png`. */
  lemma NamespacedStoreExample(d: Disk, env: StoreEnv, name: string, payload: seq<byte>)
    requires name == "::user42::avatar.png"
    requires env.mkdir.None? && env.write.Written?
    ensures var r := Store(d, DefaultSizeLimit, name, "abc123", ".png", 10, payload, env);
            && r.outcome == Success("/uploads/user42/abc123.png")
            && r.disk == Disk(d.dirs + {"user42"}, d.files[Location(Some("user42"), "abc123.png") := payload])
  {
    NamespaceExample(name);
    StoreUnderNamespace(d, DefaultSizeLimit, name, "user42", "abc123", ".png", 10, payload, env);
    assert "abc123" + ".png" == "abc123.png";
    assert "/uploads/" + "user42" + "/" + "abc123" + ".png" == "/uploads/user42/abc123.png";
  }
}
