/**
 * The provider object `init` returns, with the filesystem it works on and
 * the caller's file object it writes `url` into. Each operation changes the
 * state step by step as the source does and is proved to have the effect
 * the functions of module Storage describe.
 */
module Provider {
  import opened Wrappers
  import opened Paths
  import opened Storage

  /** The uploads folder on disk: whether it exists, the namespace
      directories in it and the files stored below it. */
  class FileSystem {
    var folderExists: bool
    var dirs: set<string>
    var files: map<Location, seq<byte>>

    constructor (folderExists: bool, dirs: set<string>, files: map<Location, seq<byte>>)
      ensures this.folderExists == folderExists && this.dirs == dirs && this.files == files
      ensures Consistent(Disk(dirs, files)) ==> Valid()
    {
      this.folderExists := folderExists;
      this.dirs := dirs;
      this.files := files;
    }

    function State(): Disk
      reads this
    {
      Disk(dirs, files)
    }

    /** No file sits in a namespace directory that is missing. */
    ghost predicate Valid()
      reads this
    {
      Consistent(State())
    }
  }

  /** The caller's file object: what the provider reads, and the `url` it
      sets after a successful store. `buffer` is what `upload` writes and
      `stream` the bytes the readable stream hands to `uploadStream`. */
  class UploadFile {
    const name: string
    const hash: string
    const ext: string
    const size: int
    const buffer: seq<byte>
    const stream: seq<byte>
    var url: Option<string>

    constructor (name: string, hash: string, ext: string, size: int, buffer: seq<byte>, stream: seq<byte>)
      ensures this.name == name && this.hash == hash && this.ext == ext && this.size == size
      ensures this.buffer == buffer && this.stream == stream && url == None
    {
      this.name := name;
      this.hash := hash;
      this.ext := ext;
      this.size := size;
      this.buffer := buffer;
      this.stream := stream;
      url := None;
    }
  }

  /** What the outcome of a store leaves in `file.url`: the URL on success,
      the previous value otherwise. */
  function UrlAfter(outcome: Result<string, StoreError>, before: Option<string>): (u: Option<string>)
    ensures outcome.Failure? ==> u == before
    ensures outcome.Success? ==> u == Some(outcome.value)
  {
    if outcome.Success? then Some(outcome.value) else before
  }

  /** How a store's outcome reaches the caller. */
  function Reported(outcome: Result<string, StoreError>): (r: Outcome<StoreError>)
    ensures r.Pass? <==> outcome.Success?
    ensures r.Fail? ==> r.error == outcome.error
  {
    if outcome.Success? then Pass else Fail(outcome.error)
  }

  /** An initialised provider: the uploads folder and the size limit that
      every operation closes over. */
  class LocalProvider {
    const fs: FileSystem
    const uploadPath: string
    const sizeLimit: int

    constructor (fs: FileSystem, settings: Settings)
      ensures this.fs == fs && uploadPath == settings.uploadPath && sizeLimit == settings.sizeLimit
    {
      this.fs := fs;
      uploadPath := settings.uploadPath;
      sizeLimit := settings.sizeLimit;
    }

    /** `init`: fails naming the folder when `<publicRoot>/uploads` is
        missing. It modifies nothing, so it never creates that folder. */
    static method Init(fs: FileSystem, publicRoot: string, config: Config)
      returns (r: Result<LocalProvider, InitError>)
      ensures r.Success? ==>
                && InitSettings(publicRoot, fs.folderExists, config)
                   == Success(Settings(r.value.uploadPath, r.value.sizeLimit))
                && r.value.fs == fs && fresh(r.value)
      ensures r.Failure? ==> InitSettings(publicRoot, fs.folderExists, config) == Failure(r.error)
    {
      var uploadPath := UploadPath(publicRoot);
      if !fs.folderExists {
        return Failure(UploadFolderMissing(uploadPath));
      }
      var p := new LocalProvider(fs, Settings(uploadPath, config.sizeLimit.GetOr(DefaultSizeLimit)));
      r := Success(p);
    }

    /** `upload`: store `file.buffer`. */
    method Upload(file: UploadFile, env: StoreEnv) returns (r: Outcome<StoreError>)
      modifies fs`dirs, fs`files, file`url
      ensures var s := Store(old(fs.State()), sizeLimit, file.name, file.hash, file.ext, file.size, file.buffer, env);
              && fs.State() == s.disk
              && r == Reported(s.outcome)
              && file.url == UrlAfter(s.outcome, old(file.url))
      ensures old(fs.Valid()) ==> fs.Valid()
    {
      if file.size > sizeLimit {
        return Fail(PayloadTooLarge);
      }
      var ns := Namespace(file.name);
      var target := FlatLocation(file.hash, file.ext);
      if ns.Some? {
        if ns.value !in fs.dirs {
          if env.mkdir.Some? {
            return Fail(Io(env.mkdir.value));
          }
          fs.dirs := fs.dirs + {ns.value};
        }
        target := TargetLocation(ns, file.hash, file.ext);
      }
      match env.write
      case WriteFailed(e, left) =>
        if left.Some? {
          fs.files := fs.files[target := left.value];
        }
        r := Fail(Io(e));
      case Written =>
        fs.files := fs.files[target := file.buffer];
        file.url := Some(Url(ns, file.hash, file.ext));
        r := Pass;
    }

    /** `uploadStream`: pipe `file.stream` into the target. A failure of the
        source stream ends the write like a failure of the destination. The
        effect is that of `Upload` with the streamed bytes as the buffer. */
    method UploadStream(file: UploadFile, env: StoreEnv) returns (r: Outcome<StoreError>)
      modifies fs`dirs, fs`files, file`url
      ensures var s := Store(old(fs.State()), sizeLimit, file.name, file.hash, file.ext, file.size, file.stream, env);
              && fs.State() == s.disk
              && r == Reported(s.outcome)
              && file.url == UrlAfter(s.outcome, old(file.url))
      ensures old(fs.Valid()) ==> fs.Valid()
    {
      if file.size > sizeLimit {
        return Fail(PayloadTooLarge);
      }
      var ns := Namespace(file.name);
      var target := FlatLocation(file.hash, file.ext);
      if ns.Some? {
        if ns.value !in fs.dirs {
          if env.mkdir.Some? {
            return Fail(Io(env.mkdir.value));
          }
          fs.dirs := fs.dirs + {ns.value};
        }
        target := TargetLocation(ns, file.hash, file.ext);
      }
      match env.write
      case WriteFailed(e, left) =>
        if left.Some? {
          fs.files := fs.files[target := left.value];
        }
        r := Fail(Io(e));
      case Written =>
        fs.files := fs.files[target := file.stream];
        file.url := Some(Url(ns, file.hash, file.ext));
        r := Pass;
    }

    /** `delete`: remove `<uploads>/<hash><ext>` if it is there. */
    method Delete(file: UploadFile, unlink: Option<IoError>) returns (r: Result<Option<string>, IoError>)
      modifies fs`files
      ensures var s := Remove(old(fs.State()), file.hash, file.ext, unlink);
              fs.State() == s.disk && r == s.outcome
      ensures old(fs.Valid()) ==> fs.Valid()
    {
      var target := FlatLocation(file.hash, file.ext);
      if target !in fs.files {
        return Success(Some(MissingFileMessage));
      }
      match unlink
      case Some(e) =>
        r := Failure(e);
      case None =>
        fs.files := fs.files - {target};
        r := Success(None);
    }
  }
}
