/**
 * The raw-data file watcher: the listener turns newly added `.gb` and `.edf` files (and new
 * directories) into `FileWatcherMessage`s, the operator passes each one to its publisher, and
 * the Tiled publisher ingests every file and forwards the message, now pointing at the
 * ingested node's URI, to Redis.
 */
module FileWatcher {
  import opened Wrappers
  import opened PyStrings
  import Ingestor

  /** `watchfiles.Change`. */
  datatype ChangeKind = Added | Modified | Deleted

  datatype Change = Change(kind: ChangeKind, path: string)

  /** `FileWatcherMessage(file_path, is_directory)`. */
  datatype FileWatcherMessage = FileWatcherMessage(filePath: string, isDirectory: bool)

  /** The file system at the moment a change is looked at: `None` when nothing is at the
      path, otherwise whether it is a directory. */
  type FileSystem = string -> Option<bool>

  /** `Path(p).name`: the text after the last "/". */
  function Name(p: string): string
  {
    match LastIndexOf(p, '/')
    case None => p
    case Some(i) => p[i + 1..]
  }

  /** `Path(p).suffix`: the name from its last dot, unless that dot is the first or the last
      character of the name. */
  function Suffix(p: string): string
  {
    var name := Name(p);
    match LastIndexOf(name, '.')
    case None => ""
    case Some(i) => if 0 < i < |name| - 1 then name[i..] else ""
  }

  /** A file `dir/stem.ext` with a non-empty stem and an extension without dots has suffix
      `.ext`. */
  lemma SuffixSpec(dir: string, stem: string, ext: string)
    requires |stem| > 0 && |ext| > 0 && Lacks(stem, '/') && Lacks(ext, '/') && Lacks(ext, '.')
    ensures Suffix(dir + "/" + stem + "." + ext) == "." + ext
  {
    var p := dir + "/" + stem + "." + ext;
    var name := stem + "." + ext;
    assert p[|dir|] == '/';
    assert forall k :: |dir| < k < |p| ==> p[k] == name[k - |dir| - 1];
    assert Name(p) == name by {
      assert p[|dir| + 1..] == name;
    }
    assert name[|stem|] == '.';
    assert forall k :: |stem| < k < |name| ==> name[k] == ext[k - |stem| - 1];
    assert name[|stem|..] == "." + ext;
  }

  /** A file the watcher accepts with a stem before its suffix: the ingestor's key for it
      (`os.path.splitext`) and the suffix make up the file name again. */
  lemma SuffixAndKey(p: string)
    requires Suffix(p) != "" && exists k :: 0 <= k < |Name(p)| - |Suffix(p)| && Name(p)[k] != '.'
    ensures Ingestor.StripExtension(Name(p)) + Suffix(p) == Name(p)
  {
    var name := Name(p);
    var i := LastIndexOf(name, '.').value;
    assert Suffix(p) == name[i..];
    assert name == name[..i] + name[i..];
  }

  /** Lines 105-119 for one change: only additions of something that still exists, and of a
      file only when its suffix is ".gb" or ".edf". */
  function Detect(c: Change, fs: FileSystem): Option<FileWatcherMessage>
  {
    if c.kind != Added then None
    else match fs(c.path)
      case None => None
      case Some(isDir) =>
        if !isDir && Suffix(c.path) != ".gb" && Suffix(c.path) != ".edf" then None
        else Some(FileWatcherMessage(c.path, isDir))
  }

  /** The messages for one batch of changes, in order. */
  function DetectBatch(batch: seq<Change>, fs: FileSystem): seq<FileWatcherMessage>
  {
    if |batch| == 0 then []
    else DetectBatch(batch[..|batch| - 1], fs) + match Detect(batch[|batch| - 1], fs) case None => [] case Some(m) => [m]
  }

  /** The messages for a series of batches, in order. */
  function DetectAll(batches: seq<seq<Change>>, fs: FileSystem): seq<FileWatcherMessage>
  {
    if |batches| == 0 then [] else DetectAll(batches[..|batches| - 1], fs) + DetectBatch(batches[|batches| - 1], fs)
  }

  /** The change `c` is the addition of the existing directory or ".gb"/".edf" file that `m`
      describes. */
  predicate Reports(c: Change, fs: FileSystem, m: FileWatcherMessage)
  {
    c.kind == Added && c.path == m.filePath && fs(m.filePath) == Some(m.isDirectory)
    && (m.isDirectory || Suffix(m.filePath) in {".gb", ".edf"})
  }

  /** One change gives `m` exactly when it reports it. */
  lemma DetectSpec(c: Change, fs: FileSystem, m: FileWatcherMessage)
    ensures Detect(c, fs) == Some(m) <==> Reports(c, fs, m)
  {
  }

  /** A message is produced exactly for an added path that exists and is a directory or a
      ".gb"/".edf" file, and says which of the two it is. */
  lemma DetectBatchSpec(batch: seq<Change>, fs: FileSystem, m: FileWatcherMessage)
    ensures m in DetectBatch(batch, fs) <==> exists k :: 0 <= k < |batch| && Reports(batch[k], fs, m)
  {
    if m in DetectBatch(batch, fs) {
      var k := DetectBatchSound(batch, fs, m);
    }
    forall k | 0 <= k < |batch| && Reports(batch[k], fs, m)
      ensures m in DetectBatch(batch, fs)
    {
      DetectBatchComplete(batch, fs, m, k);
    }
  }

  /** Each message of a batch comes from a change of the batch that reports it. */
  lemma {:induction false} DetectBatchSound(batch: seq<Change>, fs: FileSystem, m: FileWatcherMessage) returns (k: nat)
    requires m in DetectBatch(batch, fs)
    ensures k < |batch| && Reports(batch[k], fs, m)
  {
    var init, c := batch[..|batch| - 1], batch[|batch| - 1];
    if m in DetectBatch(init, fs) {
      k := DetectBatchSound(init, fs, m);
      assert batch[k] == init[k];
    } else {
      DetectSpec(c, fs, m);
      k := |batch| - 1;
    }
  }

  /** Each change of a batch that reports a message produces it. */
  lemma {:induction false} DetectBatchComplete(batch: seq<Change>, fs: FileSystem, m: FileWatcherMessage, k: nat)
    requires k < |batch| && Reports(batch[k], fs, m)
    ensures m in DetectBatch(batch, fs)
  {
    var init, c := batch[..|batch| - 1], batch[|batch| - 1];
    if k < |init| {
      assert init[k] == batch[k];
      DetectBatchComplete(init, fs, m, k);
    } else {
      DetectSpec(c, fs, m);
    }
  }

  /** Every message names an added, existing directory or ".gb"/".edf" file. */
  lemma {:induction false} DetectAllSound(batches: seq<seq<Change>>, fs: FileSystem, m: FileWatcherMessage)
    requires m in DetectAll(batches, fs)
    ensures fs(m.filePath) == Some(m.isDirectory) && (m.isDirectory || Suffix(m.filePath) in {".gb", ".edf"})
    ensures exists b, k :: 0 <= b < |batches| && 0 <= k < |batches[b]| && batches[b][k] == Change(Added, m.filePath)
  {
    var init, last := batches[..|batches| - 1], batches[|batches| - 1];
    if m in DetectAll(init, fs) {
      DetectAllSound(init, fs, m);
      var b, k :| 0 <= b < |init| && 0 <= k < |init[b]| && init[b][k] == Change(Added, m.filePath);
      assert batches[b] == init[b];
    } else {
      DetectBatchSpec(last, fs, m);
      var k :| 0 <= k < |last| && Reports(last[k], fs, m);
      assert batches[|batches| - 1][k] == Change(Added, m.filePath);
    }
  }

  /** `RedisPublisher`: directories are skipped, every other message is published on the
      channel (its JSON form is not modelled). */
  class RedisPublisher {
    const channelName: string
    var published: seq<FileWatcherMessage>

    constructor (channelName: string)
      ensures this.channelName == channelName && published == []
    {
      this.channelName := channelName;
      published := [];
    }

    method Publish(message: FileWatcherMessage)
      modifies this
      ensures published == old(published) + if message.isDirectory then [] else [message]
    {
      if message.isDirectory {
        return;
      }
      published := published + [message];
    }
  }

  /** What the Tiled publisher forwards for one message: nothing for a directory or when
      ingesting raises (the error is logged and swallowed), otherwise the message with its
      path replaced by the ingested node's URI. `ingest` is `add_scan_tiled`. */
  function TiledForward(m: FileWatcherMessage, ingest: string -> Option<string>): seq<FileWatcherMessage>
  {
    if m.isDirectory then []
    else match ingest(m.filePath)
      case None => []
      case Some(uri) => [m.(filePath := uri)]
  }

  /** `TiledPublisher`; `redis` is the optional Redis publisher. */
  class TiledPublisher {
    const tiledUrl: string
    const redis: Option<RedisPublisher>
    /** The paths given to the ingestor, in order. */
    var ingested: seq<string>

    constructor (tiledUrl: string, redis: Option<RedisPublisher>)
      ensures this.tiledUrl == tiledUrl && this.redis == redis && ingested == []
    {
      this.tiledUrl := tiledUrl;
      this.redis := redis;
      ingested := [];
    }

    /** `publish(message)`: the message's `file_path` is overwritten before it is forwarded;
        the message is a value here, as nothing reads it afterwards. */
    method Publish(message: FileWatcherMessage, ingest: string -> Option<string>)
      modifies this, if redis.Some? then {redis.value} else {}
      ensures ingested == old(ingested) + if message.isDirectory then [] else [message.filePath]
      ensures redis.Some? ==> redis.value.published == old(redis.value.published) + TiledForward(message, ingest)
    {
      if message.isDirectory {
        return;
      }
      ingested := ingested + [message.filePath];
      var tiledUri := ingest(message.filePath);
      if tiledUri.None? {
        return;
      }
      if redis.Some? {
        var forwarded := message.(filePath := tiledUri.value);
        redis.value.Publish(forwarded);
      }
    }
  }

  /** The Redis messages for a series of detected messages. */
  function ForwardAll(ms: seq<FileWatcherMessage>, ingest: string -> Option<string>): seq<FileWatcherMessage>
  {
    if |ms| == 0 then [] else ForwardAll(ms[..|ms| - 1], ingest) + TiledForward(ms[|ms| - 1], ingest)
  }

  /** What reaches Redis: one message per detected file whose ingestion succeeded, never a
      directory, each pointing at a URI the ingestor returned. */
  lemma {:induction false} ForwardAllSpec(ms: seq<FileWatcherMessage>, ingest: string -> Option<string>)
    ensures |ForwardAll(ms, ingest)| <= |ms|
    ensures forall r :: r in ForwardAll(ms, ingest) ==>
      !r.isDirectory && exists m :: m in ms && !m.isDirectory && ingest(m.filePath) == Some(r.filePath)
  {
    if |ms| > 0 {
      var init, m := ms[..|ms| - 1], ms[|ms| - 1];
      ForwardAllSpec(init, ingest);
      assert forall x :: x in init ==> x in ms;
      assert m in ms;
    }
  }

  /** `FileWatcherOperator`: passes every message to its publisher unchanged; `None` is the
      `NullPublisher`, which does nothing. */
  class FileWatcherOperator {
    const publisher: Option<TiledPublisher>

    constructor (publisher: Option<TiledPublisher>)
      ensures this.publisher == publisher
    {
      this.publisher := publisher;
    }

    method Process(message: FileWatcherMessage, ingest: string -> Option<string>)
      modifies if publisher.Some? then {publisher.value} else {}
      modifies if publisher.Some? && publisher.value.redis.Some? then {publisher.value.redis.value} else {}
      ensures publisher.Some? ==>
        publisher.value.ingested == old(publisher.value.ingested) + if message.isDirectory then [] else [message.filePath]
      ensures publisher.Some? && publisher.value.redis.Some? ==>
        publisher.value.redis.value.published == old(publisher.value.redis.value.published) + TiledForward(message, ingest)
    {
      if publisher.Some? {
        publisher.value.Publish(message, ingest);
      }
    }
  }

  /** `FileWatcherListener`; `processed` holds the messages handed to `operator.process`, in
      order. */
  class FileWatcherListener {
    const directory: string
    var processed: seq<FileWatcherMessage>

    constructor (directory: string)
      ensures this.directory == directory && processed == []
    {
      this.directory := directory;
      processed := [];
    }

    /** The loops of `start` over the batches of changes `awatch` yields. */
    method Start(batches: seq<seq<Change>>, fs: FileSystem)
      modifies this
      ensures processed == old(processed) + DetectAll(batches, fs)
    {
      var b := 0;
      while b < |batches|
        invariant 0 <= b <= |batches|
        invariant processed == old(processed) + DetectAll(batches[..b], fs)
      {
        assert batches[..b + 1][..b] == batches[..b];
        ProcessBatch(batches[b], fs);
        b := b + 1;
      }
      assert batches[..b] == batches;
    }

    /** The inner loop of `start` over one batch. */
    method ProcessBatch(changes: seq<Change>, fs: FileSystem)
      modifies this
      ensures processed == old(processed) + DetectBatch(changes, fs)
    {
      var j := 0;
      while j < |changes|
        invariant 0 <= j <= |changes|
        invariant processed == old(processed) + DetectBatch(changes[..j], fs)
      {
        assert changes[..j + 1][..j] == changes[..j];
        var change := changes[j];
        j := j + 1;
        if change.kind != Added {
          continue;
        }
        var found := fs(change.path);
        if found.None? {
          continue;
        }
        var isDir := found.value;
        if !isDir && Suffix(change.path) != ".gb" && Suffix(change.path) != ".edf" {
          continue;
        }
        processed := processed + [FileWatcherMessage(change.path, isDir)];
      }
      assert changes[..j] == changes;
    }
  }
}
