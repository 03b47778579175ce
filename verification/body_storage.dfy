/** Request bodies kept in memory or on disk and replayed: common/body_storage.go and the body
    functions of common/gin.go. What the network, the file system and a decoder answer is given
    as input. */
module BodyStorage {
  import opened Wrappers
  import opened DiskCache

  // ----- The abstract reader -----

  /** What a storage stands for. */
  datatype View = View(data: seq<byte>, pos: nat, closed: bool)

  datatype Whence = FromStart | FromCurrent | FromEnd

  datatype Reply = Data(bytes: seq<byte>) | Eof | At(pos: nat) | Invalid | IsClosed | Done

  datatype Kind = InMemory | OnDisk

  /** Read into a buffer of n bytes. Only a file distinguishes an empty buffer at the end. */
  function ReadOf(kind: Kind, v: View, n: nat): (Reply, View) {
    if v.closed then (IsClosed, v)
    else if kind.OnDisk? && n == 0 then (Data([]), v)
    else if v.pos >= |v.data| then (Eof, v)
    else
      var end := if v.pos + n <= |v.data| then v.pos + n else |v.data|;
      (Data(v.data[v.pos..end]), v.(pos := end))
  }

  function SeekOf(v: View, offset: int, whence: Whence): (Reply, View) {
    var target := offset + match whence case FromStart => 0 case FromCurrent => v.pos case FromEnd => |v.data|;
    if v.closed then (IsClosed, v)
    else if target < 0 then (Invalid, v)
    else (At(target), v.(pos := target))
  }

  // ----- The two storages -----

  class MemoryStorage {
    const data: seq<byte>
    const counters: Counters
    var pos: nat
    var closed: bool

    ghost function Shown(): View
      reads this
    {
      View(data, pos, closed)
    }

    constructor (data: seq<byte>, counters: Counters)
      modifies counters`buffers, counters`bufferBytes
      ensures Shown() == View(data, 0, false) && this.counters == counters
      ensures counters.buffers == old(counters.buffers) + 1
      ensures counters.bufferBytes == old(counters.bufferBytes) + |data|
    {
      this.data, this.counters, pos, closed := data, counters, 0, false;
      new;
      counters.IncrementMemoryBuffers(|data|);
    }

    method Read(n: nat) returns (r: Reply)
      modifies this
      ensures (r, Shown()) == ReadOf(InMemory, old(Shown()), n)
    {
      if closed {
        return IsClosed;
      }
      if pos >= |data| {
        return Eof;
      }
      var end := if pos + n <= |data| then pos + n else |data|;
      r := Data(data[pos..end]);
      pos := end;
    }

    method Seek(offset: int, whence: Whence) returns (r: Reply)
      modifies this
      ensures (r, Shown()) == SeekOf(old(Shown()), offset, whence)
    {
      if closed {
        return IsClosed;
      }
      var target := offset;
      match whence {
        case FromStart =>
        case FromCurrent => target := pos + offset;
        case FromEnd => target := |data| + offset;
      }
      if target < 0 {
        return Invalid;
      }
      pos := target;
      r := At(pos);
    }

    /** The second close does nothing. */
    method Close()
      modifies this`closed, counters`buffers, counters`bufferBytes
      ensures Shown() == old(Shown()).(closed := true)
      ensures counters.buffers == old(counters.buffers) - if old(closed) then 0 else 1
      ensures counters.bufferBytes == old(counters.bufferBytes) - if old(closed) then 0 else |data|
    {
      if !closed {
        closed := true;
        counters.DecrementMemoryBuffers(|data|);
      }
    }

    method Bytes() returns (r: Reply)
      ensures r == if closed then IsClosed else Data(data)
    {
      if closed {
        return IsClosed;
      }
      r := Data(data);
    }
  }

  class DiskStorage {
    const contents: seq<byte> // of the temporary file
    const size: nat
    const counters: Counters
    var pos: nat
    var closed: bool

    ghost function Shown(): View
      reads this
    {
      View(contents, pos, closed)
    }

    ghost predicate Valid() {
      size == |contents|
    }

    constructor (written: seq<byte>, counters: Counters)
      modifies counters`activeFiles, counters`usage
      ensures Valid() && Shown() == View(written, 0, false) && this.counters == counters
      ensures counters.activeFiles == old(counters.activeFiles) + 1
      ensures counters.usage == old(counters.usage) + |written|
    {
      contents, size, this.counters, pos, closed := written, |written|, counters, 0, false;
      new;
      counters.IncrementDiskFiles(size);
    }

    /** The file's own read and seek, without the closed flag. */
    method FileRead(n: nat) returns (r: Reply)
      requires !closed
      modifies this`pos
      ensures (r, Shown()) == ReadOf(OnDisk, old(Shown()), n)
    {
      if n == 0 {
        return Data([]);
      }
      if pos >= |contents| {
        return Eof;
      }
      var end := if pos + n <= |contents| then pos + n else |contents|;
      r := Data(contents[pos..end]);
      pos := end;
    }

    method FileSeek(offset: int, whence: Whence) returns (r: Reply)
      requires !closed
      modifies this`pos
      ensures (r, Shown()) == SeekOf(old(Shown()), offset, whence)
    {
      var target := offset;
      match whence {
        case FromStart =>
        case FromCurrent => target := pos + offset;
        case FromEnd => target := |contents| + offset;
      }
      if target < 0 {
        return Invalid;
      }
      pos := target;
      r := At(pos);
    }

    method Read(n: nat) returns (r: Reply)
      modifies this
      ensures (r, Shown()) == ReadOf(OnDisk, old(Shown()), n)
    {
      if closed {
        return IsClosed;
      }
      r := FileRead(n);
    }

    method Seek(offset: int, whence: Whence) returns (r: Reply)
      modifies this
      ensures (r, Shown()) == SeekOf(old(Shown()), offset, whence)
    {
      if closed {
        return IsClosed;
      }
      r := FileSeek(offset, whence);
    }

    method Close()
      requires Valid()
      modifies this`closed, counters`activeFiles, counters`usage
      ensures Shown() == old(Shown()).(closed := true)
      ensures old(closed) ==> counters.activeFiles == old(counters.activeFiles) && counters.usage == old(counters.usage)
      ensures !old(closed) ==>
                && counters.activeFiles == (if old(counters.activeFiles) < 1 then 0 else old(counters.activeFiles) - 1)
                && counters.usage == (if old(counters.usage) < |contents| then 0 else old(counters.usage) - |contents|)
    {
      if !closed {
        closed := true;
        counters.DecrementDiskFiles(size);
      }
    }

    /** The whole file, through a rewind and back to where the reader stood. */
    method Bytes() returns (r: Reply)
      requires Valid()
      modifies this`pos
      ensures Shown() == old(Shown())
      ensures r == if closed then IsClosed else Data(contents)
    {
      if closed {
        return IsClosed;
      }
      var current := FileSeek(0, FromCurrent);
      var start := FileSeek(0, FromStart);
      r := FileRead(size);
      var back := FileSeek(current.pos, FromStart);
    }
  }

  /** The BodyStorage interface. */
  datatype Storage = Memory(m: MemoryStorage) | Disk(d: DiskStorage)
  {
    ghost function Object(): object {
      match this case Memory(m) => m case Disk(d) => d
    }

    ghost function Shown(): View
      reads Object()
    {
      match this case Memory(m) => m.Shown() case Disk(d) => d.Shown()
    }

    ghost predicate Valid() {
      Disk? ==> d.Valid()
    }

    ghost function Counting(): Counters {
      match this case Memory(m) => m.counters case Disk(d) => d.counters
    }

    function KindOf(): Kind {
      if Memory? then InMemory else OnDisk
    }

    method Read(n: nat) returns (r: Reply)
      modifies Object()
      ensures (r, Shown()) == ReadOf(KindOf(), old(Shown()), n)
    {
      match this {
        case Memory(m) => r := m.Read(n);
        case Disk(d) => r := d.Read(n);
      }
    }

    method Rewind() returns (ok: bool)
      modifies Object()
      ensures (if ok then At(0) else IsClosed, Shown()) == SeekOf(old(Shown()), 0, FromStart)
    {
      var r;
      match this {
        case Memory(m) => r := m.Seek(0, FromStart);
        case Disk(d) => r := d.Seek(0, FromStart);
      }
      ok := r.At?;
    }

    method Bytes() returns (r: Reply)
      requires Valid()
      modifies Object()
      ensures Shown() == old(Shown())
      ensures r == if Shown().closed then IsClosed else Data(Shown().data)
    {
      match this {
        case Memory(m) => r := m.Bytes();
        case Disk(d) => r := d.Bytes();
      }
    }
  }

  // ----- Creation -----

  datatype Config = Config(enabled: bool, threshold: int, limit: int)

  datatype Created = Ok(storage: Storage) | TooLarge | Failed

  /** io.LimitReader. */
  function Limited(content: seq<byte>, most: nat): seq<byte> {
    if |content| <= most then content else content[..most]
  }

  /** A new storage and what it added to the counters. */
  twostate predicate Counted(counters: Counters, new s: Storage)
    reads counters
  {
    if s.Memory? then
      && counters.buffers == old(counters.buffers) + 1 && counters.bufferBytes == old(counters.bufferBytes) + |s.m.data|
      && counters.activeFiles == old(counters.activeFiles) && counters.usage == old(counters.usage)
    else
      && counters.activeFiles == old(counters.activeFiles) + 1 && counters.usage == old(counters.usage) + |s.d.contents|
      && counters.buffers == old(counters.buffers) && counters.bufferBytes == old(counters.bufferBytes)
  }

  /** `diskWorks`: the temporary file can be created and written. A failure falls back to memory. */
  method CreateBodyStorage(data: seq<byte>, config: Config, counters: Counters, diskWorks: bool) returns (s: Storage)
    modifies counters
    ensures fresh(s.Object()) && s.Valid() && s.Shown() == View(data, 0, false) && s.Counting() == counters
    ensures s.Disk? <==> config.enabled && |data| >= config.threshold && old(counters.usage) + |data| <= config.limit && diskWorks
    ensures Counted(counters, s)
  {
    if config.enabled && |data| >= config.threshold && counters.Available(config.enabled, config.limit, |data|) {
      if !diskWorks {
        var m := new MemoryStorage(data, counters);
        return Memory(m);
      }
      var d := new DiskStorage(data, counters);
      return Disk(d);
    }
    var m := new MemoryStorage(data, counters);
    s := Memory(m);
  }

  /** A body that arrives intact is accepted exactly when it is no longer than maxBytes, on both
      paths, whatever length was declared; only a file that should be used and is broken refuses a
      shorter one. */
  method CreateBodyStorageFromReader(content: seq<byte>, arrives: bool, contentLength: int, maxBytes: nat, config: Config,
                                     counters: Counters, diskWorks: bool) returns (r: Created)
    modifies counters
    ensures var toDisk := config.enabled && contentLength > 0 && contentLength >= config.threshold
                          && old(counters.usage) + contentLength <= config.limit;
            && (r.Ok? <==> arrives && |content| <= maxBytes && (diskWorks || !toDisk))
            && (r.TooLarge? <==> arrives && |content| > maxBytes && (diskWorks || !toDisk))
    ensures r.Ok? ==> fresh(r.storage.Object()) && r.storage.Valid() && r.storage.Shown() == View(content, 0, false)
    ensures r.Ok? ==> r.storage.Counting() == counters
    ensures r.Ok? ==> Counted(counters, r.storage)
    ensures !r.Ok? ==> unchanged(counters)
  {
    if config.enabled && contentLength > 0 && contentLength >= config.threshold
       && counters.Available(config.enabled, config.limit, contentLength) {
      if !diskWorks || !arrives {
        return Failed;
      }
      var written := Limited(content, maxBytes + 1);
      if |written| > maxBytes {
        return TooLarge;
      }
      var d := new DiskStorage(written, counters);
      return Ok(Disk(d));
    }
    if !arrives {
      return Failed;
    }
    var data := Limited(content, maxBytes + 1);
    if |data| > maxBytes {
      return TooLarge;
    }
    var s := CreateBodyStorage(data, config, counters, diskWorks);
    r := Ok(s);
  }

  // ----- What a request serves -----

  /** What a decoder did: how far it read a stream, and whether it succeeded. */
  datatype Decoding = Decoding(taken: nat, succeeds: bool)

  datatype Call =
    | GetBody
    | ReadBody(n: nat)
    | Unmarshal(json: bool, decoding: Decoding)
    | Rewrite(replacement: seq<byte>)

  /** Nothing stored yet, with the rewritten body and the incoming one if it can still be stored;
      or a stored body. */
  datatype Serving =
    | Unread(rewritten: Option<seq<byte>>, incoming: Option<seq<byte>>)
    | Stored(content: seq<byte>)

  /** Asking for the body stores one if it can. */
  function Obtain(s: Serving): Serving {
    if s.Stored? then s
    else if s.rewritten.Some? then Stored(s.rewritten.value)
    else if s.incoming.Some? then Stored(s.incoming.value)
    else s
  }

  function AfterCall(s: Serving, call: Call): Serving {
    match call
    case GetBody => Obtain(s)
    case ReadBody(_) => s
    case Unmarshal(_, _) => Obtain(s)
    case Rewrite(replacement) => if s.Stored? then s else s.(rewritten := Some(replacement))
  }

  function AfterCalls(s: Serving, calls: seq<Call>): Serving {
    if calls == [] then s else AfterCall(AfterCalls(s, calls[..|calls| - 1]), calls[|calls| - 1])
  }

  /** Calls without a rewrite never put another body in place of the incoming one. */
  lemma {:induction false} FreshCalls(s: Serving, calls: seq<Call>)
    requires forall k :: 0 <= k < |calls| ==> !calls[k].Rewrite?
    ensures s.Unread? && s.rewritten.None? ==>
              AfterCalls(s, calls) == s || (s.incoming.Some? && AfterCalls(s, calls) == Stored(s.incoming.value))
  {
    if calls != [] {
      FreshCalls(s, calls[..|calls| - 1]);
    }
  }

  // ----- The request context -----

  class RequestContext {
    const body: seq<byte> // of the incoming request
    const arrives: bool
    const contentLength: int
    const maxBytes: nat
    const config: Config
    const diskWorks: bool
    const counters: Counters
    var cached: Option<seq<byte>> // set by adapters that rewrite the body
    var storage: Option<Storage>
    var consumed: bool // the incoming body was read and closed
    var replayed: bool // the request's body is the storage

    ghost function Objects(): set<object>
      reads this
    {
      if storage.Some? then {storage.value.Object()} else {}
    }

    /** The incoming body can be read and stored. */
    ghost predicate Acceptable()
      reads this, counters
    {
      && !consumed && arrives && |body| <= maxBytes
      && (diskWorks || !(config.enabled && contentLength > 0 && contentLength >= config.threshold
                         && counters.usage + contentLength <= config.limit))
    }

    ghost function Serves(): Serving
      reads this, counters, Objects()
    {
      if storage.Some? then Stored(storage.value.Shown().data)
      else Unread(cached, if Acceptable() then Some(body) else None)
    }

    ghost predicate Valid()
      reads this, Objects()
    {
      storage.Some? ==>
        && storage.value.Valid() && storage.value.Object() != this && storage.value.Object() != counters
        && storage.value.Counting() == counters && !storage.value.Shown().closed
    }

    constructor (body: seq<byte>, arrives: bool, contentLength: int, maxBytes: nat, config: Config, diskWorks: bool,
                 counters: Counters)
      ensures Valid() && storage == None && cached == None && !consumed && !replayed
      ensures this.body == body && this.counters == counters && this.arrives == arrives && this.maxBytes == maxBytes
      ensures this.diskWorks == diskWorks && this.contentLength == contentLength && this.config == config
    {
      this.body, this.arrives, this.contentLength, this.maxBytes := body, arrives, contentLength, maxBytes;
      this.config, this.diskWorks, this.counters, cached := config, diskWorks, counters, None;
      storage, consumed, replayed := None, false, false;
    }

    ghost function Frame(): set<object>
      reads this
    {
      {this, counters} + Objects()
    }

    /** Every storage handed out stands at the start of the body the request serves. A stored
        body is always returned, whatever was cached since; otherwise the cached one is stored,
        otherwise the incoming one, refused exactly when it must be. */
    method GetRequestBody() returns (r: Created)
      requires Valid()
      modifies Frame()
      ensures Valid() && cached == old(cached) && replayed == old(replayed) && fresh(Frame() - old(Frame()))
      ensures Serves() == Obtain(old(Serves()))
      ensures r.Ok? <==> Serves().Stored?
      ensures r.Ok? ==> storage == Some(r.storage) && r.storage.Shown() == View(Serves().content, 0, false)
      ensures old(storage).Some? ==>
                r.Ok? && storage == old(storage) && r.storage.Shown() == View(old(storage.value.Shown()).data, 0, false)
      ensures old(storage).None? && old(cached).Some? ==> r.Ok? && r.storage.Shown() == View(old(cached).value, 0, false)
      ensures old(storage).None? && old(cached).None? ==>
                && (r.Ok? ==> r.storage.Shown() == View(body, 0, false))
                && (r.Ok? <==>
                    && !old(consumed) && arrives && |body| <= maxBytes
                    && (diskWorks || !(config.enabled && contentLength > 0 && contentLength >= config.threshold
                                       && old(counters.usage) + contentLength <= config.limit)))
    {
      if storage.Some? {
        var ok := storage.value.Rewind();
        return Ok(storage.value);
      }
      if cached.Some? {
        var s := CreateBodyStorage(cached.value, config, counters, diskWorks);
        storage := Some(s);
        return Ok(s);
      }
      r := CreateBodyStorageFromReader(body, arrives && !consumed, contentLength, maxBytes, config, counters, diskWorks);
      consumed := true;
      if r.Ok? {
        storage := Some(r.storage);
      }
    }

    /** After success the request's body is the storage, at its start; after a failed decoding
        the storage still holds the whole body. */
    method UnmarshalBodyReusable(json: bool, decoding: Decoding) returns (ok: bool)
      requires Valid()
      modifies Frame()
      ensures Valid() && cached == old(cached) && fresh(Frame() - old(Frame()))
      ensures Serves() == Obtain(old(Serves()))
      ensures old(storage).Some? ==> storage == old(storage)
      ensures ok <==> storage.Some? && decoding.succeeds
      ensures ok ==> replayed && storage.value.Shown() == View(Serves().content, 0, false)
      ensures !ok ==> replayed == old(replayed)
      ensures !ok && storage.Some? && !(json && storage.value.Disk?) ==> storage.value.Shown().pos == 0
    {
      var got := GetRequestBody();
      if !got.Ok? {
        return false;
      }
      var s := got.storage;
      if s.Disk? && json {
        var rewound := s.Rewind();
        var decoded := s.Read(decoding.taken);
        if !decoding.succeeds {
          return false;
        }
        rewound := s.Rewind();
        replayed := true;
        return true;
      }
      var bytes := s.Bytes();
      if !decoding.succeeds {
        return false;
      }
      var rewound := s.Rewind();
      replayed := true;
      ok := true;
    }

    /** A handler or the relay reading part of the stored body. */
    method ReadSome(n: nat) returns (r: Reply)
      requires Valid() && storage.Some?
      modifies Objects()
      ensures Valid() && Serves() == old(Serves())
      ensures (r, storage.value.Shown()) == ReadOf(storage.value.KindOf(), old(storage.value.Shown()), n)
    {
      r := storage.value.Read(n);
    }

    /** What the Kling and Jimeng adapters do with the body they converted. */
    method RewriteBody(replacement: seq<byte>)
      requires Valid()
      modifies this`cached, this`replayed
      ensures Valid() && cached == Some(replacement) && !replayed
      ensures Serves() == AfterCall(old(Serves()), Rewrite(replacement))
    {
      replayed := false;
      cached := Some(replacement);
    }

    /** Any calls, partial reads, failed or successful decodings and rewrites from any moment of
        a request, then one more request for the body. */
    method ServeRequest(calls: seq<Call>) returns (r: Created)
      requires Valid()
      modifies Frame()
      ensures Valid() && fresh(Frame() - old(Frame()))
      ensures Serves() == Obtain(AfterCalls(old(Serves()), calls))
      ensures r.Ok? <==> Serves().Stored?
      ensures r.Ok? ==> storage == Some(r.storage) && r.storage.Shown() == View(Serves().content, 0, false)
      ensures old(storage).None? && old(cached).None? && (forall k :: 0 <= k < |calls| ==> !calls[k].Rewrite?) ==>
                (r.Ok? <==> old(Acceptable())) && (r.Ok? ==> r.storage.Shown() == View(body, 0, false))
    {
      if forall k :: 0 <= k < |calls| ==> !calls[k].Rewrite? {
        FreshCalls(Serves(), calls);
      }
      for i := 0 to |calls|
        invariant Valid() && fresh(Frame() - old(Frame()))
        invariant Serves() == AfterCalls(old(Serves()), calls[..i])
      {
        assert calls[..i + 1][..i] == calls[..i];
        match calls[i] {
          case GetBody =>
            var got := GetRequestBody();
          case ReadBody(n) =>
            if storage.Some? {
              var reply := ReadSome(n);
            }
          case Unmarshal(json, decoding) =>
            var ok := UnmarshalBodyReusable(json, decoding);
          case Rewrite(replacement) =>
            RewriteBody(replacement);
        }
      }
      assert calls[..|calls|] == calls;
      r := GetRequestBody();
    }

    /** Closes the storage and releases what it counted, once. */
    method CleanupBodyStorage()
      requires Valid()
      modifies Frame()
      ensures storage.None? && cached == old(cached)
      ensures old(storage).None? ==> unchanged(counters)
      ensures old(storage).Some? ==> old(storage).value.Shown() == old(storage.value.Shown()).(closed := true)
      ensures old(storage).Some? && old(storage).value.Memory? ==>
                && counters.buffers == old(counters.buffers) - 1
                && counters.bufferBytes == old(counters.bufferBytes) - |old(Serves()).content|
      ensures old(storage).Some? && old(storage).value.Disk? ==>
                && counters.activeFiles == (if old(counters.activeFiles) < 1 then 0 else old(counters.activeFiles) - 1)
                && counters.usage == (if old(counters.usage) < |old(Serves()).content| then 0
                                      else old(counters.usage) - |old(Serves()).content|)
    {
      if storage.Some? {
        match storage.value {
          case Memory(m) => m.Close();
          case Disk(d) => d.Close();
        }
        storage := None;
      }
    }
  }
}
