/** Downloading from a peer, request by request, and from providers in turn. */
module FileTransfers {
  import opened Common
  import opened ChunkStores
  import opened StoreRuns

  datatype Request = MetadataRequest(fileHash: string) | ChunkRequest(chunkHash: string) | OtherRequest

  datatype Response = Record(meta: Metadata) | Data(bytes: Bytes) | Refused(error: string)

  /** handleTransfer: it reads the provider's store as it is at that moment. */
  function HandleTransfer(store: Disk, request: Request): Response {
    match request
    case MetadataRequest(h) => if h in store.meta then Record(store.meta[h]) else Refused("file not found")
    case ChunkRequest(h) => if h in store.chunks then Data(store.chunks[h]) else Refused("chunk not found")
    case OtherRequest => Refused("unknown request type")
  }

  /** A provider over a download: for each request in turn the store that answers
      it, or None if the request gets lost. Stores may change between requests. */
  type Provider = seq<Option<Disk>>

  function Ask(provider: Provider, i: nat, request: Request): Response {
    if i < |provider| && provider[i].Some? then HandleTransfer(provider[i].value, request) else Refused("stream")
  }

  /** The chunks of `cs` as the provider sends them from its request `i` on. */
  function Fetched(provider: Provider, i: nat, cs: seq<Chunk>): Option<Bytes>
    decreases |cs|
  {
    if cs == [] then Some([])
    else
      var before := Fetched(provider, i, cs[..|cs| - 1]);
      var answer := Ask(provider, i + |cs| - 1, ChunkRequest(cs[|cs| - 1].hash));
      if before.Some? && answer.Data? then Some(before.value + answer.bytes) else None
  }

  /** What a download of `h` from the provider yields; None when it fails. */
  function Downloaded(provider: Provider, h: string): Option<Bytes> {
    var answer := Ask(provider, 0, MetadataRequest(h));
    if answer.Record? then Fetched(provider, 1, answer.meta.chunks) else None
  }

  function FirstDownload(providers: seq<(string, Provider)>, self: string, h: string): Option<Bytes> {
    if providers == [] then None
    else if providers[0].0 != self && Downloaded(providers[0].1, h).Some? then Downloaded(providers[0].1, h)
    else FirstDownload(providers[1..], self, h)
  }

  /** What the service's Download yields: the local store decides alone once it
      knows the hash, even if it has lost a chunk that a provider could send. */
  function Served(local: Disk, providers: seq<(string, Provider)>, self: string, h: string): Option<Bytes> {
    if h in local.meta then Retrieved(local, h) else FirstDownload(providers, self, h)
  }

  class CloudService {
    const self: string
    const storage: FileStorage

    constructor (self: string, storage: FileStorage)
      ensures this.self == self && this.storage == storage
    {
      this.self, this.storage := self, storage;
    }

    /** handleTransfer's answer: from a sound store a chunk sent has the hash asked
        for, and a record sent describes a file of the hash asked for. */
    method Handle(request: Request) returns (response: Response)
      ensures response == HandleTransfer(storage.State(), request)
      ensures Sound(storage.State(), storage.hash) ==>
                && (request.ChunkRequest? && response.Data? ==> storage.hash(response.bytes) == request.chunkHash)
                && (request.MetadataRequest? && response.Record? ==>
                     Wellfounded(response.meta, request.fileHash, storage.hash))
    {
      match request
      case MetadataRequest(h) =>
        var m := storage.GetMetadata(h);
        response := if m.Some? then Record(m.value) else Refused("file not found");
      case ChunkRequest(h) =>
        var data := storage.GetChunk(h);
        response := if data.Some? then Data(data.value) else Refused("chunk not found");
      case OtherRequest =>
        response := Refused("unknown request type");
    }

    /** FileTransfer.Download: chunks go to a temporary file, which becomes the
        destination only when it is whole. */
    method DownloadFrom(provider: Provider, h: string, dest: string) returns (ok: bool)
      modifies storage`files
      ensures ok <==> Downloaded(provider, h).Some?
      ensures ok ==> storage.files == (old(storage.files) - {dest + ".tmp"})[dest := Downloaded(provider, h).value]
      ensures !ok ==> storage.files == if Ask(provider, 0, MetadataRequest(h)).Record?
                                       then old(storage.files) - {dest + ".tmp"} else old(storage.files)
    {
      var answer := Ask(provider, 0, MetadataRequest(h));
      if !answer.Record? {
        return false;
      }
      var cs, tmp := answer.meta.chunks, dest + ".tmp";
      storage.files := storage.files[tmp := []];
      for i := 0 to |cs|
        invariant Fetched(provider, 1, cs[..i]).Some?
        invariant storage.files == old(storage.files)[tmp := Fetched(provider, 1, cs[..i]).value]
      {
        assert cs[..i + 1][..i] == cs[..i];
        var reply := Ask(provider, 1 + i, ChunkRequest(cs[i].hash));
        if !reply.Data? {
          storage.files := storage.files - {tmp};
          FetchFails(provider, 1, cs, i + 1);
          assert storage.files == old(storage.files) - {tmp};
          return false;
        }
        storage.files := storage.files[tmp := storage.files[tmp] + reply.bytes];
      }
      assert cs[..|cs|] == cs;
      var data := storage.files[tmp];
      storage.files := (storage.files - {tmp})[dest := data];
      assert storage.files == (old(storage.files) - {tmp})[dest := data];
      return true;
    }

    /** The local store if it knows the hash, else the providers in turn. */
    method Download(providers: seq<(string, Provider)>, h: string, dest: string) returns (ok: bool)
      modifies storage`files
      ensures ok <==> Served(storage.State(), providers, self, h).Some?
      ensures var before, m := old(storage.files), storage.meta;
              && (ok && h in m ==> storage.files == before[dest := Served(storage.State(), providers, self, h).value])
              && (ok && h !in m ==>
                   storage.files == (before - {dest + ".tmp"})[dest := FirstDownload(providers, self, h).value])
              && (!ok && h in m ==> storage.files == before[dest := Assemble(storage.chunks, m[h].chunks).data])
              && (!ok && h !in m ==> storage.files == before || storage.files == before - {dest + ".tmp"})
    {
      var local := storage.Exists(h);
      if local {
        ok := storage.Retrieve(h, dest);
        return;
      }
      for i := 0 to |providers|
        invariant FirstDownload(providers, self, h) == FirstDownload(providers[i..], self, h)
        invariant storage.files == old(storage.files) || storage.files == old(storage.files) - {dest + ".tmp"}
      {
        if providers[i].0 != self {
          var done := DownloadFrom(providers[i].1, h, dest);
          if done {
            return true;
          }
        }
      }
      return false;
    }
  }

  lemma {:induction false} FetchFails(provider: Provider, i: nat, cs: seq<Chunk>, n: nat)
    requires n <= |cs| && Fetched(provider, i, cs[..n]).None?
    ensures Fetched(provider, i, cs).None?
    decreases |cs|
  {
    if n < |cs| {
      assert cs[..|cs| - 1][..n] == cs[..n];
      FetchFails(provider, i, cs[..|cs| - 1], n);
    } else {
      assert cs[..n] == cs;
    }
  }

  // ---------- what a download can yield ----------

  /** The provider runs this code: whatever else happens to its store between the
      requests, each is answered from a sound state. */
  ghost predicate Honest(provider: Provider, hash: Hasher) {
    forall i :: 0 <= i < |provider| && provider[i].Some? ==> Sound(provider[i].value, hash)
  }

  /** An honest answer under a piece's hash is that piece. */
  lemma ChunkAnswer(provider: Provider, i: nat, piece: Bytes, hash: Hasher)
    requires Injective(hash) && Honest(provider, hash)
    ensures var answer := Ask(provider, i, ChunkRequest(hash(piece)));
            answer.Data? ==> answer.bytes == piece
  {
  }

  lemma {:induction false} FetchedPieces(provider: Provider, i: nat, pieces: seq<Bytes>, hash: Hasher)
    requires Injective(hash) && Honest(provider, hash)
    requires Fetched(provider, i, Described(pieces, hash)).Some?
    ensures Fetched(provider, i, Described(pieces, hash)) == Some(Concat(pieces))
    decreases |pieces|
  {
    if pieces != [] {
      var before, last := pieces[..|pieces| - 1], pieces[|pieces| - 1];
      assert Described(pieces, hash)[..|pieces| - 1] == Described(before, hash);
      FetchedPieces(provider, i, before, hash);
      ChunkAnswer(provider, i + |pieces| - 1, last, hash);
      hide Ask;
      assert pieces == before + [last];
      ConcatSnoc(before, last);
    }
  }

  /** A download from a node running this code, its Stores and Deletes between the
      requests included, fails or yields exactly the bytes whose hash was asked for. */
  lemma DownloadNeverWrong(provider: Provider, file: Bytes, hash: Hasher)
    requires Injective(hash) && Honest(provider, hash)
    ensures var r := Downloaded(provider, hash(file)); r == None || r == Some(file)
  {
    var h := hash(file);
    if Downloaded(provider, h).Some? {
      var m := provider[0].value.meta[h];
      var pieces: seq<Bytes> :| Describes(m, h, pieces, hash);
      FetchedPieces(provider, 1, pieces, hash);
    }
  }

  lemma {:induction false} FirstDownloadNeverWrong(providers: seq<(string, Provider)>, self: string,
                                                   file: Bytes, hash: Hasher)
    requires Injective(hash) && forall i :: 0 <= i < |providers| ==> Honest(providers[i].1, hash)
    ensures var r := FirstDownload(providers, self, hash(file)); r == None || r == Some(file)
  {
    if providers != [] {
      DownloadNeverWrong(providers[0].1, file, hash);
      FirstDownloadNeverWrong(providers[1..], self, file, hash);
    }
  }

  /** From its own sound store or from providers running this code, the service
      serves no bytes but those whose hash was asked for. */
  lemma ServiceNeverWrong(local: Disk, providers: seq<(string, Provider)>, self: string, file: Bytes, hash: Hasher)
    requires Injective(hash) && Sound(local, hash)
    requires forall i :: 0 <= i < |providers| ==> Honest(providers[i].1, hash)
    ensures var r := Served(local, providers, self, hash(file)); r == None || r == Some(file)
  {
    RetrieveIsRight(local, hash(file), hash);
    FirstDownloadNeverWrong(providers, self, file, hash);
  }

  /** It is the earliest provider, other than the node itself, whose download succeeds. */
  lemma {:induction false} FirstDownloadIsEarliest(providers: seq<(string, Provider)>, self: string, h: string)
      returns (i: nat)
    ensures i <= |providers|
    ensures forall j :: 0 <= j < i ==> providers[j].0 == self || Downloaded(providers[j].1, h).None?
    ensures i < |providers| ==>
              && providers[i].0 != self && Downloaded(providers[i].1, h).Some?
              && FirstDownload(providers, self, h) == Downloaded(providers[i].1, h)
    ensures i == |providers| ==> FirstDownload(providers, self, h) == None
  {
    if providers == [] || (providers[0].0 != self && Downloaded(providers[0].1, h).Some?) {
      i := 0;
    } else {
      var k := FirstDownloadIsEarliest(providers[1..], self, h);
      i := k + 1;
      assert forall j :: 0 < j < i ==> providers[j] == providers[1..][j - 1];
    }
  }

  lemma {:induction false} SomeProviderServes(providers: seq<(string, Provider)>, self: string, h: string, i: nat)
    requires i < |providers| && providers[i].0 != self && Downloaded(providers[i].1, h).Some?
    ensures FirstDownload(providers, self, h).Some?
  {
    if i > 0 {
      SomeProviderServes(providers[1..], self, h, i - 1);
    }
  }

  /** When another node can send the file, the service serves it if and only if the
      local store has no record of it, or has it whole: a record that has lost a
      chunk makes the service fail however many providers there are. */
  lemma ServedIff(local: Disk, providers: seq<(string, Provider)>, self: string, i: nat, file: Bytes, hash: Hasher)
    requires Injective(hash) && Sound(local, hash)
    requires forall i :: 0 <= i < |providers| ==> Honest(providers[i].1, hash)
    requires i < |providers| && providers[i].0 != self && Downloaded(providers[i].1, hash(file)).Some?
    ensures Served(local, providers, self, hash(file)) == Some(file) <==>
            hash(file) !in local.meta || Complete(local, hash(file))
  {
    SomeProviderServes(providers, self, hash(file), i);
    ServiceNeverWrong(local, providers, self, file, hash);
    RetrieveIsRight(local, hash(file), hash);
  }

  /** So it fails for good, whoever could send the file, once it has deleted another
      file that started with the same chunk. */
  lemma ServiceStuckAfterDelete(x: Bytes, a: Bytes, b: Bytes, providers: seq<(string, Provider)>, self: string,
                                hash: Hasher)
    requires Injective(hash) && a != b
    requires 1 <= |x| <= CHUNK_SIZE && 1 <= |a| <= CHUNK_SIZE && 1 <= |b| <= CHUNK_SIZE
    ensures var ops := TwoStores(x, a, b) + [Op.Delete(hash(x + a), 3, {})];
            && (forall i :: 0 <= i < |ops| ==> Possible(ops[i]))
            && Served(Run(EMPTY, ops[..2], hash), providers, self, hash(x + b)) == Some(x + b)
            && Served(Run(EMPTY, ops, hash), providers, self, hash(x + b)) == None
  {
    var ops := TwoStores(x, a, b) + [Op.Delete(hash(x + a), 3, {})];
    DeleteBreaksSharedFile(x, a, b, hash);
    RunIsSound(ops, hash);
    RunIsSound(ops[..2], hash);
    RetrieveIsRight(Run(EMPTY, ops, hash), hash(x + b), hash);
    RetrieveIsRight(Run(EMPTY, ops[..2], hash), hash(x + b), hash);
  }

  /** The provider answers request `j` and then has this chunk. */
  predicate HasAt(provider: Provider, j: nat, c: Chunk) {
    j < |provider| && provider[j].Some? && c.hash in provider[j].value.chunks
  }

  /** It has each chunk of `cs` when asked for it, from request `i` on. */
  predicate HasEach(provider: Provider, i: nat, cs: seq<Chunk>) {
    forall k :: 0 <= k < |cs| ==> HasAt(provider, i + k, cs[k])
  }

  lemma {:induction false} FetchedIff(provider: Provider, i: nat, cs: seq<Chunk>)
    ensures Fetched(provider, i, cs).Some? <==> HasEach(provider, i, cs)
    decreases |cs|
  {
    if cs != [] {
      var before := cs[..|cs| - 1];
      FetchedIff(provider, i, before);
      assert forall k :: 0 <= k < |before| ==> before[k] == cs[k];
      assert HasEach(provider, i, cs) <==>
             HasEach(provider, i, before) && HasAt(provider, i + |cs| - 1, cs[|cs| - 1]);
    }
  }

  /** Whatever happens to its store meanwhile, a node running this code serves a file
      if and only if it has the record when asked for it, and each chunk when asked
      for that. */
  lemma DownloadedIff(provider: Provider, file: Bytes, hash: Hasher)
    requires Injective(hash) && Honest(provider, hash)
    ensures Downloaded(provider, hash(file)) == Some(file) <==>
            && provider != [] && provider[0].Some? && hash(file) in provider[0].value.meta
            && HasEach(provider, 1, provider[0].value.meta[hash(file)].chunks)
  {
    DownloadNeverWrong(provider, file, hash);
    var answer := Ask(provider, 0, MetadataRequest(hash(file)));
    if answer.Record? {
      FetchedIff(provider, 1, answer.meta.chunks);
    }
  }

  /** The provider answers the requests, in order, from the states that its store goes
      through from `s` on, the first from `s` itself; `at` says how far it is by then. */
  ghost predicate Follows(provider: Provider, s: Disk, ops: seq<Op>, at: seq<nat>, hash: Hasher)
    requires forall i :: 0 <= i < |ops| ==> Possible(ops[i])
  {
    && 0 < |provider| == |at| && at[0] == 0
    && (forall i, j :: 0 <= i <= j < |at| ==> at[i] <= at[j] <= |ops|)
    && (forall i :: 0 <= i < |provider| ==> at[i] <= |ops| && provider[i] == Some(Run(s, ops[..at[i]], hash)))
  }

  /** Between two stores the round trip holds too: what one node stored, another
      downloads, while the first goes on with any Stores and any Deletes that take no
      chunk of it. */
  lemma StoreDownloadRoundTrip(s: Disk, file: Bytes, ops: seq<Op>, at: seq<nat>, provider: Provider, hash: Hasher)
    requires Injective(hash) && Sound(s, hash) && Complete(s, hash(file))
    requires forall i :: 0 <= i < |ops| ==> Possible(ops[i])
    requires LeavesChunks(s, ops, hash, HashesOf(s.meta[hash(file)].chunks))
    requires Follows(provider, s, ops, at, hash) && |provider| > |s.meta[hash(file)].chunks|
    ensures Downloaded(provider, hash(file)) == Some(file)
  {
    var cs := s.meta[hash(file)].chunks;
    assert ops[..0] == [];
    forall i | 0 <= i < |provider|
      ensures provider[i].Some? && Sound(provider[i].value, hash) && HashesOf(cs) <= provider[i].value.chunks.Keys
    {
      LeftChunksStay(s, ops, at[i], hash, HashesOf(cs));
    }
    assert provider[0] == Some(s);
    forall k | 0 <= k < |cs| ensures HasAt(provider, 1 + k, cs[k]) {
      assert cs[k].hash in HashesOf(cs);
    }
    DownloadedIff(provider, file, hash);
  }

  /** The receiver checks nothing itself: a node not running this code can make a
      download yield any bytes at all for any hash. */
  lemma DownloadTrustsProvider(h: string, anything: Bytes)
    ensures exists provider: Provider :: Downloaded(provider, h) == Some(anything)
  {
    var c := Chunk(0, "c", 0);
    var s := Disk(map["c" := anything], map[h := Metadata(h, "", 0, 1, [c])]);
    var provider: Provider := [Some(s), Some(s)];
    assert [c][..0] == [];
    assert Fetched(provider, 1, []) == Some([]);
    assert Fetched(provider, 1, [c]) == Some([] + anything);
    assert [] + anything == anything;
    assert Downloaded(provider, h) == Some(anything);
  }
}
