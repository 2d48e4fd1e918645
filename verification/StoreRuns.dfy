/** What every state reachable by Store and Delete guarantees. */
module StoreRuns {
  import opened Common
  import opened ChunkStores

  /** The record lists, in order, the hashes and sizes of pieces that make up a
      file whose hash is `h`. */
  ghost predicate Describes(m: Metadata, h: string, pieces: seq<Bytes>, hash: Hasher) {
    && m.hash == h == hash(Concat(pieces)) && m.chunks == Described(pieces, hash)
    && m.chunkCount == |pieces| && m.size == |Concat(pieces)|
    && (forall i :: 0 <= i < |pieces| ==> 1 <= |pieces[i]| <= CHUNK_SIZE)
  }

  ghost predicate Wellfounded(m: Metadata, h: string, hash: Hasher) {
    exists pieces: seq<Bytes> :: Describes(m, h, pieces, hash)
  }

  /** Every chunk file has its content's hash for a name, and every metadata file
      describes a file of that hash. */
  ghost predicate Sound(s: Disk, hash: Hasher) {
    && (forall h :: h in s.chunks ==> hash(s.chunks[h]) == h)
    && (forall h :: h in s.meta ==> Wellfounded(s.meta[h], h, hash))
  }

  /** All the file's chunks are there. */
  predicate Complete(s: Disk, h: string) {
    h in s.meta && forall c :: c in s.meta[h].chunks ==> c.hash in s.chunks
  }

  // ---------- pieces ----------

  lemma {:induction false} PiecesConcat(file: Bytes, sizes: seq<nat>)
    requires ReadsOf(sizes, |file|)
    ensures Concat(Pieces(file, sizes)) == file
    ensures forall i :: 0 <= i < |sizes| ==> 1 <= |Pieces(file, sizes)[i]| <= CHUNK_SIZE
  {
    if sizes != [] {
      PiecesConcat(file[sizes[0]..], sizes[1..]);
      assert Pieces(file, sizes)[1..] == Pieces(file[sizes[0]..], sizes[1..]);
      assert file == file[..sizes[0]] + file[sizes[0]..];
    }
  }

  lemma {:induction false} ConcatSnoc(pieces: seq<Bytes>, last: Bytes)
    ensures Concat(pieces + [last]) == Concat(pieces) + last
  {
    if pieces == [] {
      assert [] + [last] == [last];
    } else {
      assert (pieces + [last])[1..] == pieces[1..] + [last];
      ConcatSnoc(pieces[1..], last);
    }
  }

  lemma {:induction false} WithChunksHolds(chunks: map<string, Bytes>, pieces: seq<Bytes>, hash: Hasher)
    ensures forall h :: h in chunks ==> h in WithChunks(chunks, pieces, hash)
    ensures forall i :: 0 <= i < |pieces| ==> hash(pieces[i]) in WithChunks(chunks, pieces, hash)
    ensures (forall h :: h in chunks ==> hash(chunks[h]) == h) ==>
              forall h :: h in WithChunks(chunks, pieces, hash) ==> hash(WithChunks(chunks, pieces, hash)[h]) == h
    decreases |pieces|
  {
    if pieces != [] {
      WithChunksHolds(chunks, pieces[..|pieces| - 1], hash);
    }
  }

  /** Recorded chunk sizes sum to the file size and indices are consecutive. */
  function SizeSum(cs: seq<Chunk>): nat {
    if cs == [] then 0 else SizeSum(cs[..|cs| - 1]) + cs[|cs| - 1].size
  }

  lemma {:induction false} SizesAddUp(pieces: seq<Bytes>, hash: Hasher)
    ensures SizeSum(Described(pieces, hash)) == |Concat(pieces)|
    decreases |pieces|
  {
    if pieces != [] {
      var before := pieces[..|pieces| - 1];
      SizesAddUp(before, hash);
      assert Described(pieces, hash)[..|pieces| - 1] == Described(before, hash);
      assert pieces == before + [pieces[|pieces| - 1]];
      ConcatSnoc(before, pieces[|pieces| - 1]);
    }
  }

  lemma RecordAddsUp(s: Disk, h: string, hash: Hasher)
    requires Sound(s, hash) && h in s.meta
    ensures var m := s.meta[h];
            && SizeSum(m.chunks) == m.size && |m.chunks| == m.chunkCount
            && forall i :: 0 <= i < |m.chunks| ==>
                 m.chunks[i].index == i && 1 <= m.chunks[i].size <= 256 * 1024
  {
    var pieces: seq<Bytes> :| Describes(s.meta[h], h, pieces, hash);
    SizesAddUp(pieces, hash);
  }

  // ---------- soundness of every reachable state ----------

  lemma StoreKeepsSound(s: Disk, file: Bytes, name: string, sizes: seq<nat>, stop: nat, hash: Hasher)
    requires Sound(s, hash) && ReadsOf(sizes, |file|)
    ensures Sound(AfterStore(s, file, name, sizes, stop, hash), hash)
  {
    var pieces := Pieces(file, sizes);
    PiecesConcat(file, sizes);
    WithChunksHolds(s.chunks, if stop < |pieces| then pieces[..stop] else pieces, hash);
    assert Describes(MetadataOf(file, name, pieces, hash), hash(file), pieces, hash);
  }

  lemma DeleteKeepsSound(s: Disk, h: string, stop: nat, stuck: set<string>, hash: Hasher)
    requires Sound(s, hash)
    ensures Sound(AfterDelete(s, h, stop, stuck), hash)
  {
  }

  /** Each may be stopped by an error, or be caught by a request from another node,
      between any two of its file operations. */
  datatype Op =
    | Store(file: Bytes, name: string, sizes: seq<nat>, stop: nat)
    | Delete(h: string, stop: nat, stuck: set<string>)

  ghost predicate Possible(op: Op) { op.Store? ==> ReadsOf(op.sizes, |op.file|) }

  ghost function Step(s: Disk, op: Op, hash: Hasher): Disk
    requires Possible(op)
  {
    match op
    case Store(file, name, sizes, stop) => AfterStore(s, file, name, sizes, stop, hash)
    case Delete(h, stop, stuck) => AfterDelete(s, h, stop, stuck)
  }

  ghost function Run(s: Disk, ops: seq<Op>, hash: Hasher): Disk
    requires forall i :: 0 <= i < |ops| ==> Possible(ops[i])
    decreases |ops|
  {
    if ops == [] then s else Step(Run(s, ops[..|ops| - 1], hash), ops[|ops| - 1], hash)
  }

  const EMPTY: Disk := Disk(map[], map[])

  lemma {:induction false} RunIsSound(ops: seq<Op>, hash: Hasher)
    requires forall i :: 0 <= i < |ops| ==> Possible(ops[i])
    ensures Sound(Run(EMPTY, ops, hash), hash)
    decreases |ops|
  {
    if ops != [] {
      var before, op := ops[..|ops| - 1], ops[|ops| - 1];
      RunIsSound(before, hash);
      match op
      case Store(file, name, sizes, stop) => StoreKeepsSound(Run(EMPTY, before, hash), file, name, sizes, stop, hash);
      case Delete(h, stop, stuck) => DeleteKeepsSound(Run(EMPTY, before, hash), h, stop, stuck, hash);
    }
  }

  // ---------- retrieving ----------

  lemma {:induction false} AssembleComplete(chunks: map<string, Bytes>, cs: seq<Chunk>)
    ensures Assemble(chunks, cs).Whole? <==> forall c :: c in cs ==> c.hash in chunks
    decreases |cs|
  {
    if cs != [] {
      AssembleComplete(chunks, cs[..|cs| - 1]);
      assert cs == cs[..|cs| - 1] + [cs[|cs| - 1]];
    }
  }

  /** Assembling takes the chunks' bytes in order, up to the first one that is missing,
      and comes out whole if none is. */
  lemma {:induction false} AssembleStops(chunks: map<string, Bytes>, cs: seq<Chunk>) returns (pieces: seq<Bytes>)
    ensures |pieces| <= |cs|
    ensures forall i :: 0 <= i < |pieces| ==> cs[i].hash in chunks && pieces[i] == chunks[cs[i].hash]
    ensures |pieces| < |cs| ==> cs[|pieces|].hash !in chunks
    ensures Assemble(chunks, cs) == if |pieces| == |cs| then Whole(Concat(pieces)) else Broken(Concat(pieces))
    decreases |cs|
  {
    if cs == [] {
      pieces := [];
    } else {
      pieces := AssembleStops(chunks, cs[..|cs| - 1]);
      if |pieces| == |cs| - 1 && cs[|cs| - 1].hash in chunks {
        ConcatSnoc(pieces, chunks[cs[|cs| - 1].hash]);
        pieces := pieces + [chunks[cs[|cs| - 1].hash]];
      }
    }
  }

  /** Chunk files with the right hashes assemble to the very pieces described. */
  lemma {:induction false} AssemblePieces(chunks: map<string, Bytes>, pieces: seq<Bytes>, hash: Hasher)
    requires Injective(hash) && forall h :: h in chunks ==> hash(chunks[h]) == h
    requires Assemble(chunks, Described(pieces, hash)).Whole?
    ensures Assemble(chunks, Described(pieces, hash)).data == Concat(pieces)
    decreases |pieces|
  {
    if pieces != [] {
      var before, last := pieces[..|pieces| - 1], pieces[|pieces| - 1];
      assert Described(pieces, hash)[..|pieces| - 1] == Described(before, hash);
      AssemblePieces(chunks, before, hash);
      assert chunks[hash(last)] == last;
      assert pieces == before + [last];
      ConcatSnoc(before, last);
    }
  }

  /** In a sound state Retrieve succeeds exactly when the record and all its
      chunks are there, and then yields the bytes whose hash was asked for. */
  lemma RetrieveIsRight(s: Disk, h: string, hash: Hasher)
    requires Injective(hash) && Sound(s, hash)
    ensures Retrieved(s, h).Some? <==> Complete(s, h)
    ensures Retrieved(s, h).Some? ==> hash(Retrieved(s, h).value) == h
  {
    if h in s.meta {
      AssembleComplete(s.chunks, s.meta[h].chunks);
      if Retrieved(s, h).Some? {
        var pieces: seq<Bytes> :| Describes(s.meta[h], h, pieces, hash);
        AssemblePieces(s.chunks, pieces, hash);
      }
    }
  }

  /** In every state reachable by Stores and Deletes, interrupted ones and ones that
      took chunks other files share included, Retrieve fails or yields exactly the
      bytes whose hash was asked for. */
  lemma NeverWrongBytes(ops: seq<Op>, file: Bytes, hash: Hasher)
    requires Injective(hash) && forall i :: 0 <= i < |ops| ==> Possible(ops[i])
    ensures var r := Retrieved(Run(EMPTY, ops, hash), hash(file)); r == None || r == Some(file)
  {
    RunIsSound(ops, hash);
    RetrieveIsRight(Run(EMPTY, ops, hash), hash(file), hash);
  }

  // ---------- files stay retrievable ----------

  /** A Store, however it ends, leaves every complete file complete. */
  lemma StoreKeepsComplete(s: Disk, file: Bytes, name: string, sizes: seq<nat>, stop: nat, hash: Hasher, h: string)
    requires ReadsOf(sizes, |file|) && Complete(s, h)
    ensures Complete(AfterStore(s, file, name, sizes, stop, hash), h)
  {
    var pieces := Pieces(file, sizes);
    WithChunksHolds(s.chunks, if stop < |pieces| then pieces[..stop] else pieces, hash);
  }

  lemma StoreCompletes(s: Disk, file: Bytes, name: string, sizes: seq<nat>, stop: nat, hash: Hasher)
    requires ReadsOf(sizes, |file|) && stop > |sizes|
    ensures Complete(AfterStore(s, file, name, sizes, stop, hash), hash(file))
  {
    WithChunksHolds(s.chunks, Pieces(file, sizes), hash);
  }

  /** Started where every known hash is retrievable, a Store that is stopped
      between any two of its writes leaves every known hash retrievable. */
  lemma InterruptedStoreIsSafe(s: Disk, file: Bytes, name: string, sizes: seq<nat>, stop: nat, hash: Hasher)
    requires Injective(hash) && Sound(s, hash) && ReadsOf(sizes, |file|)
    requires forall h :: h in s.meta ==> Retrieved(s, h).Some?
    ensures var t := AfterStore(s, file, name, sizes, stop, hash);
            forall h :: h in t.meta ==> Retrieved(t, h).Some?
  {
    var t := AfterStore(s, file, name, sizes, stop, hash);
    StoreKeepsSound(s, file, name, sizes, stop, hash);
    forall h | h in t.meta ensures Retrieved(t, h).Some? {
      RetrieveIsRight(t, h, hash);
      if h in s.meta {
        RetrieveIsRight(s, h, hash);
        StoreKeepsComplete(s, file, name, sizes, stop, hash, h);
      } else {
        StoreCompletes(s, file, name, sizes, stop, hash);
      }
    }
  }

  /** A Delete, however far it comes, leaves a complete file complete if and only if
      it does not take that file's record and takes none of its chunks. */
  lemma DeleteKeepsCompleteIff(s: Disk, gone: string, stop: nat, stuck: set<string>, h: string)
    requires Complete(s, h)
    ensures Complete(AfterDelete(s, gone, stop, stuck), h) <==>
            && (gone == h ==> stop <= |s.meta[h].chunks|)
            && Taken(s, gone, stop, stuck) !! HashesOf(s.meta[h].chunks)
  {
    var t := AfterDelete(s, gone, stop, stuck);
    if h in t.meta {
      if Complete(t, h) {
        forall c | c in s.meta[h].chunks ensures c.hash !in Taken(s, gone, stop, stuck) {
          assert c.hash in t.chunks;
        }
      } else {
        var c :| c in s.meta[h].chunks && c.hash !in t.chunks;
        assert c.hash in HashesOf(s.meta[h].chunks);
      }
    }
  }

  /** Two files that start with the same chunk, stored one after the other. */
  function TwoStores(x: Bytes, a: Bytes, b: Bytes): seq<Op> {
    [Op.Store(x + a, "a", [|x|, |a|], 3), Op.Store(x + b, "b", [|x|, |b|], 3)]
  }

  lemma TwoPieces(x: Bytes, a: Bytes)
    requires 1 <= |x| <= CHUNK_SIZE && 1 <= |a| <= CHUNK_SIZE
    ensures ReadsOf([|x|, |a|], |x + a|) && Pieces(x + a, [|x|, |a|]) == [x, a]
  {
    var sizes := [|x|, |a|];
    assert sizes[1..] == [|a|] && [|a|][1..] == [];
    assert ReadsOf([|a|], |a|);
    assert (x + a)[..|x|] == x && (x + a)[|x|..] == a && a[..|a|] == a;
    assert Pieces(a, [|a|]) == [a];
  }

  lemma TwoStoresRun(x: Bytes, a: Bytes, b: Bytes, hash: Hasher)
    requires Injective(hash) && a != b
    requires 1 <= |x| <= CHUNK_SIZE && 1 <= |a| <= CHUNK_SIZE && 1 <= |b| <= CHUNK_SIZE
    ensures var two := TwoStores(x, a, b);
            && (forall i :: 0 <= i < |two| ==> Possible(two[i]))
            && var s := Run(EMPTY, two, hash);
               && hash(x + a) != hash(x + b) && hash(x + a) in s.meta && Complete(s, hash(x + b))
               && s.meta[hash(x + a)].chunks == Described([x, a], hash)
               && s.meta[hash(x + b)].chunks == Described([x, b], hash)
  {
    var two := TwoStores(x, a, b);
    TwoPieces(x, a);
    TwoPieces(x, b);
    assert (x + a)[|x|..] == a && (x + b)[|x|..] == b;
    assert two[..1] == [two[0]] && two[..1][..0] == [];
    var s1 := AfterStore(EMPTY, x + a, "a", [|x|, |a|], 3, hash);
    assert Run(EMPTY, two[..1], hash) == s1;
    StoreCompletes(s1, x + b, "b", [|x|, |b|], 3, hash);
  }

  /** Deleting the one then leaves the other's record and takes its first chunk,
      whatever the two files are. */
  lemma DeleteBreaksSharedFile(x: Bytes, a: Bytes, b: Bytes, hash: Hasher)
    requires Injective(hash) && a != b
    requires 1 <= |x| <= CHUNK_SIZE && 1 <= |a| <= CHUNK_SIZE && 1 <= |b| <= CHUNK_SIZE
    ensures var ops := TwoStores(x, a, b) + [Op.Delete(hash(x + a), 3, {})];
            && (forall i :: 0 <= i < |ops| ==> Possible(ops[i]))
            && Complete(Run(EMPTY, ops[..2], hash), hash(x + b))
            && hash(x + b) in Run(EMPTY, ops, hash).meta
            && !Complete(Run(EMPTY, ops, hash), hash(x + b))
  {
    var two, gone, kept := TwoStores(x, a, b), hash(x + a), hash(x + b);
    var ops := two + [Op.Delete(gone, 3, {})];
    assert ops[..2] == two;
    TwoStoresRun(x, a, b, hash);
    hide TwoStores, AfterStore, Complete, ReadsOf, Pieces;
    var s := Run(EMPTY, two, hash);
    assert Run(EMPTY, ops, hash) == AfterDelete(s, gone, 3, {});
    assert Described([x, a], hash)[0] in s.meta[gone].chunks && Described([x, b], hash)[0] in s.meta[kept].chunks;
    assert hash(x) in Taken(s, gone, 3, {}) && hash(x) in HashesOf(s.meta[kept].chunks);
    DeleteKeepsCompleteIff(s, gone, 3, {}, kept);
  }

  /** The Deletes of a run spare the file: each, when it comes, takes neither its
      record nor a chunk of it. */
  ghost predicate Spares(s: Disk, ops: seq<Op>, hash: Hasher, h: string)
    requires forall i :: 0 <= i < |ops| ==> Possible(ops[i])
    decreases |ops|
  {
    ops == [] || (
      var before, op := Run(s, ops[..|ops| - 1], hash), ops[|ops| - 1];
      && Spares(s, ops[..|ops| - 1], hash, h)
      && (op.Delete? && h in before.meta ==>
            && (op.h == h ==> op.stop <= |before.meta[h].chunks|)
            && Taken(before, op.h, op.stop, op.stuck) !! HashesOf(before.meta[h].chunks)))
  }

  lemma {:induction false} SparedStaysComplete(s: Disk, ops: seq<Op>, hash: Hasher, h: string)
    requires forall i :: 0 <= i < |ops| ==> Possible(ops[i])
    requires Injective(hash) && Sound(s, hash) && Complete(s, h) && Spares(s, ops, hash, h)
    ensures Sound(Run(s, ops, hash), hash) && Complete(Run(s, ops, hash), h)
    decreases |ops|
  {
    if ops != [] {
      var op, before := ops[|ops| - 1], Run(s, ops[..|ops| - 1], hash);
      SparedStaysComplete(s, ops[..|ops| - 1], hash, h);
      match op
      case Store(file, name, sizes, stop) =>
        StoreKeepsSound(before, file, name, sizes, stop, hash);
        StoreKeepsComplete(before, file, name, sizes, stop, hash, h);
      case Delete(gone, stop, stuck) =>
        DeleteKeepsSound(before, gone, stop, stuck, hash);
        DeleteKeepsCompleteIff(before, gone, stop, stuck, h);
    }
  }

  /** Some Store of a file with hash `h` came to its end. */
  ghost predicate StoredWhole(ops: seq<Op>, h: string, hash: Hasher) {
    exists i :: 0 <= i < |ops| && ops[i].Store? && hash(ops[i].file) == h && ops[i].stop > |ops[i].sizes|
  }

  /** After Stores alone, interrupted ones included, Exists tells a hash if and only
      if a Store of it came to its end, and then Retrieve succeeds. */
  lemma {:induction false} ExistsMeansRetrievable(ops: seq<Op>, h: string, hash: Hasher)
    requires Injective(hash) && forall i :: 0 <= i < |ops| ==> Possible(ops[i]) && ops[i].Store?
    ensures var s := Run(EMPTY, ops, hash);
            && (h in s.meta <==> StoredWhole(ops, h, hash))
            && (h in s.meta <==> Retrieved(s, h).Some?)
    decreases |ops|
  {
    if ops != [] {
      var before, op := ops[..|ops| - 1], ops[|ops| - 1];
      var s := Run(EMPTY, before, hash);
      ExistsMeansRetrievable(before, h, hash);
      assert ops == before + [op];
      assert StoredWhole(ops, h, hash) <==>
             StoredWhole(before, h, hash) || (hash(op.file) == h && op.stop > |op.sizes|) by {
        if StoredWhole(before, h, hash) {
          var i :| 0 <= i < |before| && hash(before[i].file) == h && before[i].stop > |before[i].sizes|;
          assert ops[i] == before[i];
        }
        if hash(op.file) == h && op.stop > |op.sizes| {
          assert ops[|ops| - 1] == op;
        }
      }
      RunIsSound(before, hash);
      RetrieveIsRight(s, h, hash);
      StoreKeepsSound(s, op.file, op.name, op.sizes, op.stop, hash);
      RetrieveIsRight(Run(EMPTY, ops, hash), h, hash);
      if h in s.meta {
        StoreKeepsComplete(s, op.file, op.name, op.sizes, op.stop, hash, h);
      } else if op.stop > |op.sizes| {
        StoreCompletes(s, op.file, op.name, op.sizes, op.stop, hash);
      }
    }
  }

  /** No Delete of the run takes a chunk named here. */
  ghost predicate LeavesChunks(s: Disk, ops: seq<Op>, hash: Hasher, names: set<string>)
    requires forall i :: 0 <= i < |ops| ==> Possible(ops[i])
    decreases |ops|
  {
    ops == [] || (
      var before, op := ops[..|ops| - 1], ops[|ops| - 1];
      && LeavesChunks(s, before, hash, names)
      && (op.Delete? ==> Taken(Run(s, before, hash), op.h, op.stop, op.stuck) !! names))
  }

  lemma LeftChunksStep(s: Disk, op: Op, hash: Hasher, names: set<string>)
    requires Possible(op) && Sound(s, hash) && names <= s.chunks.Keys
    requires op.Delete? ==> Taken(s, op.h, op.stop, op.stuck) !! names
    ensures Sound(Step(s, op, hash), hash) && names <= Step(s, op, hash).chunks.Keys
  {
    match op
    case Store(file, name, sizes, stop) =>
      var pieces := Pieces(file, sizes);
      StoreKeepsSound(s, file, name, sizes, stop, hash);
      WithChunksHolds(s.chunks, if stop < |pieces| then pieces[..stop] else pieces, hash);
    case Delete(gone, stop, stuck) =>
      DeleteKeepsSound(s, gone, stop, stuck, hash);
  }

  lemma {:induction false} LeftChunksStay(s: Disk, ops: seq<Op>, n: nat, hash: Hasher, names: set<string>)
    requires forall i :: 0 <= i < |ops| ==> Possible(ops[i])
    requires Sound(s, hash) && names <= s.chunks.Keys && n <= |ops| && LeavesChunks(s, ops, hash, names)
    ensures Sound(Run(s, ops[..n], hash), hash) && names <= Run(s, ops[..n], hash).chunks.Keys
    decreases |ops|
  {
    hide Sound, Step, Taken;
    if ops == [] {
      assert ops[..n] == [];
    } else if n < |ops| {
      LeftChunksStay(s, ops[..|ops| - 1], n, hash, names);
      assert ops[..|ops| - 1][..n] == ops[..n];
    } else {
      var before := ops[..|ops| - 1];
      LeftChunksStay(s, before, |before|, hash, names);
      assert before[..|before|] == before && ops[..n] == ops;
      LeftChunksStep(Run(s, before, hash), ops[|ops| - 1], hash, names);
    }
  }

  /** For every file and every way reads split it, Retrieve after Store returns
      the file, and keeps doing so after any further Stores and any Deletes that
      take neither its record nor a chunk of it. */
  lemma StoreRetrieveRoundTrip(s: Disk, file: Bytes, name: string, sizes: seq<nat>, stop: nat,
                               later: seq<Op>, hash: Hasher)
    requires Injective(hash) && Sound(s, hash) && ReadsOf(sizes, |file|) && stop > |sizes|
    requires forall i :: 0 <= i < |later| ==> Possible(later[i])
    requires Spares(AfterStore(s, file, name, sizes, stop, hash), later, hash, hash(file))
    ensures Retrieved(Run(AfterStore(s, file, name, sizes, stop, hash), later, hash), hash(file)) == Some(file)
  {
    var stored := AfterStore(s, file, name, sizes, stop, hash);
    StoreKeepsSound(s, file, name, sizes, stop, hash);
    StoreCompletes(s, file, name, sizes, stop, hash);
    SparedStaysComplete(stored, later, hash, hash(file));
    RetrieveIsRight(Run(stored, later, hash), hash(file), hash);
  }
}
