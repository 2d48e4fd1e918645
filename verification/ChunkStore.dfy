/** The content-addressed chunk store: its value model, and the object whose
    loops write chunk files and read them back. */
module ChunkStores {
  import opened Common

  const CHUNK_SIZE: nat := 256 * 1024

  /** A hash without collisions, as SHA-256 is taken to be. */
  type Hasher = Bytes -> string

  ghost predicate Injective(hash: Hasher) { forall a: Bytes, b: Bytes :: hash(a) == hash(b) ==> a == b }

  datatype Chunk = Chunk(index: nat, hash: string, size: nat)

  datatype Metadata = Metadata(hash: string, name: string, size: nat, chunkCount: nat, chunks: seq<Chunk>)

  /** The chunks and meta directories. */
  datatype Disk = Disk(chunks: map<string, Bytes>, meta: map<string, Metadata>)

  /** What a Read loop over the file may see: each read yields between one byte
      and a buffer full, until the end. */
  ghost predicate ReadsOf(sizes: seq<nat>, size: nat) {
    if sizes == [] then size == 0
    else 1 <= sizes[0] <= CHUNK_SIZE && sizes[0] <= size && ReadsOf(sizes[1..], size - sizes[0])
  }

  function Pieces(file: Bytes, sizes: seq<nat>): (pieces: seq<Bytes>)
    requires ReadsOf(sizes, |file|)
    ensures |pieces| == |sizes|
  {
    if sizes == [] then [] else [file[..sizes[0]]] + Pieces(file[sizes[0]..], sizes[1..])
  }

  function Concat(pieces: seq<Bytes>): Bytes {
    if pieces == [] then [] else pieces[0] + Concat(pieces[1..])
  }

  /** The chunk list of these pieces, numbered from `from`. */
  function Described(pieces: seq<Bytes>, hash: Hasher): (cs: seq<Chunk>)
    ensures |cs| == |pieces|
    ensures forall i :: 0 <= i < |cs| ==> cs[i] == Chunk(i, hash(pieces[i]), |pieces[i]|)
  {
    seq(|pieces|, i requires 0 <= i < |pieces| => Chunk(i, hash(pieces[i]), |pieces[i]|))
  }

  function WithChunks(chunks: map<string, Bytes>, pieces: seq<Bytes>, hash: Hasher): map<string, Bytes>
    decreases |pieces|
  {
    if pieces == [] then chunks
    else
      var before := |pieces| - 1;
      WithChunks(chunks, pieces[..before], hash)[hash(pieces[before]) := pieces[before]]
  }

  function MetadataOf(file: Bytes, name: string, pieces: seq<Bytes>, hash: Hasher): Metadata {
    Metadata(hash(file), name, |file|, |pieces|, Described(pieces, hash))
  }

  /** Store, stopped by an error before its write number `stop`: the chunks are
      written in order, the metadata last. */
  function AfterStore(s: Disk, file: Bytes, name: string, sizes: seq<nat>, stop: nat, hash: Hasher): Disk
    requires ReadsOf(sizes, |file|)
  {
    var pieces := Pieces(file, sizes);
    var written := if stop < |pieces| then pieces[..stop] else pieces;
    var chunks := WithChunks(s.chunks, written, hash);
    Disk(chunks, if stop <= |pieces| then s.meta else s.meta[hash(file) := MetadataOf(file, name, pieces, hash)])
  }

  function HashesOf(cs: seq<Chunk>): set<string> { set c | c in cs :: c.hash }

  /** The chunk files that a Delete of `h` takes away: it tries the first `stop` of
      the list, and those under a name in `stuck` cannot be removed. */
  function Taken(s: Disk, h: string, stop: nat, stuck: set<string>): set<string> {
    if h !in s.meta then {}
    else
      var cs := s.meta[h].chunks;
      HashesOf(if stop < |cs| then cs[..stop] else cs) - stuck
  }

  /** Delete, stopped before its removal number `stop`, the record's being the last:
      a file's chunks go even when other files share them. */
  function AfterDelete(s: Disk, h: string, stop: nat, stuck: set<string>): Disk {
    Disk(s.chunks - Taken(s, h, stop, stuck),
         if h in s.meta && stop <= |s.meta[h].chunks| then s.meta else s.meta - {h})
  }

  /** After a Delete stopped before removal number `stop`, exactly the chunk files that it
      came to and could remove are gone, and the record is if it came that far. */
  ghost predicate Deleted(was: Disk, s: Disk, h: string, stop: nat, stuck: set<string>) {
    if h !in was.meta then s == was
    else
      var cs := was.meta[h].chunks;
      && (forall name :: name in s.chunks <==>
            name in was.chunks
            && (name in stuck || forall i :: 0 <= i < |cs| && i < stop ==> cs[i].hash != name))
      && (forall name :: name in s.chunks ==> s.chunks[name] == was.chunks[name])
      && s.meta == if stop > |cs| then was.meta - {h} else was.meta
  }

  lemma DeleteDeletes(s: Disk, h: string, stop: nat, stuck: set<string>)
    ensures Deleted(s, AfterDelete(s, h, stop, stuck), h, stop, stuck)
  {
    if h in s.meta {
      var cs := s.meta[h].chunks;
      var tried := if stop < |cs| then cs[..stop] else cs;
      forall name ensures name in HashesOf(tried) <==> exists i :: 0 <= i < |cs| && i < stop && cs[i].hash == name {
        if name in HashesOf(tried) {
          var c :| c in tried && c.hash == name;
          var i :| 0 <= i < |tried| && tried[i] == c;
          assert cs[i].hash == name;
        }
        if i :| 0 <= i < |cs| && i < stop && cs[i].hash == name {
          assert tried[i] in tried;
        }
      }
    } else {
      assert s.chunks - {} == s.chunks && s.meta - {h} == s.meta;
    }
  }

  /** One of the first `stop` pieces has this hash. */
  ghost predicate Among(h: string, pieces: seq<Bytes>, stop: nat, hash: Hasher) {
    exists i :: 0 <= i < |pieces| && i < stop && hash(pieces[i]) == h
  }

  /** After a Store of these pieces stopped before write number `stop`, the chunk files
      that it came to are there, with all that were before; the record is if it came that
      far, and tells the file's name, size and hash. */
  ghost predicate StoredUpTo(was: Disk, s: Disk, file: Bytes, name: string, pieces: seq<Bytes>, stop: nat,
                             hash: Hasher)
  {
    && (forall h :: h in s.chunks <==> h in was.chunks || Among(h, pieces, stop, hash))
    && (stop <= |pieces| ==> s.meta == was.meta)
    && (stop > |pieces| ==>
         && s.meta.Keys == was.meta.Keys + {hash(file)}
         && (forall h :: h in was.meta && h != hash(file) ==> s.meta[h] == was.meta[h])
         && var m := s.meta[hash(file)];
            && m.hash == hash(file) && m.name == name && m.size == |file| && m.chunkCount == |pieces| == |m.chunks|
            && forall i :: 0 <= i < |pieces| ==> m.chunks[i] == Chunk(i, hash(pieces[i]), |pieces[i]|))
  }

  lemma AmongMore(h: string, pieces: seq<Bytes>, hash: Hasher)
    requires pieces != []
    ensures Among(h, pieces, |pieces|, hash) <==>
            Among(h, pieces[..|pieces| - 1], |pieces| - 1, hash) || hash(pieces[|pieces| - 1]) == h
  {
    var before := pieces[..|pieces| - 1];
    if Among(h, before, |before|, hash) {
      var i :| 0 <= i < |before| && hash(before[i]) == h;
      assert pieces[i] == before[i];
    }
    if Among(h, pieces, |pieces|, hash) {
      var i :| 0 <= i < |pieces| && hash(pieces[i]) == h;
      assert i < |before| ==> before[i] == pieces[i];
    }
  }

  lemma {:induction false} WithChunksAdds(chunks: map<string, Bytes>, pieces: seq<Bytes>, hash: Hasher)
    ensures forall h :: h in WithChunks(chunks, pieces, hash) <==> h in chunks || Among(h, pieces, |pieces|, hash)
    decreases |pieces|
  {
    if pieces != [] {
      WithChunksAdds(chunks, pieces[..|pieces| - 1], hash);
      forall h ensures h in WithChunks(chunks, pieces, hash) <==> h in chunks || Among(h, pieces, |pieces|, hash) {
        AmongMore(h, pieces, hash);
      }
    }
  }

  lemma AmongFirst(h: string, pieces: seq<Bytes>, stop: nat, hash: Hasher)
    ensures var written := if stop < |pieces| then pieces[..stop] else pieces;
            Among(h, written, |written|, hash) <==> Among(h, pieces, stop, hash)
  {
    var written := if stop < |pieces| then pieces[..stop] else pieces;
    if Among(h, pieces, stop, hash) {
      var i :| 0 <= i < |pieces| && i < stop && hash(pieces[i]) == h;
      assert written[i] == pieces[i];
    }
  }

  lemma StoreStores(s: Disk, file: Bytes, name: string, sizes: seq<nat>, stop: nat, hash: Hasher)
    requires ReadsOf(sizes, |file|)
    ensures StoredUpTo(s, AfterStore(s, file, name, sizes, stop, hash), file, name, Pieces(file, sizes), stop, hash)
  {
    hide Among, WithChunks;
    var pieces, t := Pieces(file, sizes), AfterStore(s, file, name, sizes, stop, hash);
    WithChunksAdds(s.chunks, if stop < |pieces| then pieces[..stop] else pieces, hash);
    forall h ensures h in t.chunks <==> h in s.chunks || Among(h, pieces, stop, hash) {
      AmongFirst(h, pieces, stop, hash);
    }
  }

  /** The chunks' bytes in order, as far as the first one that is missing. */
  datatype Assembly = Whole(data: Bytes) | Broken(data: Bytes)

  function Assemble(chunks: map<string, Bytes>, cs: seq<Chunk>): Assembly
    decreases |cs|
  {
    if cs == [] then Whole([])
    else
      var before, c := Assemble(chunks, cs[..|cs| - 1]), cs[|cs| - 1];
      if before.Whole? && c.hash in chunks then Whole(before.data + chunks[c.hash]) else Broken(before.data)
  }

  /** The bytes Retrieve yields; None when it fails. */
  function Retrieved(s: Disk, h: string): Option<Bytes> {
    if h in s.meta && Assemble(s.chunks, s.meta[h].chunks).Whole?
    then Some(Assemble(s.chunks, s.meta[h].chunks).data)
    else None
  }

  /** The read loop's position: `index` reads done, `offset` bytes behind it. */
  ghost predicate Reading(file: Bytes, sizes: seq<nat>, pieces: seq<Bytes>, index: nat, offset: nat) {
    && index <= |sizes| == |pieces| && offset <= |file| && ReadsOf(sizes[index..], |file| - offset)
    && pieces[index..] == Pieces(file[offset..], sizes[index..])
  }

  lemma NoHashes()
    ensures HashesOf([]) == {}
  {
  }

  lemma NextHash(cs: seq<Chunk>, i: nat)
    requires i < |cs|
    ensures HashesOf(cs[..i + 1]) == HashesOf(cs[..i]) + {cs[i].hash}
  {
    assert cs[..i + 1] == cs[..i] + [cs[i]];
  }

  lemma StartReading(file: Bytes, sizes: seq<nat>)
    requires ReadsOf(sizes, |file|)
    ensures Reading(file, sizes, Pieces(file, sizes), 0, 0)
  {
    assert sizes[0..] == sizes && file[0..] == file;
  }

  lemma NoChunksYet(chunks: map<string, Bytes>, pieces: seq<Bytes>, hash: Hasher)
    ensures WithChunks(chunks, pieces[..0], hash) == chunks
  {
  }

  lemma NextRead(file: Bytes, sizes: seq<nat>, pieces: seq<Bytes>, index: nat, offset: nat)
    requires Reading(file, sizes, pieces, index, offset) && index < |sizes|
    ensures offset + sizes[index] <= |file| && pieces[index] == file[offset..offset + sizes[index]]
    ensures Reading(file, sizes, pieces, index + 1, offset + sizes[index])
  {
  }

  lemma NextChunk(chunks: map<string, Bytes>, pieces: seq<Bytes>, index: nat, hash: Hasher)
    requires index < |pieces|
    ensures WithChunks(chunks, pieces[..index + 1], hash) ==
            WithChunks(chunks, pieces[..index], hash)[hash(pieces[index]) := pieces[index]]
    ensures Described(pieces[..index + 1], hash) ==
            Described(pieces[..index], hash) + [Chunk(index, hash(pieces[index]), |pieces[index]|)]
  {
    assert pieces[..index + 1][..index] == pieces[..index];
  }

  class FileStorage {
    const hash: Hasher
    var chunks: map<string, Bytes>
    var meta: map<string, Metadata>
    /** The file system outside the store: sources and destinations. */
    var files: map<string, Bytes>

    ghost function State(): Disk
      reads this
    {
      Disk(chunks, meta)
    }

    constructor (hash: Hasher, files: map<string, Bytes>)
      ensures this.hash == hash && this.files == files && State() == Disk(map[], map[])
    {
      this.hash, this.files, chunks, meta := hash, files, map[], map[];
    }

    /** `sizes` are what the read calls return; writing stops with an error
        at write number `stop`. */
    method Store(path: string, name: string, sizes: seq<nat>, stop: nat) returns (info: Option<Metadata>)
      requires path in files ==> ReadsOf(sizes, |files[path]|)
      modifies this`chunks, this`meta
      ensures path !in files ==> info == None && State() == old(State())
      ensures path in files ==>
                && State() == AfterStore(old(State()), files[path], name, sizes, stop, hash)
                && info == if stop <= |sizes| then None
                           else Some(MetadataOf(files[path], name, Pieces(files[path], sizes), hash))
      ensures path in files ==>
                StoredUpTo(old(State()), State(), files[path], name, Pieces(files[path], sizes), stop, hash)
    {
      hide ReadsOf, Pieces, Reading, WithChunks, StoredUpTo;
      if path !in files {
        return None;
      }
      var file := files[path];
      var fileHash := hash(file);
      ghost var pieces := Pieces(file, sizes);
      StoreStores(State(), file, name, sizes, stop, hash);
      var list: seq<Chunk> := [];
      var offset: nat := 0;
      StartReading(file, sizes);
      NoChunksYet(chunks, pieces, hash);
      for index := 0 to |sizes|
        invariant index <= stop && Reading(file, sizes, pieces, index, offset)
        invariant chunks == WithChunks(old(chunks), pieces[..index], hash)
        invariant list == Described(pieces[..index], hash)
        invariant meta == old(meta)
      {
        NextRead(file, sizes, pieces, index, offset);
        var n := sizes[index];
        var data := file[offset..offset + n];
        if index == stop {
          return None;
        }
        NextChunk(old(chunks), pieces, index, hash);
        chunks := chunks[hash(data) := data];
        list := list + [Chunk(index, hash(data), n)];
        offset := offset + n;
      }
      assert pieces[..|sizes|] == pieces;
      var record := Metadata(fileHash, name, |file|, |list|, list);
      if |sizes| == stop {
        return None;
      }
      meta := meta[fileHash := record];
      return Some(record);
    }

    /** On failure the destination keeps whatever was written to it so far. */
    method Retrieve(h: string, dest: string) returns (ok: bool)
      modifies this`files
      ensures ok <==> Retrieved(State(), h).Some?
      ensures ok ==> files == old(files)[dest := Retrieved(State(), h).value]
      ensures !ok ==>
                files == if h in meta then old(files)[dest := Assemble(chunks, meta[h].chunks).data] else old(files)
    {
      if h !in meta {
        return false;
      }
      var cs := meta[h].chunks;
      files := files[dest := []];
      for i := 0 to |cs|
        invariant Assemble(chunks, cs[..i]).Whole?
        invariant files == old(files)[dest := Assemble(chunks, cs[..i]).data]
      {
        assert cs[..i + 1][..i] == cs[..i];
        if cs[i].hash !in chunks {
          BrokenFrom(chunks, cs, i + 1);
          return false;
        }
        files := files[dest := files[dest] + chunks[cs[i].hash]];
      }
      assert cs[..|cs|] == cs;
      return true;
    }

    method Exists(h: string) returns (r: bool)
      ensures r <==> h in State().meta
    {
      r := h in meta;
    }

    method GetChunk(h: string) returns (data: Option<Bytes>)
      ensures data == if h in State().chunks then Some(State().chunks[h]) else None
    {
      data := if h in chunks then Some(chunks[h]) else None;
    }

    method GetMetadata(h: string) returns (m: Option<Metadata>)
      ensures m == if h in State().meta then Some(State().meta[h]) else None
    {
      m := if h in meta then Some(meta[h]) else None;
    }

    /** Failing removals of chunks in `stuck` are ignored; the whole call ends with
        an error at removal number `stop`, be it the record's. */
    method Delete(h: string, stop: nat, stuck: set<string>) returns (ok: bool)
      modifies this`chunks, this`meta
      ensures ok <==> h in old(meta) && stop > |old(meta)[h].chunks|
      ensures State() == AfterDelete(old(State()), h, stop, stuck)
      ensures Deleted(old(State()), State(), h, stop, stuck)
    {
      hide Deleted, HashesOf;
      DeleteDeletes(State(), h, stop, stuck);
      if h !in meta {
        return false;
      }
      var cs := meta[h].chunks;
      NoHashes();
      for i := 0 to |cs|
        invariant i <= stop && meta == old(meta)
        invariant chunks == old(chunks) - (HashesOf(cs[..i]) - stuck)
      {
        if i == stop {
          return false;
        }
        NextHash(cs, i);
        if cs[i].hash !in stuck {
          chunks := chunks - {cs[i].hash};
        }
      }
      assert cs[..|cs|] == cs;
      if |cs| == stop {
        return false;
      }
      meta := meta - {h};
      return true;
    }
  }

  /** Once an assembly is broken, later chunks change nothing. */
  lemma {:induction false} BrokenFrom(chunks: map<string, Bytes>, cs: seq<Chunk>, n: nat)
    requires n <= |cs| && Assemble(chunks, cs[..n]).Broken?
    ensures Assemble(chunks, cs) == Assemble(chunks, cs[..n])
    decreases |cs|
  {
    if n < |cs| {
      assert cs[..|cs| - 1][..n] == cs[..n];
      BrokenFrom(chunks, cs[..|cs| - 1], n);
    } else {
      assert cs[..n] == cs;
    }
  }
}
