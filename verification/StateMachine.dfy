/** The replicated key-value state machine: commands, their replay, and the
    object that applies them, copies itself and is restored. */
module StateMachines {
  import opened Common

  type Value = Bytes

  const OP_SET := "set"
  const OP_DELETE := "delete"

  datatype Command = Command(op: string, key: string, value: Value)

  /** The wire formats, as any decoder of commands and any snapshot codec. */
  datatype Format = Format(decode: Bytes -> Option<Command>,
                           encodeData: map<string, Value> -> Bytes,
                           decodeData: Bytes -> Option<map<string, Value>>)
  {
    ghost predicate RoundTrips() { forall m :: decodeData(encodeData(m)) == Some(m) }
  }

  /** Entries that do not decode and operations that are not known change nothing. */
  function Applied(data: map<string, Value>, entry: Bytes, f: Format): map<string, Value> {
    match f.decode(entry)
    case None => data
    case Some(c) =>
      if c.op == OP_SET then data[c.key := c.value]
      else if c.op == OP_DELETE then data - {c.key}
      else data
  }

  /** The data after the whole log, from `data` on. */
  function ReplayFrom(data: map<string, Value>, log: seq<Bytes>, f: Format): map<string, Value>
    decreases |log|
  {
    if log == [] then data
    else Applied(ReplayFrom(data, log[..|log| - 1], f), log[|log| - 1], f)
  }

  function Replay(log: seq<Bytes>, f: Format): map<string, Value> { ReplayFrom(map[], log, f) }

  /** A map with an identity, as a Go map has. */
  class Dict {
    var m: map<string, Value>

    constructor ()
      ensures m == map[]
    {
      m := map[];
    }
  }

  class FSM {
    const format: Format
    var data: Dict

    constructor (format: Format)
      ensures this.format == format && data.m == map[] && fresh(data)
    {
      this.format := format;
      data := new Dict();
    }

    method Apply(entry: Bytes) returns (ok: bool)
      modifies data
      ensures ok <==> format.decode(entry).Some?
      ensures data.m == Applied(old(data.m), entry, format)
    {
      var cmd := format.decode(entry);
      if cmd.None? {
        return false;
      }
      if cmd.value.op == OP_SET {
        data.m := data.m[cmd.value.key := cmd.value.value];
      } else if cmd.value.op == OP_DELETE {
        data.m := data.m - {cmd.value.key};
      }
      return true;
    }

    /** The copy is a map of its own: later Applies do not reach it. */
    method Snapshot() returns (snapshot: Dict)
      ensures fresh(snapshot) && snapshot.m == data.m
    {
      snapshot := new Dict();
      var todo := data.m.Keys;
      while todo != {}
        invariant todo <= data.m.Keys && fresh(snapshot)
        invariant snapshot.m == data.m - todo
        decreases todo
      {
        var k :| k in todo;
        snapshot.m := snapshot.m[k := data.m[k]];
        todo := todo - {k};
      }
    }

    method Restore(blob: Bytes) returns (ok: bool)
      modifies this`data
      ensures ok <==> format.decodeData(blob).Some?
      ensures ok ==> fresh(data) && Some(data.m) == format.decodeData(blob)
      ensures !ok ==> data == old(data) && data.m == old(data.m)
    {
      var decoded := format.decodeData(blob);
      if decoded.None? {
        return false;
      }
      var restored := new Dict();
      restored.m := decoded.value;
      data := restored;
      return true;
    }
  }

  /** Persist writes the snapshot's encoding, unless the sink fails. */
  method Persist(snapshot: Dict, format: Format, sinkOk: bool) returns (written: Option<Bytes>)
    ensures written == if sinkOk then Some(format.encodeData(snapshot.m)) else None
    ensures format.RoundTrips() && written.Some? ==> format.decodeData(written.value) == Some(snapshot.m)
  {
    written := if sinkOk then Some(format.encodeData(snapshot.m)) else None;
  }

  /** The entries as Raft delivers them, in order. */
  method ApplyAll(fsm: FSM, entries: seq<Bytes>)
    modifies fsm.data
    ensures fsm.data.m == ReplayFrom(old(fsm.data.m), entries, fsm.format)
  {
    for i := 0 to |entries|
      invariant fsm.data == old(fsm.data)
      invariant fsm.data.m == ReplayFrom(old(fsm.data.m), entries[..i], fsm.format)
    {
      var _ := fsm.Apply(entries[i]);
      assert entries[..i + 1][..i] == entries[..i];
    }
    assert entries[..|entries|] == entries;
  }

  /** Applies between taking a snapshot and persisting it leave no trace in it. */
  method SnapshotThenApply(fsm: FSM, entries: seq<Bytes>) returns (written: Option<Bytes>)
    modifies fsm.data
    ensures written == Some(fsm.format.encodeData(old(fsm.data.m)))
    ensures fsm.data.m == ReplayFrom(old(fsm.data.m), entries, fsm.format)
  {
    var snapshot := fsm.Snapshot();
    ApplyAll(fsm, entries);
    written := Persist(snapshot, fsm.format, true);
  }

  /** A snapshot taken, persisted while entries go on being applied, and restored
      elsewhere is the data as of the taking; a failed sink changes nothing there. */
  method InstallSnapshot(fsm: FSM, entries: seq<Bytes>, sinkOk: bool, replica: FSM) returns (ok: bool)
    requires replica.format == fsm.format && fsm.format.RoundTrips()
    requires replica != fsm && replica.data != fsm.data
    modifies fsm.data, replica`data
    ensures ok <==> sinkOk
    ensures fsm.data == old(fsm.data) && fsm.data.m == ReplayFrom(old(fsm.data.m), entries, fsm.format)
    ensures ok ==> fresh(replica.data) && replica.data.m == old(fsm.data.m)
    ensures !ok ==> replica.data == old(replica.data) && replica.data.m == old(replica.data.m)
  {
    var snapshot := fsm.Snapshot();
    ApplyAll(fsm, entries);
    var written := Persist(snapshot, fsm.format, sinkOk);
    ok := written.Some?;
    if ok {
      var _ := replica.Restore(written.value);
    }
  }

  // ---------- what replay means ----------

  /** The command of this entry decides the key's value. */
  predicate Writes(entry: Bytes, key: string, f: Format) {
    match f.decode(entry)
    case None => false
    case Some(c) => c.key == key && (c.op == "set" || c.op == "delete")
  }

  /** A key is present after a replay if and only if the last entry that decides
      it sets it, and it then has the value set there. */
  lemma {:induction false} ReplayIsLastWrite(log: seq<Bytes>, key: string, f: Format, last: int)
    requires -1 <= last < |log|
    requires last >= 0 ==> Writes(log[last], key, f)
    requires forall i :: last < i < |log| ==> !Writes(log[i], key, f)
    ensures key in Replay(log, f) <==> last >= 0 && f.decode(log[last]).value.op == "set"
    ensures key in Replay(log, f) ==> Replay(log, f)[key] == f.decode(log[last]).value.value
    decreases |log|
  {
    if log != [] {
      var before := log[..|log| - 1];
      if last < |log| - 1 {
        ReplayIsLastWrite(before, key, f, last);
        assert !Writes(log[|log| - 1], key, f);
      } else {
        assert "set"[0] != "delete"[0];
      }
    }
  }

  /** Replaying a suffix on top of a prefix is replaying the whole. */
  lemma {:induction false} ReplayComposes(data: map<string, Value>, log: seq<Bytes>, k: nat, f: Format)
    requires k <= |log|
    ensures ReplayFrom(ReplayFrom(data, log[..k], f), log[k..], f) == ReplayFrom(data, log, f)
    decreases |log|
  {
    if k == |log| {
      assert log[..k] == log;
    } else {
      var before := log[..|log| - 1];
      ReplayComposes(data, before, k, f);
      assert before[..k] == log[..k];
      assert log[k..][..|log| - 1 - k] == before[k..];
    }
  }
}
