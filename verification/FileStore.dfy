/** `FileStore` (clients/core/store.go): the sequential code of Load, Save, Forget, readAll and
    writeAll over a shared volume. Which system call fails is a parameter. */
module FileStores {
  import opened Wrappers
  import opened GoStrings
  import opened Pinning
  import opened PinFile
  import opened StoreSpec
  import opened FileSystem

  /** The disk, with every state it has been in. */
  class Volume {
    var disk: Disk
    ghost var trace: seq<Disk>

    ghost predicate Ok()
      reads this
    {
      Valid(disk)
    }

    constructor (d: Disk)
      requires Valid(d)
      ensures disk == d && trace == [d] && Ok()
    {
      disk := d;
      trace := [d];
    }

    /** One system call: the disk moves from one state to the next. */
    method Move(d: Disk)
      modifies this
      ensures disk == d && trace == old(trace) + [d]
    {
      disk := d;
      trace := trace + [d];
    }
  }

  lemma {:induction false} PrintSnoc(order: seq<Bytes>, n: Bytes, m: Pins)
    requires forall k :: k in order ==> k in m
    requires n in m
    ensures Print(order + [n], m) == Print(order, m) + PrintLine(n, m[n]) + [NEWLINE]
  {
    hide PrintLine;
    if order == [] {
      assert order + [n] == [n];
    } else {
      assert (order + [n])[1..] == order[1..] + [n];
      PrintSnoc(order[1..], n, m);
    }
  }

  /** The operation needs a system call that fails: the read, or the commit once the file has parsed. */
  predicate MeetsFailure(op: Op, before: Contents, io: IO) {
    !Refused(op) && (!io.read || (!op.Load? && Parses(before) && !io.Commits()))
  }

  class FileStore {
    const volume: Volume

    constructor (v: Volume)
      ensures volume == v
    {
      volume := v;
    }

    /** The parse loop. */
    method ReadAll(io: IO) returns (r: Result<Pins, StoreError>)
      requires volume.Ok()
      ensures r == if io.read then ParseContents(ContentsOf(volume.disk)) else Err(InputOutput)
    {
      hide ReadLine, Split;
      if !io.read {
        return Err(InputOutput);
      }
      var data := ContentsOf(volume.disk);
      if data.None? {
        return Ok(map[]);
      }
      var entries: Pins := map[];
      var lines := Split(data.value, NEWLINE);
      var i := 0;
      while i < |lines|
        invariant 0 <= i <= |lines|
        invariant Parse(data.value) == ParseLines(lines[i..], 1 + i, entries)
      {
        var line := ReadLine(lines[i]);
        assert lines[i..][0] == lines[i] && lines[i..][1..] == lines[i + 1..];
        if Bad(line) {
          return Err(ErrorOf(line, i + 1));
        }
        if line.Entry? {
          entries := entries[line.name := line.pin];
        }
        i := i + 1;
      }
      return Ok(entries);
    }

    /** The print loop: the keys come in whatever order the map hands them out. */
    method PrintAll(entries: Pins) returns (b: Bytes)
      ensures Serializes(b, entries)
    {
      hide PrintLine, Print;
      b := [];
      var keys := entries.Keys;
      ghost var order: seq<Bytes> := [];
      PrintNothing(entries);
      while keys != {}
        invariant keys <= entries.Keys
        invariant forall n :: n in order <==> n in entries && n !in keys
        invariant forall i, j :: 0 <= i < j < |order| ==> order[i] != order[j]
        invariant b == Print(order, entries)
        decreases |keys|
      {
        var name :| name in keys;
        PrintSnoc(order, name, entries);
        b := b + PrintLine(name, entries[name]) + [NEWLINE];
        order := order + [name];
        keys := keys - {name};
      }
      assert IsOrder(order, entries);
    }

    lemma PrintNothing(m: Pins)
      ensures Print([], m) == []
    {
    }

    /** The commit: temporary file, write, chmod, sync, close, rename; on any failure before the
        rename took effect, the temporary file is removed. */
    method Commit(data: Bytes, io: IO) returns (ok: bool)
      requires volume.Ok()
      requires Fresh(volume.disk, io.temp)
      modifies volume
      ensures ok == io.Renames()
      ensures volume.trace == old(volume.trace) + CommitTrace(old(volume.disk), data, io)
      ensures volume.disk == Last(old(volume.disk), CommitTrace(old(volume.disk), data, io))
    {
      if !io.create {
        return false;
      }
      var id := io.temp;
      volume.Move(CreateTemp(volume.disk, id));
      volume.Move(WriteTemp(volume.disk, id, Written(data, io.write)));
      if io.write.Whole? && io.chmod && io.sync {
        volume.Move(SyncTemp(volume.disk, id));
        if io.close && io.rename {
          volume.Move(RenameTemp(volume.disk, id));
          return true;
        }
      }
      if io.remove {
        volume.Move(RemoveTemp(volume.disk, id));
      }
      return false;
    }

    /** `writeAll`: make the directory, print, commit.

        The file at the path is untouched unless the commit succeeds, and then it is the complete
        output; no temporary file stays behind unless its removal fails; and a crash in any state
        passed through leaves what a crash could have left before, or the complete output. */
    method WriteAll(entries: Pins, io: IO) returns (r: Result<(), StoreError>, ghost data: Bytes)
      requires volume.Ok()
      requires Fresh(volume.disk, io.temp)
      modifies volume
      ensures volume.Ok()
      ensures io.mkdir ==> Serializes(data, entries)
      ensures r == if io.Commits() then Ok(()) else Err(InputOutput)
      ensures r.Ok? ==> volume.disk == CommitDisk(old(volume.disk), io.temp, data)
      ensures ContentsOf(volume.disk) == if r.Ok? then Some(data) else old(ContentsOf(volume.disk))
      ensures io.Commits() || io.remove ==> volume.disk.dir - {Target} == old(volume.disk.dir) - {Target}
      ensures old(volume.trace) <= volume.trace
      ensures forall k :: |old(volume.trace)| <= k < |volume.trace| ==> Harmless(old(volume.disk), volume.trace[k], data)
    {
      hide Serializes, CommitDisk, CommitTrace, Harmless, Valid, ContentsOf, Fresh;
      data := [];
      if !io.mkdir {
        return Err(InputOutput), data;
      }
      var text := PrintAll(entries);
      data := text;
      CommitTraceHarmless(volume.disk, data, io);
      CommitOutcome(volume.disk, data, io);
      var ok := Commit(text, io);
      return if ok then Ok(()) else Err(InputOutput), data;
    }

    /** `Load`. */
    method Load(name: Bytes, io: IO) returns (reply: Reply)
      requires volume.Ok()
      ensures Atomic(StoreSpec.Load(name), ContentsOf(volume.disk), ContentsOf(volume.disk), reply)
      ensures io.read && Parses(ContentsOf(volume.disk)) ==>
                var m := PinsIn(ContentsOf(volume.disk));
                && (forall p :: reply == Found(p) <==> name in m && m[name] == p)
                && (reply == Failed(PinNotFound(name)) <==> name !in m)
      ensures reply == Failed(InputOutput) <==> MeetsFailure(StoreSpec.Load(name), ContentsOf(volume.disk), io)
    {
      hide ParseContents;
      var entries := ReadAll(io);
      if entries.Err? {
        return Failed(entries.error);
      }
      return Lookup(name, entries.value);
    }

    /** `Save`. */
    method Save(name: Bytes, fp: Pin, io: IO) returns (reply: Reply, ghost data: Bytes)
      requires volume.Ok()
      requires Fresh(volume.disk, io.temp)
      modifies volume
      ensures volume.Ok()
      ensures Atomic(StoreSpec.Save(name, fp), old(ContentsOf(volume.disk)), ContentsOf(volume.disk), reply)
      ensures reply == Done ==> ContentsOf(volume.disk) == Some(data)
      ensures reply != Done ==> ContentsOf(volume.disk) == old(ContentsOf(volume.disk))
      ensures reply == Failed(InputOutput) <==> MeetsFailure(StoreSpec.Save(name, fp), old(ContentsOf(volume.disk)), io)
      ensures old(volume.trace) <= volume.trace
      ensures forall k :: |old(volume.trace)| <= k < |volume.trace| ==> Harmless(old(volume.disk), volume.trace[k], data)
    {
      hide ParseContents, TrimSpace, Serializes, Harmless, Valid, ContentsOf, Fresh;
      data := [];
      if TrimSpace(name) == [] {
        return Failed(EmptyName), data;
      }
      var entries := ReadAll(io);
      if entries.Err? {
        return Failed(entries.error), data;
      }
      var written;
      written, data := WriteAll(entries.value[name := fp], io);
      return if written.Ok? then Done else Failed(written.error), data;
    }

    /** `Forget`. */
    method Forget(name: Bytes, io: IO) returns (reply: Reply, ghost data: Bytes)
      requires volume.Ok()
      requires Fresh(volume.disk, io.temp)
      modifies volume
      ensures volume.Ok()
      ensures Atomic(StoreSpec.Forget(name), old(ContentsOf(volume.disk)), ContentsOf(volume.disk), reply)
      ensures reply == Done ==> ContentsOf(volume.disk) == Some(data)
      ensures reply != Done ==> ContentsOf(volume.disk) == old(ContentsOf(volume.disk))
      ensures reply == Failed(InputOutput) <==> MeetsFailure(StoreSpec.Forget(name), old(ContentsOf(volume.disk)), io)
      ensures old(volume.trace) <= volume.trace
      ensures forall k :: |old(volume.trace)| <= k < |volume.trace| ==> Harmless(old(volume.disk), volume.trace[k], data)
    {
      hide ParseContents, Serializes, Harmless, Valid, ContentsOf, Fresh;
      data := [];
      var entries := ReadAll(io);
      if entries.Err? {
        return Failed(entries.error), data;
      }
      var written;
      written, data := WriteAll(entries.value - {name}, io);
      return if written.Ok? then Done else Failed(written.error), data;
    }
  }
}
