/** The directory that holds the pin file: what a running system sees and what a crash may leave.

    Data reaches the disk for certain only by `Sync`. Renames are never synced by the store, so after
    a crash the path may name any file it has named since the last start. */
module FileSystem {
  import opened Wrappers
  import opened GoStrings
  import opened PinFile

  /** The store's path, and the temporary files next to it. */
  datatype Name = Target | Temp(id: nat)

  datatype Inode = Inode(data: Bytes, synced: bool)

  /** `past` holds every file (or none) that the path has named since the last start. */
  datatype Disk = Disk(dir: map<Name, nat>, inodes: map<nat, Inode>, past: set<Option<nat>>)

  function Binding(d: Disk): Option<nat> {
    if Target in d.dir then Some(d.dir[Target]) else None
  }

  ghost predicate Valid(d: Disk) {
    && (forall n :: n in d.dir ==> d.dir[n] in d.inodes)
    && Binding(d) in d.past
    && (forall i :: Some(i) in d.past ==> i in d.inodes)
  }

  function ContentsOf(d: Disk): Contents
    requires Valid(d)
  {
    if Target in d.dir then Some(d.inodes[d.dir[Target]].data) else None
  }

  // ---- The system calls of writeAll ----

  predicate Fresh(d: Disk, id: nat) {
    id !in d.inodes && Temp(id) !in d.dir && Some(id) !in d.past
  }

  function CreateTemp(d: Disk, id: nat): Disk {
    d.(dir := d.dir[Temp(id) := id], inodes := d.inodes[id := Inode([], false)])
  }

  function WriteTemp(d: Disk, id: nat, data: Bytes): Disk {
    d.(inodes := d.inodes[id := Inode(data, false)])
  }

  function SyncTemp(d: Disk, id: nat): Disk
    requires id in d.inodes
  {
    d.(inodes := d.inodes[id := d.inodes[id].(synced := true)])
  }

  function RenameTemp(d: Disk, id: nat): Disk {
    d.(dir := (d.dir - {Temp(id)})[Target := id], past := d.past + {Some(id)})
  }

  function RemoveTemp(d: Disk, id: nat): Disk {
    d.(dir := d.dir - {Temp(id)})
  }

  /** The whole commit, when nothing fails. */
  function CommitDisk(d: Disk, id: nat, data: Bytes): Disk {
    RenameTemp(SyncTemp(WriteTemp(CreateTemp(d, id), id, data), id), id)
  }

  // ---- Crashes ----

  /** `c` is what the path may hold after a crash in state `d`: a file the path has named, whole if it
      was synced and with arbitrary bytes if it was not. */
  ghost predicate MayRecover(d: Disk, c: Contents)
    requires Valid(d)
  {
    || (c.None? && None in d.past)
    || (c.Some? && exists i :: Some(i) in d.past && (d.inodes[i].synced ==> c.value == d.inodes[i].data))
  }

  /** `after` is a disk that a restart may find after a crash in state `d`. Leftover temporary files
      are unconstrained. */
  ghost predicate Recovers(d: Disk, after: Disk)
    requires Valid(d)
  {
    && Valid(after)
    && after.past == {Binding(after)}
    && (Target in after.dir ==> after.inodes[after.dir[Target]].synced)
    && MayRecover(d, ContentsOf(after))
  }

  /** A crash in `d` leaves nothing that a crash in `start` could not, except the complete `data`. */
  ghost predicate Harmless(start: Disk, d: Disk, data: Bytes)
    requires Valid(start)
  {
    Valid(d) && forall c :: MayRecover(d, c) ==> MayRecover(start, c) || c == Some(data)
  }

  /** `d` is `start` with the temporary file `id`, in whatever condition, next to the path. */
  ghost predicate Working(start: Disk, d: Disk, id: nat) {
    && Valid(start) && Fresh(start, id)
    && id in d.inodes
    && d == Disk(start.dir[Temp(id) := id], start.inodes[id := d.inodes[id]], start.past)
  }

  /** The three states of a temporary file on its way into place. */
  lemma WorkingSteps(start: Disk, id: nat, data: Bytes)
    requires Valid(start) && Fresh(start, id)
    ensures var d1 := CreateTemp(start, id);
            var d2 := WriteTemp(d1, id, data);
            var d3 := SyncTemp(d2, id);
            && Working(start, d1, id)
            && Working(start, d2, id)
            && Working(start, d3, id) && d3.inodes[id] == Inode(data, true)
  {
    var d2 := WriteTemp(CreateTemp(start, id), id, data);
    assert d2.inodes == start.inodes[id := Inode(data, false)];
    assert SyncTemp(d2, id).inodes == start.inodes[id := Inode(data, true)];
  }

  /** Working on a file the path has never named changes neither the path's contents nor what a crash
      leaves, and removing the file restores the directory. */
  lemma WorkIsInvisible(start: Disk, d: Disk, id: nat, data: Bytes)
    requires Working(start, d, id)
    ensures Harmless(start, d, data) && ContentsOf(d) == ContentsOf(start)
    ensures Harmless(start, RemoveTemp(d, id), data) && ContentsOf(RemoveTemp(d, id)) == ContentsOf(start)
    ensures RemoveTemp(d, id).dir == start.dir
  {
  }

  /** Renaming a synced file into place adds its full contents to what a crash may leave, and nothing
      else; renaming one that was not synced adds every content there is. */
  lemma RenameIntoPlace(start: Disk, d: Disk, id: nat)
    requires Working(start, d, id)
    ensures var d' := RenameTemp(d, id);
            && Valid(d') && ContentsOf(d') == Some(d.inodes[id].data)
            && d'.dir - {Target} == start.dir - {Target}
            && (Harmless(start, d', d.inodes[id].data) <==>
                  d.inodes[id].synced || forall any :: any != d.inodes[id].data ==> MayRecover(start, Some(any)))
            && (!d.inodes[id].synced ==> forall any :: MayRecover(d', Some(any)))
  {
    var d' := RenameTemp(d, id);
    assert Some(id) in d'.past;
    if !d.inodes[id].synced {
      forall any ensures MayRecover(d', Some(any)) {
      }
    }
  }

  // ---- The commit as a sequence of disk states ----

  datatype Write = Whole | Partial(n: nat)

  /** How each system call of one operation turns out. `temp` is the name CreateTemp picks. */
  datatype IO = IO(read: bool, mkdir: bool, create: bool, temp: nat, write: Write, chmod: bool,
                   sync: bool, close: bool, rename: bool, remove: bool)
  {
    predicate Renames() {
      create && write.Whole? && chmod && sync && close && rename
    }

    predicate Commits() {
      mkdir && Renames()
    }
  }

  function Written(data: Bytes, w: Write): Bytes {
    if w.Whole? || |data| < w.n then data else data[..w.n]
  }

  /** Every disk state the commit passes through. */
  function CommitTrace(d: Disk, data: Bytes, io: IO): seq<Disk> {
    if !io.create then []
    else
      var d1 := CreateTemp(d, io.temp);
      var d2 := WriteTemp(d1, io.temp, Written(data, io.write));
      if io.write.Whole? && io.chmod && io.sync then
        var d3 := SyncTemp(d2, io.temp);
        if io.close && io.rename then [d1, d2, d3, RenameTemp(d3, io.temp)]
        else [d1, d2, d3] + (if io.remove then [RemoveTemp(d3, io.temp)] else [])
      else [d1, d2] + (if io.remove then [RemoveTemp(d2, io.temp)] else [])
  }

  function Last(d: Disk, trace: seq<Disk>): Disk {
    if trace == [] then d else trace[|trace| - 1]
  }

  /** A crash in any state of the commit leaves what a crash could have left before it, or the
      complete new file. */
  lemma CommitTraceHarmless(d: Disk, data: Bytes, io: IO)
    requires Valid(d) && Fresh(d, io.temp)
    ensures forall k :: 0 <= k < |CommitTrace(d, data, io)| ==> Harmless(d, CommitTrace(d, data, io)[k], data)
  {
    hide Harmless, Working, Valid, CreateTemp, WriteTemp, SyncTemp, RenameTemp, RemoveTemp;
    if io.create {
      var id := io.temp;
      WorkingSteps(d, id, Written(data, io.write));
      var d1 := CreateTemp(d, id);
      var d2 := WriteTemp(d1, id, Written(data, io.write));
      WorkIsInvisible(d, d1, id, data);
      WorkIsInvisible(d, d2, id, data);
      WorkIsInvisible(d, SyncTemp(d2, id), id, data);
      RenameIntoPlace(d, SyncTemp(d2, id), id);
    }
  }

  /** A commit that goes through installs exactly the data; any other leaves the path alone, and the
      directory as it was if the removal works. */
  lemma CommitOutcome(d: Disk, data: Bytes, io: IO)
    requires Valid(d) && Fresh(d, io.temp)
    ensures var d' := Last(d, CommitTrace(d, data, io));
            && Valid(d')
            && (io.Renames() ==> d' == CommitDisk(d, io.temp, data))
            && ContentsOf(d') == (if io.Renames() then Some(data) else ContentsOf(d))
            && (io.Renames() || io.remove ==> d'.dir - {Target} == d.dir - {Target})
  {
    hide Working, Valid, ContentsOf, CreateTemp, WriteTemp, SyncTemp, RenameTemp, RemoveTemp;
    if io.create {
      var id := io.temp;
      WorkingSteps(d, id, Written(data, io.write));
      var d2 := WriteTemp(CreateTemp(d, id), id, Written(data, io.write));
      WorkIsInvisible(d, d2, id, data);
      WorkIsInvisible(d, SyncTemp(d2, id), id, data);
      RenameIntoPlace(d, SyncTemp(d2, id), id);
    }
  }

  /** A finished commit adds the new file to what a crash may leave and takes nothing away: the update is
      whole if it is found, but since the directory is not synced it may still be missing. */
  lemma CommitRecoversExactly(d: Disk, id: nat, data: Bytes, c: Contents)
    requires Valid(d) && Fresh(d, id)
    ensures Valid(CommitDisk(d, id, data))
    ensures MayRecover(CommitDisk(d, id, data), c) <==> MayRecover(d, c) || c == Some(data)
  {
    var d' := CommitDisk(d, id, data);
    assert d'.inodes[id] == Inode(data, true);
    assert d'.past == d.past + {Some(id)};
    assert forall i :: Some(i) in d.past ==> i != id && d'.inodes[i] == d.inodes[i];
    if c == Some(data) {
      assert Some(id) in d'.past;
    }
    if MayRecover(d, c) && c.Some? {
      var i :| Some(i) in d.past && (d.inodes[i].synced ==> c.value == d.inodes[i].data);
      assert Some(i) in d'.past;
    }
  }
}
