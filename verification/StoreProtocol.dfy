/** Concurrent use of `FileStore` (clients/core/store.go): any number of goroutines on any number of
    stores over one path, one system call at a time, with failures and crashes anywhere. */
module StoreProtocol {
  import opened Wrappers
  import opened GoStrings
  import opened Pinning
  import opened PinFile
  import opened StoreSpec
  import opened FileSystem

  type Tid = nat
  type StoreId = nat

  datatype Stage = Created | Wrote | Chmodded | Synced | Closed

  /** Where a call stands. `Called` waits for the mutex, `Locked` has it and is about to read. */
  datatype Pc =
    | Called
    | Locked
    | Updating(entries: Pins)
    | Printed(data: Bytes)
    | InTemp(stage: Stage, id: nat, data: Bytes)
    | Cleanup(id: nat)
    | Finished(reply: Reply)

  /** `read` only records how many updates had been committed when the call read the file. */
  datatype Call = Call(store: StoreId, op: Op, pc: Pc, read: nat)

  /** Which store an update was committed on, and how many updates its call had read. */
  datatype Mark = Mark(store: StoreId, base: nat)

  /** `log`, `marks` and `history` only record: the updates committed so far, where each came from, and the
      file before the first and after each of them. */
  datatype Sys = Sys(disk: Disk, locks: map<StoreId, Tid>, calls: map<Tid, Call>, log: seq<Op>, marks: seq<Mark>,
                     history: seq<Contents>)

  /** One step of a call's own code. */
  datatype Move =
    | Refuse
    | Lock
    | Read(ok: bool)
    | PrintMap(order: seq<Bytes>)
    | Create(id: nat)
    | WriteData
    | Chmod
    | Sync
    | Close
    | Rename
    | Fail(written: nat)
    | Remove(ok: bool)

  datatype Action =
    | Invoke(t: Tid, store: StoreId, op: Op)
    | Do(t: Tid, move: Move)
    | Return(t: Tid)
    | Crash(after: Disk)

  ghost predicate CanMove(s: Sys, c: Call, k: Move) {
    match k
    case Refuse => c.pc.Called? && Refused(c.op)
    case Lock => c.pc.Called? && !Refused(c.op) && c.store !in s.locks
    case Read(_) => c.pc.Locked?
    case PrintMap(order) => c.pc.Updating? && IsOrder(order, c.pc.entries)
    case Create(id) => c.pc.Printed? && Fresh(s.disk, id)
    case WriteData => c.pc.InTemp? && c.pc.stage == Created
    case Chmod => c.pc.InTemp? && c.pc.stage == Wrote
    case Sync => c.pc.InTemp? && c.pc.stage == Chmodded && c.pc.id in s.disk.inodes
    case Close => c.pc.InTemp? && c.pc.stage == Synced
    case Rename => c.pc.InTemp? && c.pc.stage == Closed
    case Fail(_) => c.pc.Updating? || c.pc.Printed? || c.pc.InTemp?
    case Remove(_) => c.pc.Cleanup?
  }

  ghost predicate Enabled(s: Sys, a: Action) {
    Valid(s.disk) &&
    match a
    case Invoke(t, _, _) => t !in s.calls
    case Do(t, k) => t in s.calls && CanMove(s, s.calls[t], k)
    case Return(t) => t in s.calls && s.calls[t].pc.Finished?
    case Crash(after) => Recovers(s.disk, after)
  }

  /** What readAll and the map operation make of the file. */
  function AfterRead(op: Op, ok: bool, c: Contents): Pc {
    if !ok then Finished(Failed(InputOutput))
    else match ParseContents(c)
      case Err(e) => Finished(Failed(e))
      case Ok(m) => if op.Load? then Finished(Lookup(op.name, m)) else Updating(Apply(op, m))
  }

  ghost function NextPc(s: Sys, c: Call, k: Move): Pc
    requires Valid(s.disk) && CanMove(s, c, k)
  {
    match k
    case Refuse => Finished(Failed(EmptyName))
    case Lock => Locked
    case Read(ok) => AfterRead(c.op, ok, ContentsOf(s.disk))
    case PrintMap(order) => Printed(Print(order, c.pc.entries))
    case Create(id) => InTemp(Created, id, c.pc.data)
    case WriteData => c.pc.(stage := Wrote)
    case Chmod => c.pc.(stage := Chmodded)
    case Sync => c.pc.(stage := Synced)
    case Close => c.pc.(stage := Closed)
    case Rename => Finished(Done)
    case Fail(_) => if c.pc.InTemp? then Cleanup(c.pc.id) else Finished(Failed(InputOutput))
    case Remove(_) => Finished(Failed(InputOutput))
  }

  ghost function NextDisk(s: Sys, c: Call, k: Move): Disk
    requires Valid(s.disk) && CanMove(s, c, k)
  {
    match k
    case Create(id) => CreateTemp(s.disk, id)
    case WriteData => WriteTemp(s.disk, c.pc.id, c.pc.data)
    case Sync => SyncTemp(s.disk, c.pc.id)
    case Rename => RenameTemp(s.disk, c.pc.id)
    case Fail(n) =>
      if c.pc.InTemp? && c.pc.stage == Created then WriteTemp(s.disk, c.pc.id, Written(c.pc.data, Partial(n)))
      else s.disk
    case Remove(ok) => if ok then RemoveTemp(s.disk, c.pc.id) else s.disk
    case _ => s.disk
  }

  function LastIndex(h: seq<Contents>, c: Contents): (i: nat)
    requires c in h
    ensures i < |h| && h[i] == c
  {
    if h[|h| - 1] == c then |h| - 1 else LastIndex(h[..|h| - 1], c)
  }

  ghost function Next(s: Sys, a: Action): Sys
    requires Enabled(s, a)
  {
    match a
    case Invoke(t, store, op) => s.(calls := s.calls[t := Call(store, op, Called, 0)])
    case Do(t, k) =>
      var c := s.calls[t];
      Sys(NextDisk(s, c, k),
          if k.Lock? then s.locks[c.store := t] else s.locks,
          s.calls[t := c.(pc := NextPc(s, c, k), read := if k.Read? then |s.log| else c.read)],
          if k.Rename? then s.log + [c.op] else s.log,
          if k.Rename? then s.marks + [Mark(c.store, c.read)] else s.marks,
          if k.Rename? then s.history + [Some(c.pc.data)] else s.history)
    case Return(t) =>
      var store := s.calls[t].store;
      s.(calls := s.calls - {t},
         locks := if store in s.locks && s.locks[store] == t then s.locks - {store} else s.locks)
    case Crash(after) =>
      // After a restart the record is cut back to the update the file is at.
      var c := ContentsOf(after);
      if c in s.history then
        var j := LastIndex(s.history, c);
        Sys(after, map[], map[], if j <= |s.log| then s.log[..j] else s.log, if j <= |s.marks| then s.marks[..j] else s.marks,
            s.history[..j + 1])
      else Sys(after, map[], map[], [], [], [c])
  }

  ghost predicate Runs(s: Sys, actions: seq<Action>)
    decreases |actions|
  {
    actions == [] || (Enabled(s, actions[0]) && Runs(Next(s, actions[0]), actions[1..]))
  }

  ghost function Exec(s: Sys, actions: seq<Action>): Sys
    requires Runs(s, actions)
    decreases |actions|
  {
    if actions == [] then s else Exec(Next(s, actions[0]), actions[1..])
  }

  /** A freshly started system: nobody is calling, and what is on disk is what a restart found. */
  ghost predicate Start(s: Sys) {
    && Valid(s.disk) && Recovers(s.disk, s.disk)
    && s == Sys(s.disk, map[], map[], [], [], [ContentsOf(s.disk)])
  }

  // ---- What every step keeps, with any number of stores ----

  predicate HasTemp(pc: Pc) {
    pc.InTemp? || pc.Cleanup?
  }

  /** The temporary file of a call is private, and holds what its stage says. */
  ghost predicate TempOk(d: Disk, pc: Pc) {
    HasTemp(pc) ==>
      && pc.id in d.inodes && Some(pc.id) !in d.past
      && (pc.InTemp? && pc.stage != Created ==> d.inodes[pc.id].data == pc.data)
      && (pc.InTemp? && (pc.stage == Synced || pc.stage == Closed) ==> d.inodes[pc.id].synced)
  }

  ghost predicate TempsOk(s: Sys) {
    && (forall t :: t in s.calls ==> TempOk(s.disk, s.calls[t].pc))
    && (forall t, u :: t in s.calls && u in s.calls && t != u && HasTemp(s.calls[t].pc) && HasTemp(s.calls[u].pc) ==>
          s.calls[t].pc.id != s.calls[u].pc.id)
  }

  /** Whatever a crash may bring back is synced and was once the complete file. */
  ghost predicate PastOk(d: Disk, history: seq<Contents>) {
    forall b :: b in d.past ==>
      match b
      case None => None in history
      case Some(i) => i in d.inodes && d.inodes[i].synced && Some(d.inodes[i].data) in history
  }

  predicate Critical(pc: Pc) {
    !pc.Called? && !pc.Finished?
  }

  /** What a call has read, and is about to write, is about the file as it is in `now`. */
  ghost predicate Current(now: Contents, c: Call) {
    && (Critical(c.pc) ==> !Refused(c.op))
    && (c.pc.Updating? ==> !c.op.Load? && Parses(now) && c.pc.entries == Apply(c.op, PinsIn(now)))
    && (c.pc.Printed? || c.pc.InTemp? ==>
          !c.op.Load? && Parses(now) && Serializes(c.pc.data, Apply(c.op, PinsIn(now))))
  }

  predicate PastRead(pc: Pc) {
    Critical(pc) && !pc.Locked?
  }

  /** What a call has read, and is about to write, is about the file as it was when the call read it. */
  ghost predicate CurrentAtRead(history: seq<Contents>, c: Call) {
    && (Critical(c.pc) ==> !Refused(c.op))
    && (PastRead(c.pc) ==> c.read < |history| && Current(history[c.read], c))
  }

  /** The `k`-th file is exactly what the update logged for it makes of the file its call had read. */
  ghost predicate CommittedFromRead(log: seq<Op>, marks: seq<Mark>, history: seq<Contents>, k: nat)
    requires 0 < k <= |log| == |marks| && |history| == |log| + 1
  {
    marks[k - 1].base < k && Atomic(log[k - 1], history[marks[k - 1].base], history[k], Done)
  }

  ghost predicate OutputsOk(s: Sys)
    requires |s.history| == |s.log| + 1 && |s.marks| == |s.log|
  {
    && (forall t :: t in s.calls ==> CurrentAtRead(s.history, s.calls[t]))
    && (forall k: nat :: 0 < k <= |s.log| ==> CommittedFromRead(s.log, s.marks, s.history, k))
  }

  ghost predicate Inv(s: Sys) {
    && Valid(s.disk)
    && |s.history| == |s.log| + 1 && |s.marks| == |s.log|
    && ContentsOf(s.disk) == s.history[|s.log|]
    && PastOk(s.disk, s.history)
    && TempsOk(s)
    && OutputsOk(s)
  }

  lemma StartInv(s: Sys)
    requires Start(s)
    ensures Inv(s) && Exclusive(s) && IntrudersElsewhere(s) && LocksHeld(s)
  {
  }

  /** Any step but the rename leaves the path, and what a crash brings back, as they were, and no
      call touches another's temporary file. */
  lemma MoveDisk(s: Sys, t: Tid, k: Move)
    requires Inv(s) && t in s.calls && CanMove(s, s.calls[t], k) && !k.Rename?
    ensures var d, pc := NextDisk(s, s.calls[t], k), NextPc(s, s.calls[t], k);
            && Valid(d) && ContentsOf(d) == ContentsOf(s.disk) && d.past == s.disk.past
            && (forall i :: Some(i) in d.past ==> i in d.inodes && d.inodes[i] == s.disk.inodes[i])
            && TempOk(d, pc)
            && (forall u :: u in s.calls && u != t ==> TempOk(d, s.calls[u].pc))
            && (forall u :: u in s.calls && u != t && HasTemp(s.calls[u].pc) && HasTemp(pc) ==> s.calls[u].pc.id != pc.id)
  {
    hide ParseContents, Lookup, Refused, IsOrder, Print, OutputsOk, PastOk, Apply;
  }

  lemma RenameDisk(s: Sys, t: Tid)
    requires Inv(s) && t in s.calls && CanMove(s, s.calls[t], Rename)
    ensures var d, data := RenameTemp(s.disk, s.calls[t].pc.id), s.calls[t].pc.data;
            && Valid(d) && ContentsOf(d) == Some(data)
            && PastOk(d, s.history + [Some(data)])
            && TempOk(d, Finished(Done))
            && (forall u :: u in s.calls && u != t ==> TempOk(d, s.calls[u].pc))
  {
    hide Refused, IsOrder, OutputsOk;
    assert TempOk(s.disk, s.calls[t].pc);
  }

  lemma IdleIsCurrent(now: Contents, c: Call)
    requires !PastRead(c.pc) && (Critical(c.pc) ==> !Refused(c.op))
    ensures Current(now, c)
  {
  }

  /** A move keeps what its call has read current, and its read makes it so; a rename is the update it logs. */
  lemma MoveCurrent(s: Sys, t: Tid, k: Move, now: Contents)
    requires Enabled(s, Do(t, k)) && Current(now, s.calls[t])
    ensures !k.Rename? ==>
              Current(if k.Read? then ContentsOf(s.disk) else now, Next(s, Do(t, k)).calls[t])
    ensures k.Rename? ==> Atomic(s.calls[t].op, now, Some(s.calls[t].pc.data), Done)
  {
    hide Parse, Lookup, TrimSpace, Print, Apply, Valid, ContentsOf;
    if k.PrintMap? {
      assert Serializes(Print(k.order, s.calls[t].pc.entries), s.calls[t].pc.entries);
    }
  }

  /** A longer record still shows what was read. */
  lemma ReadStays(history: seq<Contents>, more: seq<Contents>, c: Call)
    requires CurrentAtRead(history, c) && history <= more
    ensures CurrentAtRead(more, c)
  {
    hide Current;
    if PastRead(c.pc) {
      assert more[c.read] == history[c.read];
    }
  }

  lemma CommittedPrefix(s: Sys, s': Sys, k: nat)
    requires 0 < k <= |s.log| == |s.marks| && |s.history| == |s.log| + 1
    requires k <= |s'.log| == |s'.marks| && |s'.history| == |s'.log| + 1
    requires CommittedFromRead(s.log, s.marks, s.history, k)
    requires s.log[..k] == s'.log[..k] && s.marks[..k] == s'.marks[..k] && s.history[..k + 1] == s'.history[..k + 1]
    ensures CommittedFromRead(s'.log, s'.marks, s'.history, k)
  {
    hide Atomic;
    var j := s.marks[k - 1].base;
    assert s.log[..k][k - 1] == s'.log[..k][k - 1] && s.marks[..k][k - 1] == s'.marks[..k][k - 1];
    assert s.history[..k + 1][k] == s'.history[..k + 1][k] && s.history[..k + 1][j] == s'.history[..k + 1][j];
  }

  /** The moving call itself. */
  lemma MoverOutput(s: Sys, t: Tid, k: Move)
    requires Inv(s) && Enabled(s, Do(t, k))
    ensures CurrentAtRead(Next(s, Do(t, k)).history, Next(s, Do(t, k)).calls[t])
    ensures k.Rename? ==> PastRead(s.calls[t].pc) && s.calls[t].pc.InTemp?
                          && Atomic(s.calls[t].op, s.history[s.calls[t].read], Some(s.calls[t].pc.data), Done)
  {
    hide NextDisk, PastOk, TempsOk, Atomic, CommittedFromRead, Valid, ParseContents, Lookup, TrimSpace, Print, Apply, ContentsOf, IsOrder, Fresh, Serializes;
    var c := s.calls[t];
    assert CurrentAtRead(s.history, c);
    if PastRead(c.pc) {
      MoveCurrent(s, t, k, s.history[c.read]);
    } else {
      IdleIsCurrent(ContentsOf(s.disk), c);
      MoveCurrent(s, t, k, ContentsOf(s.disk));
    }
  }

  lemma MoveOutputs(s: Sys, t: Tid, k: Move)
    requires Inv(s) && Enabled(s, Do(t, k))
    ensures var s' := Next(s, Do(t, k)); |s'.history| == |s'.log| + 1 && |s'.marks| == |s'.log|
    ensures OutputsOk(Next(s, Do(t, k)))
  {
    hide CanMove, NextPc, NextDisk, Refused, PastOk, TempsOk, CurrentAtRead, Atomic, CommittedFromRead, Valid;
    var s' := Next(s, Do(t, k));
    MoverOutput(s, t, k);
    forall u | u in s.calls && u != t ensures CurrentAtRead(s'.history, s'.calls[u]) {
      ReadStays(s.history, s'.history, s.calls[u]);
    }
    forall n: nat | 0 < n <= |s.log| ensures CommittedFromRead(s'.log, s'.marks, s'.history, n) {
      CommittedPrefix(s, s', n);
    }
    if k.Rename? {
      NewestFromRead(s, t);
    }
  }

  lemma NewestFromRead(s: Sys, t: Tid)
    requires Inv(s) && Enabled(s, Do(t, Rename))
    ensures var s' := Next(s, Do(t, Rename)); CommittedFromRead(s'.log, s'.marks, s'.history, |s.log| + 1)
  {
    MoverOutput(s, t, Rename);
    ReadInPast(s, t);
    hide Atomic, CanMove, NextDisk, NextPc, PastOk, TempsOk, OutputsOk, Refused, Valid;
  }

  lemma ReadInPast(s: Sys, t: Tid)
    requires Inv(s) && t in s.calls && PastRead(s.calls[t].pc)
    ensures s.calls[t].read < |s.history|
  {
    hide PastOk, TempsOk, CommittedFromRead, Valid, Current;
    assert CurrentAtRead(s.history, s.calls[t]);
  }

  lemma CrashOutputs(s: Sys, after: Disk)
    requires Inv(s) && Enabled(s, Crash(after))
    ensures var s' := Next(s, Crash(after)); |s'.history| == |s'.log| + 1 && |s'.marks| == |s'.log|
    ensures OutputsOk(Next(s, Crash(after)))
  {
    hide CommittedFromRead, TempsOk;
    CrashFindsHistory(s, after);
    var s' := Next(s, Crash(after));
    forall k: nat | 0 < k <= |s'.log| ensures CommittedFromRead(s'.log, s'.marks, s'.history, k) {
      CommittedPrefix(s, s', k);
    }
  }

  lemma InvMove(s: Sys, t: Tid, k: Move)
    requires Inv(s) && Enabled(s, Do(t, k)) && !k.Rename?
    ensures Inv(Next(s, Do(t, k)))
  {
    hide Refused, CanMove, NextPc, NextDisk, TempOk, OutputsOk;
    MoveOutputs(s, t, k);
    MoveDisk(s, t, k);
  }

  lemma InvRename(s: Sys, t: Tid)
    requires Inv(s) && Enabled(s, Do(t, Rename))
    ensures Inv(Next(s, Do(t, Rename)))
  {
    hide Refused, TempOk, OutputsOk, PastOk, IsOrder;
    MoveOutputs(s, t, Rename);
    RenameDisk(s, t);
  }

  lemma InvCrash(s: Sys, after: Disk)
    requires Inv(s) && Enabled(s, Crash(after))
    ensures Inv(Next(s, Crash(after)))
  {
    hide OutputsOk;
    CrashOutputs(s, after);
    CrashFindsHistory(s, after);
  }

  /** Every step of every call, and every crash, keeps the invariant. */
  lemma InvStep(s: Sys, a: Action)
    requires Inv(s) && Enabled(s, a)
    ensures Inv(Next(s, a))
  {
    match a
    case Invoke(t, store, op) =>
      hide Atomic, Current, CommittedFromRead;
    case Return(t) =>
      hide CurrentAtRead, CommittedFromRead;
    case Do(t, k) =>
      hide Next, Enabled, Inv;
      if k.Rename? {
        InvRename(s, t);
      } else {
        InvMove(s, t, k);
      }
    case Crash(after) =>
      hide Next, Enabled, Inv;
      InvCrash(s, after);
  }

  /** A crash at any moment brings back a file that the path held, complete, after some prefix of the
      updates committed so far. */
  lemma CrashFindsHistory(s: Sys, after: Disk)
    requires Inv(s) && Recovers(s.disk, after)
    ensures exists j :: 0 <= j <= |s.log| && ContentsOf(after) == s.history[j]
  {
    var c := ContentsOf(after);
    assert c in s.history;
  }

  // ---- One store: the mutex makes every call atomic ----

  /** Every call is on the same store, and only the holder of its mutex is past the lock. */
  ghost predicate Mutex(s: Sys) {
    && (forall t :: t in s.calls ==> s.calls[t].store == 0)
    && (forall t :: t in s.calls && Critical(s.calls[t].pc) ==> 0 in s.locks && s.locks[0] == t)
  }

  /** Each update was applied to the file the one before it left. */
  ghost predicate Chain(log: seq<Op>, history: seq<Contents>) {
    && |history| == |log| + 1
    && forall k :: 0 <= k < |log| ==> Atomic(log[k], history[k], history[k + 1], Done)
  }

  ghost predicate InvOne(s: Sys) {
    && Inv(s)
    && Mutex(s)
    && (forall t :: t in s.calls ==> Current(ContentsOf(s.disk), s.calls[t]))
    && Chain(s.log, s.history)
  }

  predicate OnOneStore(a: Action) {
    a.Invoke? ==> a.store == 0
  }

  lemma MutexStep(s: Sys, a: Action)
    requires Mutex(s) && Enabled(s, a) && OnOneStore(a)
    ensures Mutex(Next(s, a))
  {
    hide ParseContents, Lookup, Refused, Print, Apply, IsOrder, Valid, Recovers, NextDisk, ContentsOf;
  }

  lemma InvOneMove(s: Sys, t: Tid, k: Move)
    requires InvOne(s) && Enabled(s, Do(t, k))
    ensures InvOne(Next(s, Do(t, k)))
  {
    hide Refused, CanMove, NextPc, NextDisk, Atomic, Current, Serializes, OutputsOk, TempsOk, PastOk, Valid, ContentsOf;
    InvStep(s, Do(t, k));
    MutexStep(s, Do(t, k));
    MoveCurrent(s, t, k, ContentsOf(s.disk));
    var s' := Next(s, Do(t, k));
    if k.Rename? {
      RenameDisk(s, t);
      RenameExclusive(s, t);
    } else {
      MoveDisk(s, t, k);
    }
  }

  /** At a rename nobody else has read the file and not yet finished with it. */
  lemma RenameExclusive(s: Sys, t: Tid)
    requires Mutex(s) && Enabled(s, Do(t, Rename))
    ensures forall u, now :: u in s.calls && u != t ==> Current(now, s.calls[u])
    ensures forall now :: Current(now, s.calls[t].(pc := Finished(Done)))
    ensures NextPc(s, s.calls[t], Rename) == Finished(Done)
    ensures NextDisk(s, s.calls[t], Rename) == RenameTemp(s.disk, s.calls[t].pc.id)
  {
    hide Current, Valid, RenameTemp, IsOrder, Refused;
    forall u, now | u in s.calls && u != t ensures Current(now, s.calls[u]) {
      IdleIsCurrent(now, s.calls[u]);
    }
    forall now ensures Current(now, s.calls[t].(pc := Finished(Done))) {
      IdleIsCurrent(now, s.calls[t].(pc := Finished(Done)));
    }
  }

  lemma InvOneStep(s: Sys, a: Action)
    requires InvOne(s) && Enabled(s, a) && OnOneStore(a)
    ensures InvOne(Next(s, a))
  {
    hide Serializes, Atomic, ParseContents, TrimSpace;
    match a
    case Do(t, k) =>
      hide Next, Enabled, InvOne;
      InvOneMove(s, t, k);
    case Invoke(t, store, op) =>
      hide Inv;
      InvStep(s, a);
      MutexStep(s, a);
    case Return(t) =>
      hide Inv;
      InvStep(s, a);
      MutexStep(s, a);
    case Crash(after) =>
      InvStep(s, a);
      MutexStep(s, a);
      CrashFindsHistory(s, after);
  }

  // ---- Linearizability ----

  /** The atomic store: a call is pending until, in one instant, it takes effect and gets its reply. */
  datatype AtomicCall = Pending(op: Op) | Replied(op: Op, reply: Reply)

  datatype AtomicStore = AtomicStore(contents: Contents, calls: map<Tid, AtomicCall>)

  ghost predicate Arrives(x: AtomicStore, y: AtomicStore, t: Tid, op: Op) {
    t !in x.calls && y == AtomicStore(x.contents, x.calls[t := Pending(op)])
  }

  ghost predicate TakesEffect(x: AtomicStore, y: AtomicStore, t: Tid, reply: Reply) {
    && t in x.calls && x.calls[t].Pending?
    && Atomic(x.calls[t].op, x.contents, y.contents, reply)
    && y.calls == x.calls[t := Replied(x.calls[t].op, reply)]
  }

  ghost predicate Leaves(x: AtomicStore, y: AtomicStore, t: Tid) {
    t in x.calls && x.calls[t].Replied? && y == AtomicStore(x.contents, x.calls - {t})
  }

  ghost predicate AtomicNext(x: AtomicStore, y: AtomicStore) {
    || x == y
    || (exists t, op :: Arrives(x, y, t, op))
    || (exists t, reply :: TakesEffect(x, y, t, reply))
    || (exists t :: Leaves(x, y, t))
  }

  function AbsCall(c: Call): AtomicCall {
    if c.pc.Finished? then Replied(c.op, c.pc.reply) else Pending(c.op)
  }

  ghost function Abs(s: Sys): AtomicStore
    requires Valid(s.disk)
  {
    AtomicStore(ContentsOf(s.disk), map t | t in s.calls :: AbsCall(s.calls[t]))
  }

  /** A move that finishes a call does in one instant what the operation does alone. */
  lemma FinishingMove(s: Sys, t: Tid, k: Move)
    requires InvOne(s) && Enabled(s, Do(t, k))
    ensures var pc := NextPc(s, s.calls[t], k);
            pc.Finished? ==>
              && !s.calls[t].pc.Finished?
              && Atomic(s.calls[t].op, ContentsOf(s.disk),
                        if k.Rename? then Some(s.calls[t].pc.data) else ContentsOf(s.disk), pc.reply)
  {
    hide Parse, TrimSpace, Print, Serializes, Apply, Valid, ContentsOf, Inv, Chain, Mutex, IsOrder, RenameTemp;
    MoveCurrent(s, t, k, ContentsOf(s.disk));
  }

  /** Every step of any interleaving on one store is a step of the atomic store, or no step at all. */
  lemma StepRefines(s: Sys, a: Action)
    requires InvOne(s) && Enabled(s, a) && !a.Crash?
    ensures Valid(Next(s, a).disk) && AtomicNext(Abs(s), Abs(Next(s, a)))
  {
    hide Atomic, Valid, ContentsOf, InvOne, Inv;
    match a
    case Invoke(t, store, op) =>
      assert Abs(Next(s, a)).calls == Abs(s).calls[t := Pending(op)];
      assert Arrives(Abs(s), Abs(Next(s, a)), t, op);
    case Return(t) =>
      assert Abs(Next(s, a)).calls == Abs(s).calls - {t};
      assert Leaves(Abs(s), Abs(Next(s, a)), t);
    case Do(t, k) =>
      hide Next, Abs, AtomicNext;
      MoveRefines(s, t, k);
  }

  lemma MoveRefines(s: Sys, t: Tid, k: Move)
    requires InvOne(s) && Enabled(s, Do(t, k))
    ensures Valid(Next(s, Do(t, k)).disk) && AtomicNext(Abs(s), Abs(Next(s, Do(t, k))))
  {
    hide Refused, CanMove, NextPc, NextDisk, Atomic, Current, OutputsOk, TempsOk, PastOk, Valid, ContentsOf, Chain, Mutex;
    FinishingMove(s, t, k);
    if k.Rename? {
      RenameMove(s, t);
      RenameDisk(s, t);
    } else {
      MoveDisk(s, t, k);
    }
    var s' := Next(s, Do(t, k));
    var pc := NextPc(s, s.calls[t], k);
    assert Abs(s').calls == Abs(s).calls[t := AbsCall(s.calls[t].(pc := pc))];
    if pc.Finished? {
      assert TakesEffect(Abs(s), Abs(s'), t, pc.reply);
    } else {
      NotFinishedBefore(s, t, k);
      assert Abs(s').calls == Abs(s).calls;
    }
  }

  lemma RenameMove(s: Sys, t: Tid)
    requires Valid(s.disk) && Enabled(s, Do(t, Rename))
    ensures NextPc(s, s.calls[t], Rename) == Finished(Done)
    ensures NextDisk(s, s.calls[t], Rename) == RenameTemp(s.disk, s.calls[t].pc.id)
  {
    hide Valid, RenameTemp, IsOrder, Refused;
  }

  lemma NotFinishedBefore(s: Sys, t: Tid, k: Move)
    requires Valid(s.disk) && Enabled(s, Do(t, k))
    ensures !s.calls[t].pc.Finished?
  {
    hide Valid, IsOrder, Refused, Fresh;
  }

  // ---- Whole runs ----

  /** With any number of stores, and failures and crashes anywhere: the file is at every moment the first one
      or exactly what one update, the one logged last, makes of the file that its call had read; and the same
      holds of every file on the way. */
  lemma {:induction false} AnyRunKeepsFileWhole(s: Sys, actions: seq<Action>)
    requires Inv(s) && Runs(s, actions)
    ensures Inv(Exec(s, actions))
    ensures Exec(s, actions).history[0] == s.history[0]
    ensures var e := Exec(s, actions);
            && ContentsOf(e.disk) == e.history[|e.log|]
            && forall k: nat :: 0 < k <= |e.log| ==> CommittedFromRead(e.log, e.marks, e.history, k)
    decreases |actions|
  {
    hide Enabled, CurrentAtRead, CommittedFromRead, TempsOk, PastOk, Valid;
    if actions != [] {
      InvStep(s, actions[0]);
      FirstKept(s, actions[0]);
      AnyRunKeepsFileWhole(Next(s, actions[0]), actions[1..]);
    }
  }

  /** A step never touches the start of the record, and only a crash shortens it, to a prefix. */
  lemma FirstKept(s: Sys, a: Action)
    requires Inv(s) && Enabled(s, a)
    ensures Next(s, a).history[0] == s.history[0]
    ensures if a.Crash? then Next(s, a).log <= s.log && Next(s, a).history <= s.history
            else s.log <= Next(s, a).log && s.history <= Next(s, a).history
  {
    hide CanMove, NextPc, NextDisk, CurrentAtRead, CommittedFromRead, TempsOk;
    InvStep(s, a);
    if a.Crash? {
      CrashFindsHistory(s, a.after);
    }
  }

  /** Along the run, every step but a crash is a step of the atomic store; a crash loses the calls in
      progress and resumes from the file of some earlier moment. */
  ghost predicate RunRefines(s: Sys, actions: seq<Action>)
    requires Runs(s, actions)
    decreases |actions|
  {
    actions == [] ||
    var s' := Next(s, actions[0]);
    && Valid(s'.disk)
    && (if actions[0].Crash? then Abs(s') == AtomicStore(Abs(s').contents, map[]) && Abs(s').contents in s.history
        else AtomicNext(Abs(s), Abs(s')))
    && RunRefines(s', actions[1..])
  }

  /** Any interleaving of any calls on one store, with failures and crashes anywhere, is a run of the
      atomic store. */
  lemma {:induction false} OneStoreLinearizable(s: Sys, actions: seq<Action>)
    requires InvOne(s) && Runs(s, actions)
    requires forall i :: 0 <= i < |actions| ==> OnOneStore(actions[i])
    ensures InvOne(Exec(s, actions))
    ensures RunRefines(s, actions)
    decreases |actions|
  {
    hide InvOne, AtomicNext, Enabled, OnOneStore;
    if actions != [] {
      var a := actions[0];
      InvOneStep(s, a);
      if a.Crash? {
        CrashRefines(s, a.after);
      } else {
        StepRefines(s, a);
      }
      OneStoreLinearizable(Next(s, a), actions[1..]);
    }
  }

  lemma CrashRefines(s: Sys, after: Disk)
    requires InvOne(s) && Enabled(s, Crash(after))
    ensures Valid(Next(s, Crash(after)).disk)
    ensures var x := Abs(Next(s, Crash(after))); x == AtomicStore(x.contents, map[]) && x.contents in s.history
  {
    CrashFindsHistory(s, after);
  }

  /** The plain map after the given updates. */
  function ReplayLog(m: Pins, log: seq<Op>): Pins {
    if log == [] then m else Apply(log[|log| - 1], ReplayLog(m, log[..|log| - 1]))
  }

  /** Along a chain of updates under safe names, each file holds exactly the map after the updates up
      to it, written out in full. */
  lemma {:induction false} ChainReplays(log: seq<Op>, history: seq<Contents>, j: nat)
    requires Chain(log, history) && Parses(history[0]) && j <= |log|
    requires forall k :: 0 <= k < |log| ==> SafeOp(log[k])
    ensures Parses(history[j]) && PinsIn(history[j]) == ReplayLog(PinsIn(history[0]), log[..j])
    ensures j > 0 ==> history[j].Some? && Serializes(history[j].value, ReplayLog(PinsIn(history[0]), log[..j]))
  {
    hide Parse, Serializes, SafeName, TrimSpace, Apply;
    if j > 0 {
      ChainReplays(log, history, j - 1);
      assert log[..j][..j - 1] == log[..j - 1];
      assert Atomic(log[j - 1], history[j - 1], history[j - 1 + 1], Done);
      SafeStep(log[j - 1], history[j - 1], history[j], Done);
    }
  }

  predicate SafeAction(a: Action) {
    a.Invoke? ==> SafeOp(a.op)
  }

  ghost predicate OnlySafe(s: Sys) {
    && (forall t :: t in s.calls ==> SafeOp(s.calls[t].op))
    && (forall k :: 0 <= k < |s.log| ==> SafeOp(s.log[k]))
  }

  lemma {:induction false} RunStaysSafe(s: Sys, actions: seq<Action>)
    requires Inv(s) && Runs(s, actions) && OnlySafe(s)
    requires forall i :: 0 <= i < |actions| ==> SafeAction(actions[i])
    ensures OnlySafe(Exec(s, actions))
    decreases |actions|
  {
    hide SafeOp, Inv, Valid;
    if actions != [] {
      InvStep(s, actions[0]);
      OnlySafeStep(s, actions[0]);
      RunStaysSafe(Next(s, actions[0]), actions[1..]);
    }
  }

  lemma OnlySafeStep(s: Sys, a: Action)
    requires Inv(s) && Enabled(s, a) && OnlySafe(s) && SafeAction(a)
    ensures OnlySafe(Next(s, a))
  {
    hide SafeOp, CanMove, NextPc, NextDisk, OutputsOk, TempsOk;
    FirstKept(s, a);
  }

  /** The `k`-th file is written out in full for the map that the update logged for it makes of the map in
      the file its call had read. */
  ghost predicate MapFromRead(s: Sys, k: nat)
    requires 0 < k <= |s.log| == |s.marks| && |s.history| == |s.log| + 1
    requires forall i :: 0 <= i < |s.history| ==> Parses(s.history[i])
  {
    && s.marks[k - 1].base < k
    && PinsIn(s.history[k]) == Apply(s.log[k - 1], PinsIn(s.history[s.marks[k - 1].base]))
    && s.history[k].Some? && Serializes(s.history[k].value, PinsIn(s.history[k]))
  }

  lemma {:induction false} EarlierParses(s: Sys, k: nat)
    requires |s.history| == |s.log| + 1 && |s.marks| == |s.log| && k <= |s.log| && Parses(s.history[0])
    requires forall i: nat :: 0 < i <= |s.log| ==> CommittedFromRead(s.log, s.marks, s.history, i)
    requires forall i :: 0 <= i < |s.log| ==> SafeOp(s.log[i])
    ensures forall i :: 0 <= i <= k ==> Parses(s.history[i])
  {
    hide ParseContents, Atomic, SafeOp;
    if k > 0 {
      EarlierParses(s, k - 1);
      assert CommittedFromRead(s.log, s.marks, s.history, k);
      SafeStep(s.log[k - 1], s.history[s.marks[k - 1].base], s.history[k], Done);
    }
  }

  lemma FullyWritten(op: Op, before: Contents, after: Contents)
    requires Atomic(op, before, after, Done) && Parses(before) && SafeOp(op)
    ensures Parses(after) && PinsIn(after) == Apply(op, PinsIn(before))
    ensures after.Some? && Serializes(after.value, PinsIn(after))
  {
    SafeStep(op, before, after, Done);
    hide Parse, TrimSpace, Serializes, SafeOp, Apply;
  }

  /** Under safe names, with any number of stores, failures and crashes, the file never becomes unreadable:
      each file, also the one that a further crash leaves, holds what one update makes of the map in the file
      that its call had read. */
  lemma SafeNamesKeepFileReadable(s: Sys, actions: seq<Action>, after: Disk)
    requires Start(s) && Parses(ContentsOf(s.disk)) && Runs(s, actions)
    requires forall i :: 0 <= i < |actions| ==> SafeAction(actions[i])
    ensures var e := Exec(s, actions);
            && Inv(e)
            && (forall k :: 0 <= k < |e.history| ==> Parses(e.history[k]))
            && (forall k: nat :: 0 < k <= |e.log| ==> MapFromRead(e, k))
            && (Recovers(e.disk, after) ==> ContentsOf(after) in e.history)
  {
    StartInv(s);
    hide ParseContents, SafeOp, Enabled, CurrentAtRead, CommittedFromRead, MapFromRead, TempsOk, PastOk, Recovers;
    AnyRunKeepsFileWhole(s, actions);
    RunStaysSafe(s, actions);
    var e := Exec(s, actions);
    EarlierParses(e, |e.log|);
    forall k: nat | 0 < k <= |e.log| ensures MapFromRead(e, k) {
      MapFromReadAt(e, k);
    }
    if Recovers(e.disk, after) {
      CrashFindsHistory(e, after);
    }
  }

  lemma MapFromReadAt(s: Sys, k: nat)
    requires 0 < k <= |s.log| == |s.marks| && |s.history| == |s.log| + 1
    requires CommittedFromRead(s.log, s.marks, s.history, k)
    requires forall i :: 0 <= i < |s.history| ==> Parses(s.history[i])
    requires SafeOp(s.log[k - 1])
    ensures MapFromRead(s, k)
  {
    hide ParseContents, SafeOp, Atomic;
    FullyWritten(s.log[k - 1], s.history[s.marks[k - 1].base], s.history[k]);
  }

  /** Crash consistency and no lost update: start from a file that parses, run any interleaving of
      calls under safe names on one store, with any failures and crashes, and crash once more or not.
      The file found is byte for byte the complete output for the map after some prefix of the
      committed updates, or the untouched first file; without the last crash the prefix is all of
      them. */
  lemma CrashConsistency(s: Sys, actions: seq<Action>, after: Disk)
    requires Start(s) && Parses(ContentsOf(s.disk)) && Runs(s, actions)
    requires forall i :: 0 <= i < |actions| ==> SafeAction(actions[i]) && OnOneStore(actions[i])
    ensures var e, m := Exec(s, actions), PinsIn(ContentsOf(s.disk));
            && Inv(e)
            && Parses(ContentsOf(e.disk)) && PinsIn(ContentsOf(e.disk)) == ReplayLog(m, e.log)
            && (Recovers(e.disk, after) ==>
                  exists j :: 0 <= j <= |e.log| && ContentsOf(after) == e.history[j]
                    && Parses(e.history[j]) && PinsIn(e.history[j]) == ReplayLog(m, e.log[..j])
                    && (if j == 0 then e.history[j] == ContentsOf(s.disk)
                        else e.history[j].Some? && Serializes(e.history[j].value, ReplayLog(m, e.log[..j]))))
  {
    StartInv(s);
    hide Parse, Serializes, SafeName, TrimSpace, Apply, Enabled, OutputsOk, TempsOk, PastOk, Recovers, ReplayLog;
    AnyRunKeepsFileWhole(s, actions);
    OneStoreLinearizable(s, actions);
    RunStaysSafe(s, actions);
    var e := Exec(s, actions);
    ChainReplays(e.log, e.history, |e.log|);
    assert e.log[..|e.log|] == e.log;
    if Recovers(e.disk, after) {
      CrashFindsHistory(e, after);
      var j :| 0 <= j <= |e.log| && ContentsOf(after) == e.history[j];
      ChainReplays(e.log, e.history, j);
    }
  }

  // ---- Which updates get lost ----

  /** Whoever is past the lock holds the mutex of its own store. */
  ghost predicate Exclusive(s: Sys) {
    forall t :: t in s.calls && Critical(s.calls[t].pc) ==>
      s.calls[t].store in s.locks && s.locks[s.calls[t].store] == t
  }

  /** No update committed from number `base` on was made on this store. */
  predicate NoneSince(marks: seq<Mark>, base: nat, store: StoreId) {
    forall j :: base <= j < |marks| ==> marks[j].store != store
  }

  /** What was committed between a call's read and its own commit was committed on other stores. */
  ghost predicate IntrudersElsewhere(s: Sys) {
    && (forall t :: t in s.calls && PastRead(s.calls[t].pc) ==> NoneSince(s.marks, s.calls[t].read, s.calls[t].store))
    && (forall k :: 0 <= k < |s.marks| ==> NoneSince(s.marks[..k], s.marks[k].base, s.marks[k].store))
  }

  lemma ExclusiveStep(s: Sys, a: Action)
    requires Exclusive(s) && Enabled(s, a)
    ensures Exclusive(Next(s, a))
  {
    hide ParseContents, Lookup, Refused, Print, Apply, IsOrder, Valid, Recovers, NextDisk, ContentsOf;
  }

  /** Only the rename commits, and a call that renames is past its read. */
  lemma MoverReads(s: Sys, t: Tid, k: Move)
    requires Enabled(s, Do(t, k))
    ensures k.Rename? ==> PastRead(s.calls[t].pc) && !PastRead(NextPc(s, s.calls[t], k))
    ensures PastRead(NextPc(s, s.calls[t], k)) ==> k.Read? || PastRead(s.calls[t].pc)
  {
    hide ParseContents, Lookup, Refused, Print, Apply, IsOrder, Valid, ContentsOf, Fresh;
  }

  lemma IntrudersMove(s: Sys, t: Tid, k: Move)
    requires Inv(s) && Exclusive(s) && IntrudersElsewhere(s) && Enabled(s, Do(t, k))
    ensures IntrudersElsewhere(Next(s, Do(t, k)))
  {
    MoverReads(s, t, k);
    hide CanMove, NextPc, NextDisk, OutputsOk, TempsOk, PastOk, Valid;
    var s', c := Next(s, Do(t, k)), s.calls[t];
    forall u | u in s'.calls && PastRead(s'.calls[u].pc) ensures NoneSince(s'.marks, s'.calls[u].read, s'.calls[u].store) {
      if u != t {
        assert NoneSince(s.marks, s.calls[u].read, s.calls[u].store);
        assert k.Rename? ==> c.store != s.calls[u].store;
      } else if !k.Read? {
        assert NoneSince(s.marks, c.read, c.store);
      }
    }
    forall n | 0 <= n < |s'.marks| ensures NoneSince(s'.marks[..n], s'.marks[n].base, s'.marks[n].store) {
      if n < |s.marks| {
        assert s'.marks[..n] == s.marks[..n];
      } else {
        assert s'.marks[..n] == s.marks;
        assert NoneSince(s.marks, c.read, c.store);
      }
    }
  }

  lemma IntrudersStep(s: Sys, a: Action)
    requires Inv(s) && Exclusive(s) && IntrudersElsewhere(s) && Enabled(s, a)
    ensures IntrudersElsewhere(Next(s, a))
  {
    match a
    case Do(t, k) =>
      hide Next, Enabled, Inv, IntrudersElsewhere;
      IntrudersMove(s, t, k);
    case Crash(after) =>
      hide NoneSince, OutputsOk, TempsOk;
      CrashFindsHistory(s, after);
      var s' := Next(s, a);
      forall n | 0 <= n < |s'.marks| ensures NoneSince(s'.marks[..n], s'.marks[n].base, s'.marks[n].store) {
        assert s'.marks[..n] == s.marks[..n];
      }
    case _ => hide NoneSince, OutputsOk, TempsOk, PastOk, Valid;
  }

  /** The `k`-th update builds on the file just before it exactly when nothing was committed between its
      call's read and its commit, and whatever was committed there was committed on another store. */
  ghost predicate LosesOnlyOthers(s: Sys, k: nat)
    requires 0 < k <= |s.log| == |s.marks| && |s.history| == |s.log| + 1
  {
    var m := s.marks[k - 1];
    && CommittedFromRead(s.log, s.marks, s.history, k)
    && (forall j :: m.base <= j < k - 1 ==> s.marks[j].store != m.store)
    && (m.base == k - 1 <==> forall j :: 0 <= j < k - 1 && s.marks[j].store != m.store ==> j < m.base)
  }

  /** Over any run with any number of stores: an update is made to the file its call had read, and the updates
      that it does not build on are those that calls on other stores committed in between. So where all
      updates come from one store, each builds on the one before it and none is lost. */
  lemma {:induction false} OnlyOtherStoresAreLost(s: Sys, actions: seq<Action>)
    requires Inv(s) && Exclusive(s) && IntrudersElsewhere(s) && Runs(s, actions)
    ensures var e := Exec(s, actions);
            && Inv(e) && Exclusive(e) && IntrudersElsewhere(e)
            && (forall k: nat :: 0 < k <= |e.log| ==> LosesOnlyOthers(e, k))
            && ((forall i, j :: 0 <= i < j < |e.marks| ==> e.marks[i].store == e.marks[j].store) ==> Chain(e.log, e.history))
    decreases |actions|
  {
    if actions != [] {
      hide Enabled, Inv, Exclusive, IntrudersElsewhere, LosesOnlyOthers, Chain;
      InvStep(s, actions[0]);
      ExclusiveStep(s, actions[0]);
      IntrudersStep(s, actions[0]);
      OnlyOtherStoresAreLost(Next(s, actions[0]), actions[1..]);
    } else {
      hide LosesOnlyOthers, Chain, Exclusive, IntrudersElsewhere, Inv;
      RecordLengths(s);
      forall k: nat | 0 < k <= |s.log| ensures LosesOnlyOthers(s, k) {
        LosesOnlyOthersAt(s, k);
      }
      if forall i, j :: 0 <= i < j < |s.marks| ==> s.marks[i].store == s.marks[j].store {
        OneStoreChains(s);
      }
    }
  }

  lemma RecordLengths(s: Sys)
    requires Inv(s)
    ensures |s.marks| == |s.log| && |s.history| == |s.log| + 1
  {
  }

  lemma LosesOnlyOthersAt(s: Sys, k: nat)
    requires Inv(s) && IntrudersElsewhere(s) && 0 < k <= |s.log|
    ensures LosesOnlyOthers(s, k)
  {
    hide Atomic, TempsOk, PastOk, Valid, CurrentAtRead;
    assert CommittedFromRead(s.log, s.marks, s.history, k);
    var m := s.marks[k - 1];
    assert NoneSince(s.marks[..k - 1], m.base, m.store);
    forall j | m.base <= j < k - 1 ensures s.marks[j].store != m.store {
      assert s.marks[..k - 1][j] == s.marks[j];
    }
    if m.base < k - 1 {
      assert s.marks[k - 2].store != m.store;
    }
  }

  lemma OneStoreChains(s: Sys)
    requires Inv(s) && IntrudersElsewhere(s)
    requires forall i, j :: 0 <= i < j < |s.marks| ==> s.marks[i].store == s.marks[j].store
    ensures Chain(s.log, s.history)
  {
    hide Atomic, TempsOk, PastOk, Valid, CurrentAtRead, IntrudersElsewhere;
    forall k | 0 <= k < |s.log| ensures Atomic(s.log[k], s.history[k], s.history[k + 1], Done) {
      LosesOnlyOthersAt(s, k + 1);
      assert CommittedFromRead(s.log, s.marks, s.history, k + 1);
      assert k > 0 ==> s.marks[k - 1].store == s.marks[k].store;
    }
  }

  // ---- Nobody waits for ever ----

  /** Whoever holds a mutex is a call in progress on that store, past the lock. */
  ghost predicate LocksHeld(s: Sys) {
    forall store :: store in s.locks ==>
      && s.locks[store] in s.calls
      && s.calls[s.locks[store]].store == store
      && !s.calls[s.locks[store]].pc.Called?
  }

  lemma LocksHeldStep(s: Sys, a: Action)
    requires LocksHeld(s) && Enabled(s, a)
    ensures LocksHeld(Next(s, a))
  {
    hide ParseContents, Lookup, Refused, Print, Apply, IsOrder, Valid, Recovers, NextDisk, ContentsOf, Fresh;
  }

  /** What every step keeps, taken together. */
  ghost predicate Sound(s: Sys) {
    Inv(s) && Exclusive(s) && LocksHeld(s)
  }

  lemma SoundStep(s: Sys, a: Action)
    requires Sound(s) && Enabled(s, a)
    ensures Sound(Next(s, a))
  {
    InvStep(s, a);
    ExclusiveStep(s, a);
    LocksHeldStep(s, a);
  }

  lemma {:induction false} SoundRun(s: Sys, actions: seq<Action>)
    requires Sound(s) && Runs(s, actions)
    ensures Sound(Exec(s, actions))
    decreases |actions|
  {
    hide Sound, Enabled, Next;
    if actions != [] {
      SoundStep(s, actions[0]);
      SoundRun(Next(s, actions[0]), actions[1..]);
    }
  }

  /** A step of a call in progress in which no system call fails. */
  predicate Works(a: Action) {
    || a.Return?
    || (a.Do? && !a.move.Fail? && (a.move.Read? ==> a.move.ok) && (a.move.Remove? ==> a.move.ok))
  }

  /** How many moves a call has before it at most. */
  function StepsLeft(pc: Pc): nat {
    match pc
    case Called => 10
    case Locked => 9
    case Updating(_) => 8
    case Printed(_) => 7
    case InTemp(stage, _, _) =>
      (match stage case Created => 6 case Wrote => 5 case Chmodded => 4 case Synced => 3 case Closed => 2)
    case Cleanup(_) => 1
    case Finished(_) => 0
  }

  lemma SomeFresh(d: Disk) returns (id: nat)
    requires Valid(d)
    ensures Fresh(d, id)
  {
    var names := set n | n in d.dir && n.Temp? :: n.id;
    var ids := d.inodes.Keys + names;
    assert forall n :: n in d.dir && n.Temp? ==> n.id in names;
    id := AboveAll(ids);
    assert id !in ids;
  }

  lemma {:induction false} AboveAll(ids: set<nat>) returns (id: nat)
    ensures forall i :: i in ids ==> i < id
    decreases ids
  {
    id := 0;
    if ids != {} {
      var first :| first in ids;
      var rest := ids - {first};
      var above := AboveAll(rest);
      id := if first < above then above else first + 1;
      assert forall i :: i in ids ==> i == first || i in rest;
    }
  }

  /** A call that is not finished and does not wait for a mutex has a working move, which brings it closer to
      its end. */
  lemma CanAdvance(s: Sys, t: Tid) returns (k: Move)
    requires Inv(s) && t in s.calls && !s.calls[t].pc.Finished?
    requires s.calls[t].pc.Called? && !Refused(s.calls[t].op) ==> s.calls[t].store !in s.locks
    ensures CanMove(s, s.calls[t], k) && Works(Do(t, k))
    ensures StepsLeft(NextPc(s, s.calls[t], k)) < StepsLeft(s.calls[t].pc) && !NextPc(s, s.calls[t], k).Called?
  {
    hide ParseContents, Lookup, Print, Apply, IsOrder, ContentsOf, Refused, Fresh, OutputsOk, PastOk;
    var c := s.calls[t];
    match c.pc
    case Called => k := if Refused(c.op) then Refuse else Lock;
    case Locked => k := Read(true);
    case Updating(entries) =>
      var order := SomeOrder(entries);
      k := PrintMap(order);
    case Printed(data) =>
      var id := SomeFresh(s.disk);
      k := Create(id);
    case InTemp(stage, id, data) =>
      assert TempOk(s.disk, c.pc);
      k := match stage case Created => WriteData case Wrote => Chmod case Chmodded => Sync case Synced => Close case Closed => Rename;
    case Cleanup(id) => k := Remove(true);
  }

  /** A call that does not wait can be brought to its end alone. */
  lemma {:induction false} FinishAlone(s: Sys, t: Tid) returns (actions: seq<Action>)
    requires Sound(s) && t in s.calls
    requires s.calls[t].pc.Called? && !Refused(s.calls[t].op) ==> s.calls[t].store !in s.locks
    ensures Runs(s, actions) && forall i :: 0 <= i < |actions| ==> Works(actions[i])
    ensures Exec(s, actions).calls == s.calls - {t}
    decreases StepsLeft(s.calls[t].pc)
  {
    hide Inv, Exclusive, LocksHeld, CanMove, NextPc, NextDisk, Valid, Refused, StepsLeft, Runs, Exec;
    SoundIsValid(s);
    if s.calls[t].pc.Finished? {
      RunsNil(Next(s, Return(t)));
      RunsOne(s, Return(t), []);
      actions := [Return(t)] + [];
    } else {
      var k := CanAdvance(s, t);
      var s' := Next(s, Do(t, k));
      SoundStep(s, Do(t, k));
      var rest := FinishAlone(s', t);
      RunsOne(s, Do(t, k), rest);
      actions := [Do(t, k)] + rest;
      assert s'.calls - {t} == s.calls - {t};
    }
  }

  lemma SoundIsValid(s: Sys)
    requires Sound(s)
    ensures Valid(s.disk)
  {
    hide OutputsOk, TempsOk, PastOk;
  }

  /** Somebody does not wait: a holder of a mutex, or anyone when none is held. */
  lemma SomebodyMoves(s: Sys) returns (t: Tid)
    requires Sound(s) && s.calls != map[]
    ensures t in s.calls && (s.calls[t].pc.Called? && !Refused(s.calls[t].op) ==> s.calls[t].store !in s.locks)
  {
    hide Inv, Refused, Exclusive;
    if store :| store in s.locks {
      t := s.locks[store];
    } else {
      t :| t in s.calls;
    }
  }

  /** From every reachable state of any number of calls on any number of stores, the calls in progress can all
      be brought to their ends, by their own working steps alone; then no mutex is held. */
  lemma {:induction false} NobodyWaitsForEver(s: Sys) returns (actions: seq<Action>)
    requires Sound(s)
    ensures Runs(s, actions) && forall i :: 0 <= i < |actions| ==> Works(actions[i])
    ensures Exec(s, actions).calls == map[] && Exec(s, actions).locks == map[]
    decreases |s.calls|
  {
    hide Inv, Exclusive, Works, Runs, Exec, Refused;
    actions := [];
    if s.calls == map[] {
      RunsNil(s);
      assert s.locks == map[];
    } else {
      var t := SomebodyMoves(s);
      var first := FinishAlone(s, t);
      var s' := Exec(s, first);
      SoundRun(s, first);
      FewerCalls(s, t, s');
      var rest := NobodyWaitsForEver(s');
      RunsAppend(s, first, rest);
      actions := first + rest;
    }
  }

  lemma FewerCalls(s: Sys, t: Tid, s': Sys)
    requires t in s.calls && s'.calls == s.calls - {t}
    ensures |s'.calls| < |s.calls|
  {
    assert s'.calls.Keys == s.calls.Keys - {t};
  }

  // ---- Two stores on one path ----

  lemma {:induction false} RunsAppend(s: Sys, first: seq<Action>, second: seq<Action>)
    requires Runs(s, first) && Runs(Exec(s, first), second)
    ensures Runs(s, first + second) && Exec(s, first + second) == Exec(Exec(s, first), second)
    decreases |first|
  {
    hide Enabled, Next;
    if first == [] {
      assert first + second == second;
    } else {
      RunsAppend(Next(s, first[0]), first[1..], second);
      assert (first + second)[1..] == first[1..] + second;
    }
  }

  lemma RunsOne(s: Sys, a: Action, rest: seq<Action>)
    requires Enabled(s, a) && Runs(Next(s, a), rest)
    ensures Runs(s, [a] + rest) && Exec(s, [a] + rest) == Exec(Next(s, a), rest)
  {
    hide Enabled, Next;
    assert ([a] + rest)[1..] == rest;
  }

  /** `s` with call `t` at `pc` and the disk at `d`. */
  function At(s: Sys, t: Tid, d: Disk, pc: Pc): Sys
    requires t in s.calls
  {
    s.(disk := d, calls := s.calls[t := s.calls[t].(pc := pc)])
  }

  function CommitActions(t: Tid, order: seq<Bytes>, id: nat): seq<Action> {
    [Do(t, PrintMap(order))] + ([Do(t, Create(id))] + ([Do(t, WriteData)] + ([Do(t, Chmod)]
      + ([Do(t, Sync)] + ([Do(t, Close)] + ([Do(t, Rename)] + []))))))
  }

  /** A call left alone after its read commits the way the sequential code does: the disk ends up as
      `CommitDisk` says. */
  lemma SoloCommit(s: Sys, t: Tid, order: seq<Bytes>, id: nat)
    requires Valid(s.disk) && t in s.calls && s.calls[t].pc.Updating?
    requires IsOrder(order, s.calls[t].pc.entries) && Fresh(s.disk, id)
    ensures Runs(s, CommitActions(t, order, id))
    ensures var data := Print(order, s.calls[t].pc.entries);
            Exec(s, CommitActions(t, order, id)) ==
              At(s, t, CommitDisk(s.disk, id, data), Finished(Done)).(
                log := s.log + [s.calls[t].op], marks := s.marks + [Mark(s.calls[t].store, s.calls[t].read)],
                history := s.history + [Some(data)])
  {
    hide Print, Valid, CreateTemp, WriteTemp, SyncTemp, RenameTemp, Runs, Exec, Enabled, Next;
    var data := Print(order, s.calls[t].pc.entries);
    WorkingSteps(s.disk, id, data);
    var d1 := CreateTemp(s.disk, id);
    var d2 := WriteTemp(d1, id, data);
    var d3 := SyncTemp(d2, id);
    WorkIsInvisible(s.disk, d1, id, data);
    WorkIsInvisible(s.disk, d2, id, data);
    WorkIsInvisible(s.disk, d3, id, data);
    assert s == At(s, t, s.disk, s.calls[t].pc);
    SoloMove(s, t, s.disk, s.calls[t].pc, PrintMap(order));
    SoloMove(s, t, s.disk, Printed(data), Create(id));
    SoloMove(s, t, d1, InTemp(Created, id, data), WriteData);
    SoloMove(s, t, d2, InTemp(Wrote, id, data), Chmod);
    SoloMove(s, t, d2, InTemp(Chmodded, id, data), Sync);
    SoloMove(s, t, d3, InTemp(Synced, id, data), Close);
    SoloMove(s, t, d3, InTemp(Closed, id, data), Rename);
    var end := Next(At(s, t, d3, InTemp(Closed, id, data)), Do(t, Rename));
    RunsNil(end);
    RunsOne(At(s, t, d3, InTemp(Closed, id, data)), Do(t, Rename), []);
    var tail := [Do(t, Rename)] + [];
    RunsOne(At(s, t, d3, InTemp(Synced, id, data)), Do(t, Close), tail);
    tail := [Do(t, Close)] + tail;
    RunsOne(At(s, t, d2, InTemp(Chmodded, id, data)), Do(t, Sync), tail);
    tail := [Do(t, Sync)] + tail;
    RunsOne(At(s, t, d2, InTemp(Wrote, id, data)), Do(t, Chmod), tail);
    tail := [Do(t, Chmod)] + tail;
    RunsOne(At(s, t, d1, InTemp(Created, id, data)), Do(t, WriteData), tail);
    tail := [Do(t, WriteData)] + tail;
    RunsOne(At(s, t, s.disk, Printed(data)), Do(t, Create(id)), tail);
    tail := [Do(t, Create(id))] + tail;
    RunsOne(s, Do(t, PrintMap(order)), tail);
  }

  lemma RunsNil(s: Sys)
    ensures Runs(s, []) && Exec(s, []) == s
  {
  }

  lemma SoloMove(s: Sys, t: Tid, d: Disk, pc: Pc, k: Move)
    requires t in s.calls && Valid(d) && CanMove(At(s, t, d, pc), s.calls[t].(pc := pc), k) && !k.Lock? && !k.Read?
    ensures var x := At(s, t, d, pc);
            var c := s.calls[t].(pc := pc);
            && Enabled(x, Do(t, k))
            && Next(x, Do(t, k)) ==
                 At(s, t, NextDisk(x, c, k), NextPc(x, c, k)).(
                   log := if k.Rename? then s.log + [c.op] else s.log,
                   marks := if k.Rename? then s.marks + [Mark(c.store, c.read)] else s.marks,
                   history := if k.Rename? then s.history + [Some(pc.data)] else s.history)
  {
    hide CanMove, NextDisk, NextPc, Valid;
    var x := At(s, t, d, pc);
    assert x.calls[t] == s.calls[t].(pc := pc);
    var c := x.calls[t];
    assert x.calls[t := c.(pc := NextPc(x, c, k))] == s.calls[t := c.(pc := NextPc(x, c, k))];
  }

  /** Two goroutines on two stores: both lock their own mutex and read before either writes. */
  function BothRead(x: Bytes, p: Pin, y: Bytes, q: Pin): seq<Action> {
    [Invoke(0, 0, Save(x, p))] + ([Invoke(1, 1, Save(y, q))] + ([Do(0, Lock)] + ([Do(1, Lock)]
      + ([Do(0, Read(true))] + ([Do(1, Read(true))] + [])))))
  }

  lemma BothReadRuns(s: Sys, x: Bytes, p: Pin, y: Bytes, q: Pin)
    requires Start(s) && Parses(ContentsOf(s.disk))
    requires TrimSpace(x) != [] && TrimSpace(y) != []
    ensures Runs(s, BothRead(x, p, y, q))
    ensures var m := PinsIn(ContentsOf(s.disk));
            Exec(s, BothRead(x, p, y, q)) ==
              s.(locks := map[0 := 0, 1 := 1],
                 calls := map[0 := Call(0, Save(x, p), Updating(m[x := p]), 0), 1 := Call(1, Save(y, q), Updating(m[y := q]), 0)])
  {
    hide Parse, TrimSpace, Runs, Exec, Valid, ContentsOf;
    var m := PinsIn(ContentsOf(s.disk));
    var c0, c1 := Call(0, Save(x, p), Called, 0), Call(1, Save(y, q), Called, 0);
    var s1 := s.(calls := map[0 := c0]);
    var s2 := s.(calls := map[0 := c0, 1 := c1]);
    var s3 := s.(locks := map[0 := 0], calls := map[0 := c0.(pc := Locked), 1 := c1]);
    var s4 := s.(locks := map[0 := 0, 1 := 1], calls := map[0 := c0.(pc := Locked), 1 := c1.(pc := Locked)]);
    var s5 := s4.(calls := map[0 := c0.(pc := Updating(m[x := p])), 1 := c1.(pc := Locked)]);
    var s6 := s4.(calls := map[0 := c0.(pc := Updating(m[x := p])), 1 := c1.(pc := Updating(m[y := q]))]);
    assert Next(s, Invoke(0, 0, Save(x, p))) == s1;
    assert Next(s1, Invoke(1, 1, Save(y, q))) == s2;
    assert Next(s2, Do(0, Lock)) == s3;
    assert Next(s3, Do(1, Lock)) == s4;
    assert Next(s4, Do(0, Read(true))) == s5;
    assert Next(s5, Do(1, Read(true))) == s6;
    hide Enabled, Next;
    RunsNil(s6);
    RunsOne(s5, Do(1, Read(true)), []);
    var tail := [Do(1, Read(true))] + [];
    RunsOne(s4, Do(0, Read(true)), tail);
    tail := [Do(0, Read(true))] + tail;
    RunsOne(s3, Do(1, Lock), tail);
    tail := [Do(1, Lock)] + tail;
    RunsOne(s2, Do(0, Lock), tail);
    tail := [Do(0, Lock)] + tail;
    RunsOne(s1, Invoke(1, 1, Save(y, q)), tail);
    tail := [Invoke(1, 1, Save(y, q))] + tail;
    RunsOne(s, Invoke(0, 0, Save(x, p)), tail);
  }

  /** With two `FileStore` values on one path an update can be lost: both Saves report success and the
      file holds only the second, as if the first had never been made. */
  lemma TwoStoresLoseUpdate(s: Sys, x: Bytes, p: Pin, y: Bytes, q: Pin, i: nat, j: nat, ox: seq<Bytes>, oy: seq<Bytes>)
    requires Start(s) && Parses(ContentsOf(s.disk))
    requires SafeName(y) && TrimSpace(x) != [] && TrimSpace(y) != []
    requires Fresh(s.disk, i) && Fresh(s.disk, j) && i != j
    requires IsOrder(ox, PinsIn(ContentsOf(s.disk))[x := p]) && IsOrder(oy, PinsIn(ContentsOf(s.disk))[y := q])
    ensures var run := BothRead(x, p, y, q) + (CommitActions(0, ox, i) + CommitActions(1, oy, j));
            && Runs(s, run)
            && Inv(Exec(s, run))
            && Exec(s, run).log == [Save(x, p), Save(y, q)]
            && Exec(s, run).marks == [Mark(0, 0), Mark(1, 0)]
            && Exec(s, run).calls == map[0 := Call(0, Save(x, p), Finished(Done), 0), 1 := Call(1, Save(y, q), Finished(Done), 0)]
            && ParseContents(ContentsOf(Exec(s, run).disk)) == Ok(PinsIn(ContentsOf(s.disk))[y := q])
  {
    var run := BothRead(x, p, y, q) + (CommitActions(0, ox, i) + CommitActions(1, oy, j));
    LoseUpdateRun(s, x, p, y, q, i, j, ox, oy);
    StartInv(s);
    hide *;
    AnyRunKeepsFileWhole(s, run);
    UpdateExact(ContentsOf(s.disk), y, q);
    SerializesOrder(oy, PinsIn(ContentsOf(s.disk))[y := q]);
    ParseSome(Print(oy, PinsIn(ContentsOf(s.disk))[y := q]));
  }

  lemma SerializesOrder(order: seq<Bytes>, m: Pins)
    requires IsOrder(order, m)
    ensures Serializes(Print(order, m), m)
  {
  }

  lemma ParseSome(data: Bytes)
    ensures ParseContents(Some(data)) == Parse(data)
  {
  }

  lemma LoseUpdateRun(s: Sys, x: Bytes, p: Pin, y: Bytes, q: Pin, i: nat, j: nat, ox: seq<Bytes>, oy: seq<Bytes>)
    requires Start(s) && Parses(ContentsOf(s.disk))
    requires TrimSpace(x) != [] && TrimSpace(y) != []
    requires Fresh(s.disk, i) && Fresh(s.disk, j) && i != j
    requires IsOrder(ox, PinsIn(ContentsOf(s.disk))[x := p]) && IsOrder(oy, PinsIn(ContentsOf(s.disk))[y := q])
    ensures var run := BothRead(x, p, y, q) + (CommitActions(0, ox, i) + CommitActions(1, oy, j));
            && Runs(s, run)
            && Exec(s, run).log == [Save(x, p), Save(y, q)]
            && Exec(s, run).marks == [Mark(0, 0), Mark(1, 0)]
            && Exec(s, run).calls == map[0 := Call(0, Save(x, p), Finished(Done), 0), 1 := Call(1, Save(y, q), Finished(Done), 0)]
            && Valid(Exec(s, run).disk)
            && ContentsOf(Exec(s, run).disk) == Some(Print(oy, PinsIn(ContentsOf(s.disk))[y := q]))
  {
    hide Parse, TrimSpace, Runs, Exec, Print, Valid, CommitDisk, Fresh, CommitActions, BothRead, ContentsOf, Recovers;
    BothReadRuns(s, x, p, y, q);
    var m := PinsIn(ContentsOf(s.disk));
    var s1 := Exec(s, BothRead(x, p, y, q));
    SoloCommit(s1, 0, ox, i);
    var s2 := Exec(s1, CommitActions(0, ox, i));
    CommitLeavesFresh(s.disk, i, Print(ox, m[x := p]), j);
    SoloCommit(s2, 1, oy, j);
    RunsAppend(s1, CommitActions(0, ox, i), CommitActions(1, oy, j));
    RunsAppend(s, BothRead(x, p, y, q), CommitActions(0, ox, i) + CommitActions(1, oy, j));
    CommitContents(s2.disk, j, Print(oy, m[y := q]));
  }

  lemma CommitContents(d: Disk, id: nat, data: Bytes)
    requires Valid(d) && Fresh(d, id)
    ensures Valid(CommitDisk(d, id, data)) && ContentsOf(CommitDisk(d, id, data)) == Some(data)
  {
  }

  lemma CommitLeavesFresh(d: Disk, id: nat, data: Bytes, other: nat)
    requires Valid(d) && Fresh(d, id) && Fresh(d, other) && id != other
    ensures Valid(CommitDisk(d, id, data)) && Fresh(CommitDisk(d, id, data), other)
  {
  }
}
