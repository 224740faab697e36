/** What the three operations of `FileStore` (clients/core/store.go) do to the file when each runs
    without interference, and what that means over whole runs of them. */
module StoreSpec {
  import opened Wrappers
  import opened GoStrings
  import opened Pinning
  import opened PinFile

  datatype Op = Load(name: Bytes) | Save(name: Bytes, pin: Pin) | Forget(name: Bytes)

  datatype Reply = Found(pin: Pin) | Done | Failed(error: StoreError)

  /** The effect of an operation on the plain map it stands for. */
  function Apply(op: Op, m: Pins): Pins {
    match op
    case Load(_) => m
    case Save(n, p) => m[n := p]
    case Forget(n) => m - {n}
  }

  function Lookup(n: Bytes, m: Pins): Reply {
    if n in m then Found(m[n]) else Failed(PinNotFound(n))
  }

  /** Save refuses a name that is all blank before it touches anything. */
  predicate Refused(op: Op) {
    op.Save? && TrimSpace(op.name) == []
  }

  /** One operation, run alone: `before` is the file it finds and `after` the file it leaves. Any read
      or write may fail, and then the file is as before. */
  ghost predicate Atomic(op: Op, before: Contents, after: Contents, reply: Reply) {
    if Refused(op) then after == before && reply == Failed(EmptyName)
    else if reply == Failed(InputOutput) then after == before
    else match ParseContents(before)
      case Err(e) => after == before && reply == Failed(e)
      case Ok(m) =>
        if op.Load? then after == before && reply == Lookup(op.name, m)
        else reply == Done && after.Some? && Serializes(after.value, Apply(op, m))
  }

  // ---- Runs ----

  datatype Step = Step(op: Op, reply: Reply, after: Contents)

  ghost predicate Run(start: Contents, steps: seq<Step>)
    decreases |steps|
  {
    steps == [] || (Atomic(steps[0].op, start, steps[0].after, steps[0].reply) && Run(steps[0].after, steps[1..]))
  }

  function End(start: Contents, steps: seq<Step>): Contents {
    if steps == [] then start else steps[|steps| - 1].after
  }

  predicate SafeOp(op: Op) {
    op.Save? ==> SafeName(op.name)
  }

  /** The same steps against a plain map, where an operation may also fail and change nothing. */
  ghost predicate MapRun(m: Pins, steps: seq<Step>)
    decreases |steps|
  {
    hide TrimSpace;
    steps == [] ||
    var s := steps[0];
    if s.reply == Failed(InputOutput) || Refused(s.op) then s.reply.Failed? && MapRun(m, steps[1..])
    else match s.op
      case Load(n) => s.reply == (if n in m then Found(m[n]) else Failed(PinNotFound(n))) && MapRun(m, steps[1..])
      case Save(n, p) => s.reply == Done && MapRun(m[n := p], steps[1..])
      case Forget(n) => s.reply == Done && MapRun(m - {n}, steps[1..])
  }

  /** The map after a run: every update that reported success, in order. */
  function Replay(m: Pins, steps: seq<Step>): Pins
    decreases |steps|
  {
    if steps == [] then m
    else Replay(if steps[0].reply == Done then Apply(steps[0].op, m) else m, steps[1..])
  }

  /** A step under safe names, on a file that parses, is a step of the plain map. */
  lemma SafeStep(op: Op, before: Contents, after: Contents, reply: Reply)
    requires Atomic(op, before, after, reply) && Parses(before) && SafeOp(op)
    ensures Parses(after)
    ensures PinsIn(after) == if reply == Done then Apply(op, PinsIn(before)) else PinsIn(before)
  {
    hide Parse, SafeName, Serializes, TrimSpace;
    if reply == Done {
      match op
      case Load(n) =>
      case Save(n, p) => UpdateExact(before, n, p);
      case Forget(n) => UpdateExact(before, n, ZERO_PIN);
    }
  }

  /** What Load answers on a file that parses and is read, in full. */
  lemma LoadAnswers(name: Bytes, before: Contents, after: Contents, reply: Reply)
    requires Atomic(Load(name), before, after, reply) && Parses(before) && reply != Failed(InputOutput)
    ensures after == before
    ensures forall p :: reply == Found(p) <==> name in PinsIn(before) && PinsIn(before)[name] == p
    ensures reply == Failed(PinNotFound(name)) <==> name !in PinsIn(before)
  {
    hide ParseContents;
  }

  /** What Save and Forget answer and leave, in full, on any file. */
  lemma UpdateAnswers(op: Op, before: Contents, after: Contents, reply: Reply)
    requires Atomic(op, before, after, reply) && !op.Load?
    ensures reply == Failed(EmptyName) <==> op.Save? && TrimSpace(op.name) == []
    ensures reply == Done || (reply.Failed? && after == before)
    ensures reply == Done ==>
              && Parses(before) && after.Some?
              && Serializes(after.value, if op.Save? then PinsIn(before)[op.name := op.pin] else PinsIn(before) - {op.name})
    ensures reply.Failed? && reply != Failed(InputOutput) && reply != Failed(EmptyName) ==>
              ParseContents(before) == Err(reply.error)
  {
    hide Parse, TrimSpace, Serializes;
  }

  /** After a successful Forget, and any run that spares the name, Load answers that there is no pin; and after
      a successful Save under a safe name it answers with the pin. */
  lemma LoadAfterUpdate(op: Op, start: Contents, after: Contents, steps: seq<Step>, reply: Reply, found: Contents)
    requires Parses(start) && Atomic(op, start, after, Done) && Run(after, steps)
    requires op.Forget? || (op.Save? && SafeName(op.name))
    requires var was := if op.Save? then Some(op.pin) else None;
             forall i :: 0 <= i < |steps| && steps[i].reply == Done ==> Spares(steps[i].op, op.name, was)
    requires Atomic(Load(op.name), End(after, steps), found, reply) && reply != Failed(InputOutput)
    ensures reply == if op.Save? then Found(op.pin) else Failed(PinNotFound(op.name))
  {
    hide ParseContents, SafeName, Spares, Atomic, Run;
    SafeStep(op, start, after, Done);
    assert Held(PinsIn(after), op.name) == if op.Save? then Some(op.pin) else None;
    OthersLeavePinAlone(after, steps, op.name);
    LoadAnswers(op.name, End(after, steps), found, reply);
  }

  /** From a file that parses, a run under safe names is a run of a plain map: every reply is the
      map's reply and the file always holds exactly the map. */
  lemma {:induction false} SafeRunIsMapRun(start: Contents, steps: seq<Step>)
    requires Run(start, steps) && Parses(start)
    requires forall i :: 0 <= i < |steps| ==> SafeOp(steps[i].op)
    ensures MapRun(PinsIn(start), steps)
    ensures Parses(End(start, steps)) && PinsIn(End(start, steps)) == Replay(PinsIn(start), steps)
    decreases |steps|
  {
    hide ParseContents, SafeOp, Serializes, TrimSpace;
    if steps != [] {
      var s := steps[0];
      SafeStep(s.op, start, s.after, s.reply);
      SafeRunIsMapRun(s.after, steps[1..]);
    }
  }

  /** Once the file does not parse, nothing in the store can change it: every later operation fails
      and leaves the bytes as they are. */
  lemma {:induction false} MalformedIsAbsorbing(start: Contents, steps: seq<Step>)
    requires Run(start, steps) && !Parses(start)
    ensures End(start, steps) == start
    ensures forall i :: 0 <= i < |steps| ==> steps[i].reply.Failed? && steps[i].after == start
    decreases |steps|
  {
    hide Parse, TrimSpace;
    if steps != [] {
      MalformedIsAbsorbing(steps[0].after, steps[1..]);
      assert steps == [steps[0]] + steps[1..];
    }
  }

  /** A file that parsed stops parsing only at a Save under an unsafe name that reported success. */
  lemma {:induction false} OnlyUnsafeSaveBreaks(start: Contents, steps: seq<Step>)
    requires Run(start, steps) && Parses(start) && !Parses(End(start, steps))
    ensures exists i :: 0 <= i < |steps| && steps[i].op.Save? && !SafeName(steps[i].op.name) && steps[i].reply == Done
    decreases |steps|
  {
    hide Parse, TrimSpace, SafeName, Serializes;
    var s := steps[0];
    if SafeOp(s.op) || s.reply != Done {
      if SafeOp(s.op) {
        SafeStep(s.op, start, s.after, s.reply);
      }
      OnlyUnsafeSaveBreaks(s.after, steps[1..]);
      var i :| 0 <= i < |steps[1..]| && steps[1..][i].op.Save? && !SafeName(steps[1..][i].op.name) && steps[1..][i].reply == Done;
      assert steps[i + 1] == steps[1..][i];
    } else {
      assert steps[0].op.Save?;
    }
  }

  /** A Save that leaves the file unreadable does so for good: every later operation fails and the bytes
      stay. Without a newline in the name that is a Save under a name with a space past its leading white
      space that is no comment. */
  lemma BadSaveIsForGood(start: Contents, n: Bytes, p: Pin, after: Contents, steps: seq<Step>)
    requires Parses(start) && Atomic(Save(n, p), start, after, Done) && Run(after, steps)
    ensures !NoBadLine(OwnLines(n, p)) ==>
              End(after, steps) == after && forall i :: 0 <= i < |steps| ==> steps[i].reply.Failed? && steps[i].after == after
    ensures NEWLINE !in n && TrimLeft(n) != [] ==>
              (!NoBadLine(OwnLines(n, p)) <==> TrimLeft(n)[0] != HASH && SPACE in TrimLeft(n))
  {
    hide Parse, NoBadLine, OwnLines, TrimLeft, TrimSpace, Serializes;
    SaveBreaksFileExactly(start, n, p, after.value);
    if !Parses(after) {
      MalformedIsAbsorbing(after, steps);
    }
  }

  // ---- When an operation leaves a name alone ----

  /** What the map holds for a name. */
  function Held(m: Pins, name: Bytes): Option<Pin> {
    if name in m then Some(m[name]) else None
  }

  /** The operation cannot change what a file holds for `name`, which is `was`: it is no Forget of a name
      that is there, and no Save whose lines make the file unreadable, give `name` anything else, or replace
      its entry by nothing. */
  predicate Spares(op: Op, name: Bytes, was: Option<Pin>) {
    match op
    case Load(_) => true
    case Forget(n) => n == name ==> was.None?
    case Save(n, p) =>
      && Readable(n, p)
      && if name in Says(n, p) then was == Some(Says(n, p)[name]) else n == name ==> was.None?
  }

  /** Whatever comes of the operation on this file, it can be read and holds for `name` what it held. */
  ghost predicate LeavesAlone(op: Op, before: Contents, name: Bytes)
    requires Parses(before)
  {
    forall after, reply :: Atomic(op, before, after, reply) ==>
      Parses(after) && Held(PinsIn(after), name) == Held(PinsIn(before), name)
  }

  lemma SparedStep(op: Op, before: Contents, after: Contents, reply: Reply, name: Bytes)
    requires Parses(before) && Atomic(op, before, after, reply)
    requires reply == Done ==> Spares(op, name, Held(PinsIn(before), name))
    ensures Parses(after) && Held(PinsIn(after), name) == Held(PinsIn(before), name)
  {
    hide Parse, Serializes, TrimSpace, Readable, Says;
    if reply == Done {
      match op
      case Load(n) =>
      case Save(n, p) => SaveReadsBack(before, n, p, after.value);
      case Forget(n) => UpdateExact(before, n, ZERO_PIN);
    }
  }

  /** An outcome that does change it. */
  lemma NotSpared(op: Op, before: Contents, name: Bytes) returns (after: Contents)
    requires Parses(before) && !Refused(op) && !Spares(op, name, Held(PinsIn(before), name))
    ensures Atomic(op, before, after, Done)
    ensures !Parses(after) || Held(PinsIn(after), name) != Held(PinsIn(before), name)
  {
    hide Parse, Serializes, TrimSpace, Readable, Says;
    match op
    case Load(n) =>
    case Save(n, p) =>
      if Readable(n, p) {
        var data := SaveEndingIn(before, n, p);
        after := Some(data);
      } else {
        var data := SomeOutput(PinsIn(before)[n := p]);
        SaveReadsBack(before, n, p, data);
        after := Some(data);
      }
    case Forget(n) =>
      var data := SomeOutput(PinsIn(before) - {n});
      UpdateExact(before, n, ZERO_PIN);
      after := Some(data);
  }

  lemma SomeOutput(m: Pins) returns (data: Bytes)
    ensures Serializes(data, m)
  {
    var order := SomeOrder(m);
    data := Print(order, m);
  }

  /** An operation leaves a name alone, whatever comes of it, if and only if it is refused or `Spares` it. */
  lemma SparesExactly(op: Op, before: Contents, name: Bytes)
    requires Parses(before)
    ensures LeavesAlone(op, before, name) <==> Refused(op) || Spares(op, name, Held(PinsIn(before), name))
  {
    hide ParseContents, TrimSpace, Spares, Serializes;
    if Refused(op) || Spares(op, name, Held(PinsIn(before), name)) {
      forall after, reply | Atomic(op, before, after, reply)
        ensures Parses(after) && Held(PinsIn(after), name) == Held(PinsIn(before), name)
      {
        if !Refused(op) {
          hide Atomic;
          SparedStep(op, before, after, reply, name);
        }
      }
    } else {
      hide Atomic;
      var after := NotSpared(op, before, name);
    }
  }

  /** Operations under other, safe names are of that kind. */
  lemma OthersAreSpared(op: Op, name: Bytes, was: Option<Pin>)
    requires op.Load? || (op.name != name && SafeOp(op))
    ensures Spares(op, name, was)
  {
    hide SafeName, Readable, Says;
    if op.Save? {
      SaysItself(op.name, op.pin);
    }
  }

  /** A file holds for a name what it held through any run whose successful operations spare the name. */
  lemma {:induction false} OthersLeavePinAlone(start: Contents, steps: seq<Step>, name: Bytes)
    requires Run(start, steps) && Parses(start)
    requires forall i :: 0 <= i < |steps| && steps[i].reply == Done ==> Spares(steps[i].op, name, Held(PinsIn(start), name))
    ensures Parses(End(start, steps)) && Held(PinsIn(End(start, steps)), name) == Held(PinsIn(start), name)
    decreases |steps|
  {
    hide ParseContents, Spares, Atomic;
    if steps != [] {
      var s := steps[0];
      SparedStep(s.op, start, s.after, s.reply, name);
      OthersLeavePinAlone(s.after, steps[1..], name);
    }
  }
}
