/** Trust-on-first-use pairing (clients/core/pair.go): the sequential code of `Pair`, and any number of
    Pair calls and store operations interleaved while boxes change their keys. */
module Pairing {
  import opened Wrappers
  import opened GoStrings
  import opened Pinning
  import opened PairPayload
  import opened PinFile
  import opened StoreSpec
  import opened FileSystem
  import opened FileStores

  /** What answers a dial: nothing (or a handshake that breaks off for its own reasons), or a peer
      presenting this certificate chain. */
  datatype Peer = Silent | Presents(chain: seq<Bytes>)

  datatype PairFailure =
    | NoStore
    | BadPayload(payload: PairError)
    | NoConfig(config: ConfigError)
    | DialFailed
    | SaveFailed(save: StoreError)

  type PairResult = Result<Box, PairFailure>

  function Candidate(p: Payload): Box {
    Box(p.name, p.addr, p.pin)
  }

  /** The handshake runs the configuration's verifier on whatever the peer presents. */
  predicate Completes(cfg: TlsConfig, peer: Peer) {
    peer.Presents? && cfg.verifyPeerCertificate(peer.chain).Ok?
  }

  function SaveResult(p: Payload, reply: Reply): PairResult {
    match reply
    case Failed(e) => Err(SaveFailed(e))
    case _ => Ok(Candidate(p))
  }

  /** One call of Pair, run alone against `peer`; `io` says which of its system calls work. */
  ghost predicate PairAlone(crypto: Crypto, payload: Bytes, peer: Peer, io: IO, before: Contents, after: Contents, result: PairResult) {
    match ParsePairPayload(payload)
    case Err(e) => after == before && result == Err(BadPayload(e))
    case Ok(p) =>
      match MakeTlsConfig(crypto, Candidate(p))
      case Err(e) => after == before && result == Err(NoConfig(e))
      case Ok(cfg) =>
        if !Completes(cfg, peer) then after == before && result == Err(DialFailed)
        else exists reply ::
          && Atomic(Save(p.name, p.pin), before, after, reply)
          && (reply == Failed(InputOutput) <==> MeetsFailure(Save(p.name, p.pin), before, io))
          && result == SaveResult(p, reply)
  }

  /** `Pair`. */
  method Pair(crypto: Crypto, payload: Bytes, store: FileStore?, peer: Peer, io: IO) returns (result: PairResult)
    requires store != null ==> store.volume.Ok() && Fresh(store.volume.disk, io.temp)
    modifies if store == null then {} else {store.volume}
    ensures store == null ==> result == Err(NoStore)
    ensures store != null ==>
              && store.volume.Ok()
              && PairAlone(crypto, payload, peer, io, old(ContentsOf(store.volume.disk)), ContentsOf(store.volume.disk), result)
              && (result.Err? ==> ContentsOf(store.volume.disk) == old(ContentsOf(store.volume.disk)))
              && (io.read && io.Commits() ==> result != Err(SaveFailed(InputOutput)))
  {
    hide ParsePairPayload, ParseContents, Refused, Atomic, Valid, Fresh, ContentsOf, Harmless;
    if store == null {
      return Err(NoStore);
    }
    var parsed := ParsePairPayload(payload);
    if parsed.Err? {
      return Err(BadPayload(parsed.error));
    }
    var candidate := Candidate(parsed.value);
    var cfg := MakeTlsConfig(crypto, candidate);
    if cfg.Err? {
      return Err(NoConfig(cfg.error));
    }
    if !Completes(cfg.value, peer) {
      return Err(DialFailed);
    }
    var reply, _ := store.Save(candidate.name, candidate.pin, io);
    if reply.Failed? {
      return Err(SaveFailed(reply.error));
    }
    return Ok(candidate);
  }

  // ---- Any number of calls at once ----

  type CallId = nat

  datatype Pc =
    | Started
    | Parsed(p: Payload)
    | Configured(p: Payload)
    | Shaken(p: Payload, chain: seq<Bytes>)
    | Returned(result: PairResult)

  datatype PairCall = PairCall(payload: Bytes, pc: Pc)

  /** What happened, in order. `SetBy` is a Save made by somebody other than Pair. */
  datatype Event =
    | Began(t: CallId, payload: Bytes)
    | Shook(t: CallId, addr: Bytes, chain: seq<Bytes>)
    | Stored(t: CallId, name: Bytes, pin: Pin)
    | SetBy(name: Bytes, pin: Pin)

  /** `peers` is what answers at each address right now. */
  datatype World = World(contents: Contents, peers: map<Bytes, seq<Bytes>>, calls: map<CallId, PairCall>, log: seq<Event>)

  datatype Action =
    | Begin(t: CallId, payload: Bytes)
    | ParseIt(t: CallId)
    | Configure(t: CallId)
    | Dial(t: CallId, reached: bool)
    | StoreIt(t: CallId, reply: Reply, after: Contents)
    | Rekey(addr: Bytes, chain: seq<Bytes>)
    | Operate(op: Op, reply: Reply, after: Contents)

  ghost predicate Enabled(w: World, a: Action) {
    match a
    case Begin(t, _) => t !in w.calls
    case ParseIt(t) => t in w.calls && w.calls[t].pc.Started?
    case Configure(t) => t in w.calls && w.calls[t].pc.Parsed?
    case Dial(t, _) => t in w.calls && w.calls[t].pc.Configured?
    case StoreIt(t, reply, after) =>
      && t in w.calls && w.calls[t].pc.Shaken?
      && Atomic(Save(w.calls[t].pc.p.name, w.calls[t].pc.p.pin), w.contents, after, reply)
    case Rekey(_, _) => true
    case Operate(op, reply, after) => Atomic(op, w.contents, after, reply)
  }

  /** Who picks up when `addr` is dialled. */
  function PeerAt(w: World, addr: Bytes, reached: bool): Peer {
    if reached && addr in w.peers then Presents(w.peers[addr]) else Silent
  }

  function AfterParse(payload: Bytes): Pc {
    match ParsePairPayload(payload)
    case Err(e) => Returned(Err(BadPayload(e)))
    case Ok(p) => Parsed(p)
  }

  function AfterConfigure(crypto: Crypto, p: Payload): Pc {
    match MakeTlsConfig(crypto, Candidate(p))
    case Err(e) => Returned(Err(NoConfig(e)))
    case Ok(_) => Configured(p)
  }

  function AfterDial(crypto: Crypto, p: Payload, peer: Peer): Pc {
    match MakeTlsConfig(crypto, Candidate(p))
    case Err(e) => Returned(Err(NoConfig(e)))
    case Ok(cfg) => if Completes(cfg, peer) then Shaken(p, peer.chain) else Returned(Err(DialFailed))
  }

  function Goto(w: World, t: CallId, pc: Pc): World
    requires t in w.calls
  {
    w.(calls := w.calls[t := w.calls[t].(pc := pc)])
  }

  function Note(w: World, e: Event): World {
    w.(log := w.log + [e])
  }

  ghost function Next(crypto: Crypto, w: World, a: Action): World
    requires Enabled(w, a)
  {
    match a
    case Begin(t, payload) => Note(w.(calls := w.calls[t := PairCall(payload, Started)]), Began(t, payload))
    case ParseIt(t) => Goto(w, t, AfterParse(w.calls[t].payload))
    case Configure(t) => Goto(w, t, AfterConfigure(crypto, w.calls[t].pc.p))
    case Dial(t, reached) =>
      var p := w.calls[t].pc.p;
      var pc := AfterDial(crypto, p, PeerAt(w, p.addr, reached));
      if pc.Shaken? then Note(Goto(w, t, pc), Shook(t, p.addr, pc.chain)) else Goto(w, t, pc)
    case StoreIt(t, reply, after) =>
      var p := w.calls[t].pc.p;
      var w' := Goto(w.(contents := after), t, Returned(SaveResult(p, reply)));
      if reply.Failed? then w' else Note(w', Stored(t, p.name, p.pin))
    case Rekey(addr, chain) => w.(peers := w.peers[addr := chain])
    case Operate(op, reply, after) =>
      var w' := w.(contents := after);
      if op.Save? && reply == Done then Note(w', SetBy(op.name, op.pin)) else w'
  }

  ghost predicate Runs(crypto: Crypto, w: World, actions: seq<Action>)
    decreases |actions|
  {
    actions == [] || (Enabled(w, actions[0]) && Runs(crypto, Next(crypto, w, actions[0]), actions[1..]))
  }

  ghost function Exec(crypto: Crypto, w: World, actions: seq<Action>): World
    requires Runs(crypto, w, actions)
    decreases |actions|
  {
    if actions == [] then w else Exec(crypto, Next(crypto, w, actions[0]), actions[1..])
  }

  /** Nothing has happened yet; the store and the network may be in any state. */
  ghost predicate Start(w: World) {
    w.calls == map[] && w.log == []
  }

  // ---- What every step keeps ----

  /** The chain's first certificate parses and its public key has this digest. */
  predicate LeafMatches(crypto: Crypto, chain: seq<Bytes>, pin: Pin) {
    && chain != []
    && crypto.parseCertificate(chain[0]).Some?
    && crypto.sha256(crypto.parseCertificate(chain[0]).value.rawSubjectPublicKeyInfo) == pin
  }

  /** The configuration of a box lets through exactly the chains whose leaf has the box's pin, and of an
      unpaired box none. */
  lemma ConfigAcceptsExactly(crypto: Crypto, b: Box, chain: seq<Bytes>)
    ensures Accepts(crypto, b, chain) <==> b.pin != ZERO_PIN && LeafMatches(crypto, chain, b.pin)
  {
  }

  predicate PayloadSays(payload: Bytes, p: Payload) {
    ParsePairPayload(payload) == Ok(p)
  }

  /** The first `k` events show call `t` beginning with a payload that says `p`. */
  ghost predicate BeganWith(log: seq<Event>, k: nat, t: CallId, p: Payload) {
    exists i :: 0 <= i < k <= |log| && log[i].Began? && log[i].t == t && PayloadSays(log[i].payload, p)
  }

  /** The first `k` events show call `t` beginning with a payload that says `p`, and after that
      completing a handshake at its address with a chain whose leaf has its pin. */
  ghost predicate Verified(crypto: Crypto, log: seq<Event>, k: nat, t: CallId, p: Payload) {
    exists j ::
      && 0 <= j < k <= |log| && log[j].Shook? && log[j].t == t && log[j].addr == p.addr
      && LeafMatches(crypto, log[j].chain, p.pin)
      && BeganWith(log, j, t, p)
  }

  /** A pin that a Pair call wrote was verified by that very call, under its payload's own words. */
  ghost predicate Justified(crypto: Crypto, log: seq<Event>, i: nat)
    requires i < |log| && log[i].Stored?
  {
    && log[i].pin != ZERO_PIN
    && exists p: Payload :: p.name == log[i].name && p.pin == log[i].pin && Verified(crypto, log, i, log[i].t, p)
  }

  ghost predicate CallOk(crypto: Crypto, log: seq<Event>, t: CallId, c: PairCall) {
    match c.pc
    case Started => true
    case Parsed(p) => PayloadSays(c.payload, p)
    case Configured(p) => PayloadSays(c.payload, p) && p.pin != ZERO_PIN
    case Shaken(p, chain) => PayloadSays(c.payload, p) && p.pin != ZERO_PIN && Verified(crypto, log, |log|, t, p)
    case Returned(result) =>
      if result.Ok? then
        && PayloadSays(c.payload, Payload(result.value.name, result.value.addr, result.value.pin))
        && exists i :: 0 <= i < |log| && log[i] == Stored(t, result.value.name, result.value.pin)
      else forall i :: 0 <= i < |log| && log[i].Stored? ==> log[i].t != t
  }

  ghost predicate Inv(crypto: Crypto, w: World) {
    && (forall i :: 0 <= i < |w.log| && w.log[i].Stored? ==> Justified(crypto, w.log, i))
    && (forall t :: t in w.calls ==> Began(t, w.calls[t].payload) in w.log && CallOk(crypto, w.log, t, w.calls[t]))
    && (forall i :: 0 <= i < |w.log| && w.log[i].Began? ==> w.log[i].t in w.calls && w.calls[w.log[i].t].payload == w.log[i].payload)
    && (forall i :: 0 <= i < |w.log| && w.log[i].Stored? ==> w.log[i].t in w.calls && w.calls[w.log[i].t].pc.Returned?)
  }

  lemma BeganGrows(log: seq<Event>, e: Event, k: nat, k': nat, t: CallId, p: Payload)
    requires BeganWith(log, k, t, p) && k <= k' <= |log| + 1
    ensures BeganWith(log + [e], k', t, p)
  {
    hide PayloadSays;
    var i :| 0 <= i < k <= |log| && log[i].Began? && log[i].t == t && PayloadSays(log[i].payload, p);
    assert (log + [e])[i] == log[i];
  }

  lemma VerifiedGrows(crypto: Crypto, log: seq<Event>, e: Event, k: nat, k': nat, t: CallId, p: Payload)
    requires Verified(crypto, log, k, t, p) && k <= k' <= |log| + 1
    ensures Verified(crypto, log + [e], k', t, p)
  {
    hide LeafMatches, BeganWith;
    var j :| 0 <= j < k <= |log| && log[j].Shook? && log[j].t == t && log[j].addr == p.addr
      && LeafMatches(crypto, log[j].chain, p.pin) && BeganWith(log, j, t, p);
    assert (log + [e])[j] == log[j];
    BeganGrows(log, e, j, j, t, p);
  }

  lemma JustifiedGrows(crypto: Crypto, log: seq<Event>, e: Event, i: nat)
    requires i < |log| && log[i].Stored? && Justified(crypto, log, i)
    ensures Justified(crypto, log + [e], i)
  {
    hide Verified;
    var p: Payload :| p.name == log[i].name && p.pin == log[i].pin && Verified(crypto, log, i, log[i].t, p);
    VerifiedGrows(crypto, log, e, i, i, log[i].t, p);
  }

  /** Another event, not this call's own Stored, leaves what is known about a call true. */
  lemma CallOkGrows(crypto: Crypto, log: seq<Event>, e: Event, t: CallId, c: PairCall)
    requires CallOk(crypto, log, t, c) && !(e.Stored? && e.t == t)
    ensures CallOk(crypto, log + [e], t, c)
  {
    hide Verified, PayloadSays;
    match c.pc
    case Shaken(p, chain) => VerifiedGrows(crypto, log, e, |log|, |log| + 1, t, p);
    case Returned(result) =>
      if result.Ok? {
        var i :| 0 <= i < |log| && log[i] == Stored(t, result.value.name, result.value.pin);
        assert (log + [e])[i] == log[i];
      }
    case _ =>
  }

  /** The step of one call that is not finished, with the event it notes, if any. */
  lemma InvAdvance(crypto: Crypto, w: World, t: CallId, c: PairCall, e: Option<Event>, contents: Contents)
    requires Inv(crypto, w) && t in w.calls && !w.calls[t].pc.Returned? && c.payload == w.calls[t].payload
    requires e.Some? ==> (e.value.Shook? || e.value.Stored?) && e.value.t == t
    requires var log := if e.Some? then w.log + [e.value] else w.log;
             && CallOk(crypto, log, t, c)
             && (e.Some? && e.value.Stored? ==> c.pc.Returned? && Justified(crypto, log, |w.log|))
    ensures Inv(crypto, World(contents, w.peers, w.calls[t := c], if e.Some? then w.log + [e.value] else w.log))
  {
    hide CallOk, Justified;
    if e.Some? {
      var log := w.log + [e.value];
      forall i | 0 <= i < |log| && log[i].Stored? ensures Justified(crypto, log, i) {
        if i < |w.log| {
          JustifiedGrows(crypto, w.log, e.value, i);
        }
      }
      forall u | u in w.calls && u != t ensures CallOk(crypto, log, u, w.calls[u]) {
        CallOkGrows(crypto, w.log, e.value, u, w.calls[u]);
      }
    }
  }

  lemma InvParse(crypto: Crypto, w: World, t: CallId)
    requires Inv(crypto, w) && Enabled(w, ParseIt(t))
    ensures Inv(crypto, Next(crypto, w, ParseIt(t)))
  {
    hide Inv, Justified, ParsePairPayload;
    NotYetStored(crypto, w, t);
    InvAdvance(crypto, w, t, w.calls[t].(pc := AfterParse(w.calls[t].payload)), None, w.contents);
  }

  lemma NotYetStored(crypto: Crypto, w: World, t: CallId)
    requires Inv(crypto, w) && t in w.calls && !w.calls[t].pc.Returned?
    ensures forall i :: 0 <= i < |w.log| && w.log[i].Stored? ==> w.log[i].t != t
    ensures CallOk(crypto, w.log, t, w.calls[t])
    ensures Began(t, w.calls[t].payload) in w.log
  {
    hide CallOk, Justified;
  }

  lemma InvConfigure(crypto: Crypto, w: World, t: CallId)
    requires Inv(crypto, w) && Enabled(w, Configure(t))
    ensures Inv(crypto, Next(crypto, w, Configure(t)))
  {
    hide Inv, Justified, ParsePairPayload;
    NotYetStored(crypto, w, t);
    InvAdvance(crypto, w, t, w.calls[t].(pc := AfterConfigure(crypto, w.calls[t].pc.p)), None, w.contents);
  }

  lemma InvDial(crypto: Crypto, w: World, t: CallId, reached: bool)
    requires Inv(crypto, w) && Enabled(w, Dial(t, reached))
    ensures Inv(crypto, Next(crypto, w, Dial(t, reached)))
  {
    hide Inv, Justified, ParsePairPayload;
    NotYetStored(crypto, w, t);
    var p := w.calls[t].pc.p;
    var pc := AfterDial(crypto, p, PeerAt(w, p.addr, reached));
    var c := w.calls[t].(pc := pc);
    if pc.Shaken? {
      var e := Shook(t, p.addr, pc.chain);
      var i :| 0 <= i < |w.log| && w.log[i] == Began(t, w.calls[t].payload);
      assert BeganWith(w.log, |w.log|, t, p);
      BeganGrows(w.log, e, |w.log|, |w.log|, t, p);
      ConfigAcceptsExactly(crypto, Candidate(p), pc.chain);
      assert (w.log + [e])[|w.log|] == e;
      assert Verified(crypto, w.log + [e], |w.log| + 1, t, p);
      InvAdvance(crypto, w, t, c, Some(e), w.contents);
    } else {
      InvAdvance(crypto, w, t, c, None, w.contents);
    }
  }

  lemma InvStore(crypto: Crypto, w: World, t: CallId, reply: Reply, after: Contents)
    requires Inv(crypto, w) && Enabled(w, StoreIt(t, reply, after))
    ensures Inv(crypto, Next(crypto, w, StoreIt(t, reply, after)))
  {
    hide Inv, Verified, Atomic, ParsePairPayload;
    NotYetStored(crypto, w, t);
    var p := w.calls[t].pc.p;
    var c := w.calls[t].(pc := Returned(SaveResult(p, reply)));
    if reply.Failed? {
      InvAdvance(crypto, w, t, c, None, after);
    } else {
      var e := Stored(t, p.name, p.pin);
      VerifiedGrows(crypto, w.log, e, |w.log|, |w.log|, t, p);
      assert (w.log + [e])[|w.log|] == e;
      InvAdvance(crypto, w, t, c, Some(e), after);
    }
  }

  lemma InvNote(crypto: Crypto, w: World, e: Event, calls: map<CallId, PairCall>, contents: Contents)
    requires Inv(crypto, w) && (e.Began? || e.SetBy?)
    requires if e.Began? then e.t !in w.calls && calls == w.calls[e.t := PairCall(e.payload, Started)] else calls == w.calls
    ensures Inv(crypto, World(contents, w.peers, calls, w.log + [e]))
  {
    hide CallOk, Justified;
    var log := w.log + [e];
    forall i | 0 <= i < |log| && log[i].Stored? ensures Justified(crypto, log, i) {
      JustifiedGrows(crypto, w.log, e, i);
    }
    forall u | u in w.calls ensures CallOk(crypto, log, u, w.calls[u]) && Began(u, w.calls[u].payload) in log {
      CallOkGrows(crypto, w.log, e, u, w.calls[u]);
    }
    if e.Began? {
      assert log[|w.log|] == e;
      StartedIsOk(crypto, log, e.t, e.payload);
    }
  }

  lemma StartedIsOk(crypto: Crypto, log: seq<Event>, t: CallId, payload: Bytes)
    ensures CallOk(crypto, log, t, PairCall(payload, Started))
  {
  }

  lemma InvStep(crypto: Crypto, w: World, a: Action)
    requires Inv(crypto, w) && Enabled(w, a)
    ensures Inv(crypto, Next(crypto, w, a))
  {
    hide CallOk, Justified, Atomic;
    match a
    case Begin(t, payload) => hide Inv; InvNote(crypto, w, Began(t, payload), w.calls[t := PairCall(payload, Started)], w.contents);
    case ParseIt(t) => hide Next; InvParse(crypto, w, t);
    case Configure(t) => hide Next; InvConfigure(crypto, w, t);
    case Dial(t, reached) => hide Next; InvDial(crypto, w, t, reached);
    case StoreIt(t, reply, after) => hide Next; InvStore(crypto, w, t, reply, after);
    case Rekey(addr, chain) =>
    case Operate(op, reply, after) =>
      if op.Save? && reply == Done {
        hide Inv;
        InvNote(crypto, w, SetBy(op.name, op.pin), w.calls, after);
      }
  }

  // ---- Over whole runs ----

  lemma {:induction false} InvRun(crypto: Crypto, w: World, actions: seq<Action>)
    requires Inv(crypto, w) && Runs(crypto, w, actions)
    ensures Inv(crypto, Exec(crypto, w, actions))
    decreases |actions|
  {
    hide Inv, Enabled, Next;
    if actions != [] {
      InvStep(crypto, w, actions[0]);
      InvRun(crypto, Next(crypto, w, actions[0]), actions[1..]);
    }
  }

  /** A failed call has stored nothing; a successful one has stored exactly the box it returns, which is
      the box its payload describes. */
  ghost predicate OutcomeNoted(log: seq<Event>, t: CallId, payload: Bytes, result: PairResult) {
    match result
    case Err(_) => forall i :: 0 <= i < |log| && log[i].Stored? ==> log[i].t != t
    case Ok(b) => Stored(t, b.name, b.pin) in log && PayloadSays(payload, Payload(b.name, b.addr, b.pin))
  }

  /** However calls interleave, payloads are altered, dials fail and boxes change keys: every pin a
      Pair call stored is not the zero pin, was said by that call's own payload, and equals the digest
      of the leaf key in a handshake which that call completed, at the payload's address, before it
      stored the pin. A call that fails has stored nothing, and one that succeeds has stored exactly
      what it returns, which is what its payload says. */
  lemma PairingSafety(crypto: Crypto, w: World, actions: seq<Action>)
    requires Start(w) && Runs(crypto, w, actions)
    ensures var e := Exec(crypto, w, actions);
            && (forall i :: 0 <= i < |e.log| && e.log[i].Stored? ==>
                  && Justified(crypto, e.log, i)
                  && e.log[i].t in e.calls
                  && e.calls[e.log[i].t].pc.Returned?)
            && (forall i :: 0 <= i < |e.log| && e.log[i].Began? ==>
                  e.log[i].t in e.calls && e.calls[e.log[i].t].payload == e.log[i].payload)
            && (forall t :: t in e.calls && e.calls[t].pc.Returned? ==>
                  OutcomeNoted(e.log, t, e.calls[t].payload, e.calls[t].pc.result))
  {
    assert Inv(crypto, w);
    InvRun(crypto, w, actions);
    hide Runs, Exec, Justified, PayloadSays, Verified;
    var e := Exec(crypto, w, actions);
    forall t | t in e.calls && e.calls[t].pc.Returned?
      ensures OutcomeNoted(e.log, t, e.calls[t].payload, e.calls[t].pc.result)
    {
      assert CallOk(crypto, e.log, t, e.calls[t]);
    }
  }

  /** What the run asks of the store, in order. */
  ghost function StoreSteps(crypto: Crypto, w: World, actions: seq<Action>): seq<Step>
    requires Runs(crypto, w, actions)
    decreases |actions|
  {
    if actions == [] then []
    else
      var a, rest := actions[0], StoreSteps(crypto, Next(crypto, w, actions[0]), actions[1..]);
      match a
      case StoreIt(t, reply, after) => [Step(Save(w.calls[t].pc.p.name, w.calls[t].pc.p.pin), reply, after)] + rest
      case Operate(op, reply, after) => [Step(op, reply, after)] + rest
      case _ => rest
  }

  /** As far as the file is concerned, a run of pairings is a run of the store: nothing a Pair call does
      before it saves, and nothing the network does, reaches the file. */
  lemma {:induction false} PairingIsStoreRun(crypto: Crypto, w: World, actions: seq<Action>)
    requires Runs(crypto, w, actions)
    ensures StoreSpec.Run(w.contents, StoreSteps(crypto, w, actions))
    ensures StoreSpec.End(w.contents, StoreSteps(crypto, w, actions)) == Exec(crypto, w, actions).contents
    decreases |actions|
  {
    hide Atomic, AfterParse, AfterConfigure, AfterDial;
    if actions != [] {
      var a, w' := actions[0], Next(crypto, w, actions[0]);
      PairingIsStoreRun(crypto, w', actions[1..]);
      var rest := StoreSteps(crypto, w', actions[1..]);
      if a.StoreIt? || a.Operate? {
        var all := StoreSteps(crypto, w, actions);
        assert all[1..] == rest && all[0].after == w'.contents;
      }
    }
  }

  // ---- Where the pins in the file come from ----

  /** Somebody saved a pin: a Pair call or another. */
  predicate Saves(e: Event) {
    e.Stored? || e.SetBy?
  }

  /** The `i`-th event saved an entry that reads as pin `q` for `n`. */
  ghost predicate GivenBy(log: seq<Event>, i: nat, n: Bytes, q: Pin) {
    i < |log| && Saves(log[i]) && LineGives(log[i].name, log[i].pin, n, q)
  }

  ghost predicate Sourced(start: Pins, log: seq<Event>, n: Bytes, q: Pin) {
    (n in start && start[n] == q) || exists i :: GivenBy(log, i, n, q)
  }

  ghost predicate AllSourced(start: Pins, log: seq<Event>, m: Pins) {
    forall n :: n in m ==> Sourced(start, log, n, m[n])
  }

  ghost predicate AllSavesReadable(log: seq<Event>) {
    forall i :: 0 <= i < |log| && Saves(log[i]) ==> Readable(log[i].name, log[i].pin)
  }

  /** The file can be read exactly as long as every saved entry can, and then all its pins have a source. */
  ghost predicate FileSourced(start: Pins, w: World) {
    && (Parses(w.contents) <==> AllSavesReadable(w.log))
    && (Parses(w.contents) ==> AllSourced(start, w.log, PinsIn(w.contents)))
  }

  lemma SourcedGrows(start: Pins, log: seq<Event>, e: Event, n: Bytes, q: Pin)
    requires Sourced(start, log, n, q)
    ensures Sourced(start, log + [e], n, q)
  {
    hide LineGives;
    if i: nat :| GivenBy(log, i, n, q) {
      assert (log + [e])[i] == log[i];
      assert GivenBy(log + [e], i, n, q);
    }
  }

  lemma SourcedByLast(start: Pins, log: seq<Event>, e: Event, n: Bytes, q: Pin)
    requires Saves(e) && LineGives(e.name, e.pin, n, q)
    ensures Sourced(start, log + [e], n, q)
  {
    hide LineGives;
    assert (log + [e])[|log|] == e;
    assert GivenBy(log + [e], |log|, n, q);
  }

  lemma ReadableGrows(log: seq<Event>, e: Event)
    ensures AllSavesReadable(log + [e]) <==> AllSavesReadable(log) && (Saves(e) ==> Readable(e.name, e.pin))
  {
    hide Readable;
    var more := log + [e];
    assert more[|log|] == e;
    assert forall i :: 0 <= i < |log| ==> more[i] == log[i];
  }

  /** An event that is no save, and leaves the file alone. */
  lemma SourcedNote(start: Pins, w: World, e: Event, w': World)
    requires FileSourced(start, w) && !Saves(e)
    requires w'.contents == w.contents && w'.log == w.log + [e]
    ensures FileSourced(start, w')
  {
    hide ParseContents, Sourced, AllSavesReadable;
    ReadableGrows(w.log, e);
    if Parses(w.contents) {
      forall n | n in PinsIn(w.contents) ensures Sourced(start, w'.log, n, PinsIn(w.contents)[n]) {
        SourcedGrows(start, w.log, e, n, PinsIn(w.contents)[n]);
      }
    }
  }

  /** A Save that succeeded, noted as `e`. */
  lemma SourcedSave(start: Pins, w: World, n: Bytes, p: Pin, after: Contents, e: Event, w': World)
    requires FileSourced(start, w) && Atomic(Save(n, p), w.contents, after, Done)
    requires Saves(e) && e.name == n && e.pin == p
    requires w'.contents == after && w'.log == w.log + [e]
    ensures FileSourced(start, w')
  {
    hide Parse, Sourced, AllSavesReadable, Readable, Says, Serializes, TrimSpace;
    SaveReadsBack(w.contents, n, p, after.value);
    ReadableGrows(w.log, e);
    if Parses(after) {
      var m, was := PinsIn(after), PinsIn(w.contents);
      forall k | k in m ensures Sourced(start, w'.log, k, m[k]) {
        if LineGives(n, p, k, m[k]) {
          SourcedByLast(start, w.log, e, k, m[k]);
        } else {
          SourcedGrows(start, w.log, e, k, was[k]);
        }
      }
    }
  }

  /** Any other operation. */
  lemma SourcedKeep(start: Pins, w: World, op: Op, after: Contents, reply: Reply, w': World)
    requires FileSourced(start, w) && Atomic(op, w.contents, after, reply) && !(op.Save? && reply == Done)
    requires w'.contents == after && w'.log == w.log
    ensures FileSourced(start, w')
  {
    hide Parse, Sourced, AllSavesReadable, Serializes, TrimSpace;
    if reply == Done {
      UpdateExact(w.contents, op.name, ZERO_PIN);
    }
  }

  lemma SourcedStep(crypto: Crypto, start: Pins, w: World, a: Action)
    requires FileSourced(start, w) && Enabled(w, a)
    ensures FileSourced(start, Next(crypto, w, a))
  {
    hide FileSourced, AfterParse, AfterConfigure, AfterDial, Atomic;
    var w' := Next(crypto, w, a);
    match a
    case Operate(op, reply, after) =>
      if op.Save? && reply == Done {
        SourcedSave(start, w, op.name, op.pin, after, SetBy(op.name, op.pin), w');
      } else {
        SourcedKeep(start, w, op, after, reply, w');
      }
    case StoreIt(t, reply, after) =>
      var p := w.calls[t].pc.p;
      SaveReplies(p.name, p.pin, w.contents, after, reply);
      if reply == Done {
        SourcedSave(start, w, p.name, p.pin, after, Stored(t, p.name, p.pin), w');
      } else {
        SourcedKeep(start, w, Save(p.name, p.pin), after, reply, w');
      }
    case Begin(t, payload) => SourcedNote(start, w, Began(t, payload), w');
    case Dial(t, reached) =>
      var p := w.calls[t].pc.p;
      var pc := AfterDial(crypto, p, PeerAt(w, p.addr, reached));
      if pc.Shaken? {
        SourcedNote(start, w, Shook(t, p.addr, pc.chain), w');
      } else {
        SourcedSame(start, w, w');
      }
    case _ => SourcedSame(start, w, w');
  }

  lemma SourcedSame(start: Pins, w: World, w': World)
    requires FileSourced(start, w) && w'.contents == w.contents && w'.log == w.log
    ensures FileSourced(start, w')
  {
    hide ParseContents, AllSourced, AllSavesReadable;
  }

  lemma SaveReplies(n: Bytes, p: Pin, before: Contents, after: Contents, reply: Reply)
    requires Atomic(Save(n, p), before, after, reply)
    ensures reply.Failed? || reply == Done
  {
  }

  lemma {:induction false} SourcedRun(crypto: Crypto, start: Pins, w: World, actions: seq<Action>)
    requires FileSourced(start, w) && Runs(crypto, w, actions)
    ensures FileSourced(start, Exec(crypto, w, actions))
    decreases |actions|
  {
    hide FileSourced, Enabled, Next;
    if actions != [] {
      SourcedStep(crypto, start, w, actions[0]);
      SourcedRun(crypto, start, Next(crypto, w, actions[0]), actions[1..]);
    }
  }

  lemma SourcedAtStart(w: World)
    requires Start(w) && Parses(w.contents)
    ensures FileSourced(PinsIn(w.contents), w)
  {
    hide ParseContents;
  }

  /** The `i`-th event says `q` for `n`; when a Pair call stored it, that call verified the pin it stored in
      a handshake, and when its name has no newline, `q` is that very pin and `n` is that name up to leading
      white space. */
  ghost predicate Accounted(crypto: Crypto, log: seq<Event>, i: nat, n: Bytes, q: Pin) {
    && GivenBy(log, i, n, q)
    && (log[i].Stored? ==> Justified(crypto, log, i))
    && (NEWLINE !in log[i].name ==> q == log[i].pin && n == TrimLeft(log[i].name))
  }

  lemma GivenIsAccounted(crypto: Crypto, log: seq<Event>, i: nat, n: Bytes, q: Pin)
    requires GivenBy(log, i, n, q) && (log[i].Stored? ==> Justified(crypto, log, i))
    ensures Accounted(crypto, log, i, n, q)
  {
    hide Readable, Says, TrimLeft, Justified;
    if NEWLINE !in log[i].name {
      NewlineFreeGives(log[i].name, log[i].pin, n, q);
    }
  }

  /** Over every interleaving, whatever names are saved: the file can be read exactly when every entry saved
      on the way can, and then every pin in it was there at the start or was given by a saved entry: one
      saved by somebody other than Pair, or one whose own pin the Pair call that stored it had verified. Under
      a name without a newline the pin given is the pin saved. */
  lemma FilePinsAreVerified(crypto: Crypto, w: World, actions: seq<Action>)
    requires Start(w) && Parses(w.contents) && Runs(crypto, w, actions)
    ensures var e, start := Exec(crypto, w, actions), PinsIn(w.contents);
            && (Parses(e.contents) <==> AllSavesReadable(e.log))
            && (Parses(e.contents) ==> forall n :: n in PinsIn(e.contents) ==>
                  var q := PinsIn(e.contents)[n];
                  (n in start && start[n] == q) || exists i :: Accounted(crypto, e.log, i, n, q))
  {
    hide ParseContents, Atomic, FileSourced;
    SourcedAtStart(w);
    SourcedRun(crypto, PinsIn(w.contents), w, actions);
    PairingSafety(crypto, w, actions);
    hide Runs, Exec, Justified, Accounted;
    var e, start := Exec(crypto, w, actions), PinsIn(w.contents);
    FileSourcedMeans(start, e);
    if Parses(e.contents) {
      forall n | n in PinsIn(e.contents)
        ensures var q := PinsIn(e.contents)[n];
                (n in start && start[n] == q) || exists i :: Accounted(crypto, e.log, i, n, q)
      {
        var q := PinsIn(e.contents)[n];
        if i: nat :| GivenBy(e.log, i, n, q) {
          GivenIsAccounted(crypto, e.log, i, n, q);
        }
      }
    }
  }

  lemma FileSourcedMeans(start: Pins, w: World)
    requires FileSourced(start, w)
    ensures Parses(w.contents) <==> AllSavesReadable(w.log)
    ensures Parses(w.contents) ==> forall n :: n in PinsIn(w.contents) ==> Sourced(start, w.log, n, PinsIn(w.contents)[n])
  {
    hide ParseContents, Sourced, AllSavesReadable;
  }

  /** The zero pin is in the file for `n` only if it was at the start, if somebody other than Pair saved an
      entry that gives it, or if a Pair call stored some other, verified pin under a name with a newline whose
      lines give it. So without newlines in the stored names, pairing never puts it there, although a payload
      can say it. */
  lemma NoZeroPinFromPairing(crypto: Crypto, w: World, actions: seq<Action>, n: Bytes)
    requires Start(w) && Parses(w.contents) && Runs(crypto, w, actions)
    requires Parses(Exec(crypto, w, actions).contents)
    requires n !in PinsIn(w.contents) || PinsIn(w.contents)[n] != ZERO_PIN
    requires forall i: nat :: i < |Exec(crypto, w, actions).log| && Exec(crypto, w, actions).log[i].SetBy? ==>
               !GivenBy(Exec(crypto, w, actions).log, i, n, ZERO_PIN)
    ensures var e := Exec(crypto, w, actions);
            n in PinsIn(e.contents) && PinsIn(e.contents)[n] == ZERO_PIN ==>
              exists i: nat :: GivenBy(e.log, i, n, ZERO_PIN) && e.log[i].Stored? && NEWLINE in e.log[i].name
                               && e.log[i].pin != ZERO_PIN && Justified(crypto, e.log, i)
  {
    hide ParseContents, Atomic, GivenBy, Justified, Accounted;
    FilePinsAreVerified(crypto, w, actions);
    hide Runs, Exec;
    var e := Exec(crypto, w, actions);
    if n in PinsIn(e.contents) && PinsIn(e.contents)[n] == ZERO_PIN {
      var i: nat :| Accounted(crypto, e.log, i, n, ZERO_PIN);
      ZeroByNewline(crypto, e.log, i, n);
    }
  }

  lemma ZeroByNewline(crypto: Crypto, log: seq<Event>, i: nat, n: Bytes)
    requires Accounted(crypto, log, i, n, ZERO_PIN)
    ensures GivenBy(log, i, n, ZERO_PIN) && i < |log|
    ensures log[i].SetBy? || (log[i].Stored? && NEWLINE in log[i].name && log[i].pin != ZERO_PIN && Justified(crypto, log, i))
  {
    hide LineGives, TrimLeft, Verified;
  }

  /** It does happen: with a verified pin `p`, a payload whose name carries the line of another name in front
      of its own makes a Pair call report success and put any pin `q` at all, also the zero pin, into the file
      under that other name. */
  lemma NewlineNameStoresAnyPin(crypto: Crypto, w: World, t: CallId, n1: Bytes, q: Pin, n2: Bytes, addr: Bytes, p: Pin)
    returns (actions: seq<Action>)
    requires Parses(w.contents) && t !in w.calls
    requires SafeName(n1) && SafeName(n2) && n1 != n2
    requires SplitsHostPort(addr) && addr in w.peers && p != ZERO_PIN && LeafMatches(crypto, w.peers[addr], p)
    ensures Runs(crypto, w, actions)
    ensures var e, name := Exec(crypto, w, actions), TwoLineName(n1, q, n2);
            && e.calls == w.calls[t := PairCall(EncodePairPayload(name, addr, p), Returned(Ok(Box(name, addr, p))))]
            && Parses(e.contents)
            && PinsIn(e.contents) == PinsIn(w.contents)[n1 := q][n2 := p]
  {
    hide ParseContents, SafeName, SplitsHostPort, LeafMatches, EncodePairPayload, ParsePairPayload, Atomic, Runs, Exec, PrintLine, MeetsFailure;
    var name := TwoLineName(n1, q, n2);
    var payload, box := EncodePairPayload(name, addr, p), Box(name, addr, p);
    PayloadRoundTrip(name, addr, p);
    ConfigAcceptsExactly(crypto, box, w.peers[addr]);
    var after := TwoLineSave(w.contents, n1, q, n2, p);
    var io := IO(true, true, true, 0, Whole, true, true, true, true, true);
    assert !MeetsFailure(Save(name, p), w.contents, io) by { NothingFails(Save(name, p), w.contents, io); }
    actions := AloneIsARun(crypto, w, t, payload, io, true, after, Ok(box));
  }

  lemma NothingFails(op: Op, before: Contents, io: IO)
    requires io.read && io.Commits()
    ensures !MeetsFailure(op, before, io)
  {
    hide ParseContents, TrimSpace;
  }

  lemma TwoLineSave(c: Contents, n1: Bytes, q: Pin, n2: Bytes, p: Pin) returns (after: Contents)
    requires Parses(c) && SafeName(n1) && SafeName(n2) && n1 != n2
    ensures TwoLineName(n1, q, n2) != []
    ensures Atomic(Save(TwoLineName(n1, q, n2), p), c, after, Done)
    ensures Parses(after) && PinsIn(after) == PinsIn(c)[n1 := q][n2 := p]
  {
    hide Parse, Says, Readable, SafeName, Serializes, TrimSpace, PinString;
    var name := TwoLineName(n1, q, n2);
    TwoLineNameSays(n1, q, n2, p);
    var data := SaveEndingIn(c, name, p);
    NamesWithNewlineAbsent(c, name);
    after := Some(data);
  }

  lemma NamesWithNewlineAbsent(c: Contents, n: Bytes)
    requires Parses(c) && NEWLINE in n
    ensures n !in PinsIn(c) && PinsIn(c) - {n} == PinsIn(c)
  {
    hide Parse;
    ParsedNamesAreSafe(c);
  }

  // ---- Pair, then load, then connect ----

  /** After a call has stored its pin under a safe name, and after any further run whose successful store
      operations spare that name and pin, Load answers with that pin. A connection made with it goes through
      to exactly the peers whose leaf key has that digest, so also after the certificate has been re-issued
      under the same key. */
  lemma PairLoadConnect(crypto: Crypto, w: World, t: CallId, after: Contents, actions: seq<Action>, reply: Reply, found: Contents,
                        addr: Bytes, chain: seq<Bytes>, reissued: seq<Bytes>)
    requires Inv(crypto, w) && Parses(w.contents) && Enabled(w, StoreIt(t, Done, after))
    requires var name := w.calls[t].pc.p.name;
             && SafeName(name)
             && var w' := Next(crypto, w, StoreIt(t, Done, after));
             && Runs(crypto, w', actions)
             && (forall s :: s in StoreSteps(crypto, w', actions) && s.reply == Done ==> Spares(s.op, name, Some(w.calls[t].pc.p.pin)))
             && Enabled(Exec(crypto, w', actions), Operate(Load(name), reply, found)) && reply != Failed(InputOutput)
    ensures var p := w.calls[t].pc.p;
            && reply == Found(p.pin)
            && (Accepts(crypto, Box(p.name, addr, p.pin), chain) <==> LeafMatches(crypto, chain, p.pin))
            && (SameLeafKey(crypto, chain, reissued) ==>
                  (Accepts(crypto, Box(p.name, addr, p.pin), chain) <==> Accepts(crypto, Box(p.name, addr, p.pin), reissued)))
  {
    hide ParseContents, Spares, SafeName, LeafMatches, Accepts, Inv, Runs, Exec, StoreSteps, Atomic;
    var p := w.calls[t].pc.p;
    ShakenPinIsSet(crypto, w, t);
    SafeSave(p.name, p.pin, w.contents, after);
    LoadAfterRun(crypto, Next(crypto, w, StoreIt(t, Done, after)), actions, p.name, reply, found);
    ConfigAcceptsExactly(crypto, Box(p.name, addr, p.pin), chain);
    if SameLeafKey(crypto, chain, reissued) {
      VerdictFollowsTheKey(crypto, Box(p.name, addr, p.pin), Box(p.name, addr, p.pin), chain, reissued);
    }
  }

  /** Both leaves parse, and have one public key. */
  predicate SameLeafKey(crypto: Crypto, chain: seq<Bytes>, reissued: seq<Bytes>) {
    && chain != [] && crypto.parseCertificate(chain[0]).Some?
    && reissued != [] && crypto.parseCertificate(reissued[0]).Some?
    && crypto.parseCertificate(chain[0]).value.rawSubjectPublicKeyInfo
       == crypto.parseCertificate(reissued[0]).value.rawSubjectPublicKeyInfo
  }

  lemma ShakenPinIsSet(crypto: Crypto, w: World, t: CallId)
    requires Inv(crypto, w) && t in w.calls && w.calls[t].pc.Shaken?
    ensures w.calls[t].pc.p.pin != ZERO_PIN
  {
    hide Justified;
    assert CallOk(crypto, w.log, t, w.calls[t]);
  }

  /** A run whose successful store operations spare a stored name does not change what Load answers. */
  lemma LoadAfterRun(crypto: Crypto, w: World, actions: seq<Action>, name: Bytes, reply: Reply, found: Contents)
    requires Parses(w.contents) && name in PinsIn(w.contents) && Runs(crypto, w, actions)
    requires forall s :: s in StoreSteps(crypto, w, actions) && s.reply == Done ==> Spares(s.op, name, Some(PinsIn(w.contents)[name]))
    requires Enabled(Exec(crypto, w, actions), Operate(Load(name), reply, found)) && reply != Failed(InputOutput)
    ensures reply == Found(PinsIn(w.contents)[name])
  {
    hide Parse, Spares, StoreSteps, Runs, Exec, TrimSpace, Serializes;
    PairingIsStoreRun(crypto, w, actions);
    OthersLeavePinAlone(w.contents, StoreSteps(crypto, w, actions), name);
  }

  lemma SafeSave(name: Bytes, pin: Pin, before: Contents, after: Contents)
    requires Parses(before) && SafeName(name) && Atomic(Save(name, pin), before, after, Done)
    ensures Parses(after) && name in PinsIn(after) && PinsIn(after)[name] == pin
  {
    hide ParseContents, SafeName, Atomic;
    SafeStep(Save(name, pin), before, after, Done);
  }

  // ---- The sequential code is one of these runs ----

  lemma RunsNil(crypto: Crypto, w: World)
    ensures Runs(crypto, w, []) && Exec(crypto, w, []) == w
  {
  }

  lemma RunsOne(crypto: Crypto, w: World, a: Action, rest: seq<Action>)
    requires Enabled(w, a) && Runs(crypto, Next(crypto, w, a), rest)
    ensures Runs(crypto, w, [a] + rest) && Exec(crypto, w, [a] + rest) == Exec(crypto, Next(crypto, w, a), rest)
  {
    hide Enabled, Next;
    assert ([a] + rest)[1..] == rest;
  }

  /** The end of a call that has its configuration, run alone. */
  lemma DialAlone(crypto: Crypto, w: World, t: CallId, io: IO, reached: bool, after: Contents, result: PairResult)
    returns (actions: seq<Action>)
    requires t in w.calls && w.calls[t].pc.Configured?
    requires ParsePairPayload(w.calls[t].payload) == Ok(w.calls[t].pc.p)
    requires MakeTlsConfig(crypto, Candidate(w.calls[t].pc.p)).Ok?
    requires PairAlone(crypto, w.calls[t].payload, PeerAt(w, w.calls[t].pc.p.addr, reached), io, w.contents, after, result)
    ensures Runs(crypto, w, actions)
    ensures var e := Exec(crypto, w, actions);
            e.contents == after && e.peers == w.peers && e.calls == w.calls[t := w.calls[t].(pc := Returned(result))]
  {
    hide Runs, Exec, ParsePairPayload, Atomic, MeetsFailure, SplitsHostPort;
    var p := w.calls[t].pc.p;
    var w' := Next(crypto, w, Dial(t, reached));
    var tail: seq<Action> := [];
    if w'.calls[t].pc.Shaken? {
      var reply :| Atomic(Save(p.name, p.pin), w.contents, after, reply) && result == SaveResult(p, reply);
      RunsNil(crypto, Next(crypto, w', StoreIt(t, reply, after)));
      RunsOne(crypto, w', StoreIt(t, reply, after), []);
      tail := [StoreIt(t, reply, after)] + [];
    } else {
      RunsNil(crypto, w');
    }
    RunsOne(crypto, w, Dial(t, reached), tail);
    actions := [Dial(t, reached)] + tail;
  }

  /** Whatever `Pair` does alone against the peer at its payload's address is a run of the interleaved
      calls, with the same file and the same result. */
  lemma AloneIsARun(crypto: Crypto, w: World, t: CallId, payload: Bytes, io: IO, reached: bool, after: Contents, result: PairResult)
    returns (actions: seq<Action>)
    requires t !in w.calls
    requires var addr := match ParsePairPayload(payload) case Ok(p) => p.addr case Err(_) => [];
             PairAlone(crypto, payload, PeerAt(w, addr, reached), io, w.contents, after, result)
    ensures Runs(crypto, w, actions)
    ensures var e := Exec(crypto, w, actions);
            e.contents == after && e.peers == w.peers && e.calls == w.calls[t := PairCall(payload, Returned(result))]
  {
    hide Runs, Exec, ParsePairPayload, Atomic, Completes, MeetsFailure;
    var w1 := Next(crypto, w, Begin(t, payload));
    var w2 := Next(crypto, w1, ParseIt(t));
    var tail: seq<Action> := [];
    if ParsePairPayload(payload).Ok? {
      var p := ParsePairPayload(payload).value;
      var w3 := Next(crypto, w2, Configure(t));
      if MakeTlsConfig(crypto, Candidate(p)).Ok? {
        tail := DialAlone(crypto, w3, t, io, reached, after, result);
      } else {
        RunsNil(crypto, w3);
      }
      RunsOne(crypto, w2, Configure(t), tail);
      tail := [Configure(t)] + tail;
    } else {
      RunsNil(crypto, w2);
    }
    RunsOne(crypto, w1, ParseIt(t), tail);
    RunsOne(crypto, w, Begin(t, payload), [ParseIt(t)] + tail);
    actions := [Begin(t, payload)] + ([ParseIt(t)] + tail);
  }

  // ---- From the box's screen to the file ----

  /** The handshake was with the box that the payload describes. */
  predicate Met(crypto: Crypto, p: Payload, peer: Peer) {
    p.pin != ZERO_PIN && peer.Presents? && LeafMatches(crypto, peer.chain, p.pin)
  }

  /** What Pair answers, in full: each failure has its own condition, the conditions exclude each other in the
      order in which the steps are taken, and when none holds the box of the payload is the answer. */
  lemma PairAnswersExactly(crypto: Crypto, payload: Bytes, peer: Peer, io: IO, before: Contents, after: Contents, result: PairResult)
    requires PairAlone(crypto, payload, peer, io, before, after, result)
    ensures forall e :: result == Err(BadPayload(e)) <==> ParsePairPayload(payload) == Err(e)
    ensures ParsePairPayload(payload).Ok? ==>
              var p := ParsePairPayload(payload).value;
              var saves := Met(crypto, p, peer) && TrimSpace(p.name) != [];
              && (result == Err(NoConfig(Unpaired(p.name))) <==> p.pin == ZERO_PIN)
              && (result == Err(DialFailed) <==> p.pin != ZERO_PIN && !Met(crypto, p, peer))
              && (result == Err(SaveFailed(EmptyName)) <==> Met(crypto, p, peer) && TrimSpace(p.name) == [])
              && (result == Err(SaveFailed(InputOutput)) <==> saves && (!io.read || (Parses(before) && !io.Commits())))
              && (forall e :: result == Err(SaveFailed(e)) && e != InputOutput && e != EmptyName <==>
                    saves && io.read && ParseContents(before) == Err(e))
              && (result.Ok? <==> saves && io.read && Parses(before) && io.Commits())
              && (result.Ok? ==>
                    && result.value == Box(p.name, p.addr, p.pin)
                    && after.Some? && Serializes(after.value, PinsIn(before)[p.name := p.pin]))
    ensures result.Err? ==> after == before
  {
    hide ParsePairPayload, Parse, TrimSpace, Serializes, LeafMatches;
    if ParsePairPayload(payload).Ok? {
      var p := ParsePairPayload(payload).value;
      if peer.Presents? {
        ConfigAcceptsExactly(crypto, Candidate(p), peer.chain);
      }
    }
  }

  /** A box shows the payload for a name, address and pin, and a client pairs from it: whatever the bytes,
      the call succeeds exactly when the name is not blank, the address splits, the pin is not zero, the
      peer's leaf key has that digest, the file can be read and every system call works. The file then holds
      exactly the old map with that pin under that name, if and only if the name is safe. */
  lemma PairEndToEnd(crypto: Crypto, name: Bytes, addr: Bytes, pin: Pin, peer: Peer, io: IO, before: Contents, after: Contents, result: PairResult)
    requires PairAlone(crypto, EncodePairPayload(name, addr, pin), peer, io, before, after, result)
    ensures result.Ok? <==>
            && TrimSpace(name) != [] && SplitsHostPort(addr)
            && pin != ZERO_PIN && peer.Presents? && LeafMatches(crypto, peer.chain, pin)
            && io.read && Parses(before) && io.Commits()
    ensures result.Ok? ==> result.value == Box(name, addr, pin)
    ensures result.Ok? ==> (ParseContents(after) == Ok(PinsIn(before)[name := pin]) <==> SafeName(name))
    ensures result.Err? ==> after == before
  {
    hide EncodePairPayload, ParsePairPayload, Parse, TrimSpace, SafeName, SplitsHostPort, Serializes, LeafMatches;
    PayloadRoundTrip(name, addr, pin);
    if name == [] {
      assert TrimSpace(name) == [] by { NothingTrims(); }
    }
    if peer.Presents? {
      ConfigAcceptsExactly(crypto, Box(name, addr, pin), peer.chain);
    }
    if Parses(before) {
      UpdateExact(before, name, pin);
    }
  }

  lemma NothingTrims()
    ensures TrimSpace([]) == []
  {
  }
}
