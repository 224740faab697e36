/** The shell's service worker (frontend/public/sw.js) and its predecessor without the retry
    (out-arm64/webroot/sw.js): every callback is one step, and steps come in any order. */
module ServiceWorker {
  import opened Wrappers

  datatype Url = Unparsable | Url(origin: string, pathname: string, search: string)

  datatype Request = Request(verb: string, url: Url, navigate: bool)

  datatype Response = Response(status: nat, opaqueType: bool, body: string)

  const CURRENT := "vulos-os-shell-v1"

  const NEVER_CACHE: seq<string> := ["/api/", "/collab/", "/jmap", "/dav/", "/auth/"]

  const SHELL_PATHS: seq<string> := ["/", "/index.html", "/manifest.json", "/icon-32.png", "/icon-192.png", "/icon-512.png"]

  /** No reserved prefix applies to the path. */
  predicate Cacheable(u: Url) {
    u.Url? && forall i :: 0 <= i < |NEVER_CACHE| ==> !(NEVER_CACHE[i] <= u.pathname)
  }

  /** The reserved prefixes, written out. */
  predicate Reserved(path: string) {
    "/api/" <= path || "/collab/" <= path || "/jmap" <= path || "/dav/" <= path || "/auth/" <= path
  }

  lemma CacheableExactly(u: Url)
    ensures Cacheable(u) <==> u.Url? && !Reserved(u.pathname)
  {
    assert NEVER_CACHE[0] == "/api/" && NEVER_CACHE[1] == "/collab/" && NEVER_CACHE[2] == "/jmap";
    assert NEVER_CACHE[3] == "/dav/" && NEVER_CACHE[4] == "/auth/" && |NEVER_CACHE| == 5;
  }

  /** `shouldCache`. */
  method ShouldCache(u: Url) returns (yes: bool)
    ensures yes == Cacheable(u)
    ensures yes <==> u.Url? && !Reserved(u.pathname)
  {
    CacheableExactly(u);
    if u.Unparsable? {
      return false;
    }
    var i := 0;
    while i < |NEVER_CACHE|
      invariant 0 <= i <= |NEVER_CACHE|
      invariant forall k :: 0 <= k < i ==> !(NEVER_CACHE[k] <= u.pathname)
    {
      if u.pathname == NEVER_CACHE[i] || NEVER_CACHE[i] <= u.pathname {
        return false;
      }
      i := i + 1;
    }
    return true;
  }

  /** Which worker, and where it lives. */
  datatype Worker = Worker(home: string, retry: bool)

  function ShellUrl(home: string, i: nat): Url
    requires i < |SHELL_PATHS|
  {
    Url(home, SHELL_PATHS[i], "")
  }

  function Root(home: string): Url { Url(home, "/", "") }

  function Index(home: string): Url { Url(home, "/index.html", "") }

  // ---- State ----

  /** `Settled` holds what the network side of the handler came to; `None` is a network error. */
  datatype Phase = Matching | Fetching | FallbackIndex | FallbackRoot | Retrying | Settled(answer: Option<Response>)

  /** Where the network side looks for its answer: at the request's own URL, or in the cached shell. */
  datatype Via = Own | ViaIndex | ViaRoot

  /** One intercepted fetch. `tries` counts its network attempts. */
  datatype Flight = Flight(request: Request, cached: Option<Response>, phase: Phase, via: Via, tries: nat)

  /** The write that attempt `attempt` of fetch `f` started and that has not landed yet. */
  datatype PutId = PutId(f: nat, attempt: nat)

  datatype Entry = Entry(url: Url, response: Response)

  type Cache = map<Url, Response>

  /** `order` lists the caches as they were created and `todo` what an activation still has to delete; `given`
      records every response the origin gave, and `installed` what `addAll` has written. */
  datatype State = State(order: seq<string>, caches: map<string, Cache>, flights: map<nat, Flight>, puts: map<PutId, Entry>,
                         batch: Option<seq<Response>>, todo: set<string>, given: set<Entry>, installed: set<Entry>)

  // ---- Cache storage ----

  /** `caches.match`: the first cache, in order of creation, that has the key. */
  function Match(order: seq<string>, caches: map<string, Cache>, u: Url): (r: Option<Response>) {
    if order == [] then None
    else if order[0] in caches && u in caches[order[0]] then Some(caches[order[0]][u])
    else Match(order[1..], caches, u)
  }

  /** `caches.open`. */
  function Open(s: State, name: string): State {
    if name in s.caches then s else s.(order := s.order + [name], caches := s.caches[name := map[]])
  }

  function PutIn(s: State, name: string, e: Entry): (r: State)
    ensures r == s.(order := r.order, caches := r.caches)
  {
    var o := Open(s, name);
    o.(caches := o.caches[name := o.caches[name][e.url := e.response]])
  }

  function Without(order: seq<string>, name: string): (r: seq<string>)
    ensures forall k :: k in r <==> k in order && k != name
  {
    if order == [] then []
    else (if order[0] == name then [] else [order[0]]) + Without(order[1..], name)
  }

  function PutBatch(home: string, c: Cache, rs: seq<Response>): Cache
    requires |rs| <= |SHELL_PATHS|
  {
    if rs == [] then c
    else PutBatch(home, c, rs[..|rs| - 1])[ShellUrl(home, |rs| - 1) := rs[|rs| - 1]]
  }

  function ShellEntries(home: string, rs: seq<Response>): set<Entry> {
    set i | 0 <= i < |rs| && i < |SHELL_PATHS| :: Entry(ShellUrl(home, i), rs[i])
  }

  // ---- Steps ----

  datatype Action =
    | Fetch(f: nat, request: Request)
    | Matched(f: nat)
    | Network(f: nat, outcome: Option<Response>)
    | IndexMatched(f: nat)
    | RootMatched(f: nat)
    | Retried(f: nat, outcome: Option<Response>)
    | PutLands(p: PutId, ok: bool)
    | ShellFetched(outcomes: seq<Option<Response>>)
    | ShellPut
    | Listed
    | Deleted(name: string)
    | OtherPut(name: string, e: Entry)

  predicate Intercepts(r: Request) {
    r.verb == "GET" && Cacheable(r.url)
  }

  /** What the handler keeps. */
  predicate Keeps(r: Response) {
    r.status == 200 && !r.opaqueType
  }

  /** What `addAll` accepts. */
  predicate AddAllAccepts(r: Response) {
    200 <= r.status < 300 && r.status != 206 && !r.opaqueType
  }

  function SetFlight(s: State, f: nat, fl: Flight): State {
    s.(flights := s.flights[f := fl])
  }

  /** A response came in on attempt `attempt` of fetch `f`. */
  function Received(s: State, f: nat, attempt: nat, r: Response): State
    requires f in s.flights
  {
    var fl := s.flights[f];
    var e := Entry(fl.request.url, r);
    s.(flights := s.flights[f := fl.(phase := Settled(Some(r)))],
       puts := if Keeps(r) then s.puts[PutId(f, attempt) := e] else s.puts,
       given := s.given + {e})
  }

  predicate InPhase(s: State, f: nat, p: Phase) {
    f in s.flights && s.flights[f].phase == p
  }

  predicate AllArrived(outcomes: seq<Option<Response>>) {
    |outcomes| == |SHELL_PATHS| && forall i :: 0 <= i < |outcomes| ==> outcomes[i].Some? && AddAllAccepts(outcomes[i].value)
  }

  function Arrived(outcomes: seq<Option<Response>>): (rs: seq<Response>)
    requires forall i :: 0 <= i < |outcomes| ==> outcomes[i].Some?
    ensures |rs| == |outcomes| && forall i :: 0 <= i < |rs| ==> rs[i] == outcomes[i].value
  {
    if outcomes == [] then [] else Arrived(outcomes[..|outcomes| - 1]) + [outcomes[|outcomes| - 1].value]
  }

  function GivenByShell(home: string, outcomes: seq<Option<Response>>): set<Entry> {
    set i | 0 <= i < |outcomes| && i < |SHELL_PATHS| && outcomes[i].Some? :: Entry(ShellUrl(home, i), outcomes[i].value)
  }

  /** The handler starts: only a GET for a cacheable URL is intercepted. */
  function OnFetch(s: State, f: nat, r: Request): State {
    if f in s.flights || !Intercepts(r) then s else SetFlight(s, f, Flight(r, None, Matching, Own, 0))
  }

  /** `caches.match` has answered, and the first network attempt goes out whatever it said. */
  function OnMatched(s: State, f: nat): State {
    if !InPhase(s, f, Matching) then s
    else
      var fl := s.flights[f];
      SetFlight(s, f, fl.(cached := Match(s.order, s.caches, fl.request.url), phase := Fetching, tries := 1))
  }

  /** The first attempt succeeded or failed. */
  function OnNetwork(w: Worker, s: State, f: nat, outcome: Option<Response>): State {
    if !InPhase(s, f, Fetching) then s
    else
      var fl := s.flights[f];
      if outcome.Some? then Received(s, f, 1, outcome.value)
      else if fl.request.navigate then SetFlight(s, f, fl.(phase := FallbackIndex, via := ViaIndex))
      else if w.retry then SetFlight(s, f, fl.(phase := Retrying, tries := 2))
      else SetFlight(s, f, fl.(phase := Settled(None)))
  }

  /** `/index.html` is the answer, or `/` is looked for. */
  function AfterIndex(fl: Flight, hit: Option<Response>): Flight {
    if hit.Some? then fl.(phase := Settled(hit)) else fl.(phase := FallbackRoot, via := ViaRoot)
  }

  function OnIndexMatched(w: Worker, s: State, f: nat): State {
    if !InPhase(s, f, FallbackIndex) then s
    else
      var hit := Match(s.order, s.caches, Index(w.home));
      SetFlight(s, f, AfterIndex(s.flights[f], hit))
  }

  function OnRootMatched(w: Worker, s: State, f: nat): State {
    if !InPhase(s, f, FallbackRoot) then s
    else SetFlight(s, f, s.flights[f].(phase := Settled(Match(s.order, s.caches, Root(w.home)))))
  }

  /** The second attempt succeeded or failed. */
  function OnRetried(s: State, f: nat, outcome: Option<Response>): State {
    if !InPhase(s, f, Retrying) then s
    else if outcome.Some? then Received(s, f, 2, outcome.value)
    else SetFlight(s, f, s.flights[f].(phase := Settled(None)))
  }

  /** A write lands, or is rejected. */
  function OnPut(s: State, p: PutId, ok: bool): State {
    if p !in s.puts then s
    else
      var s' := s.(puts := s.puts - {p});
      if ok then PutIn(s', CURRENT, s.puts[p]) else s'
  }

  /** Install: the cache is opened and the shell fetched; `addAll` goes on only if all of it is fine. */
  function OnShellFetched(w: Worker, s: State, outcomes: seq<Option<Response>>): State {
    var o := Open(s, CURRENT);
    o.(given := s.given + GivenByShell(w.home, outcomes), batch := if AllArrived(outcomes) then Some(Arrived(outcomes)) else None)
  }

  function OnShellPut(w: Worker, s: State): State {
    if s.batch.None? || |s.batch.value| > |SHELL_PATHS| then s
    else
      var o := Open(s, CURRENT).(batch := None, installed := s.installed + ShellEntries(w.home, s.batch.value));
      o.(caches := o.caches[CURRENT := PutBatch(w.home, o.caches[CURRENT], s.batch.value)])
  }

  /** Activate: the names are listed, then deleted one by one. */
  function OnListed(s: State): State {
    s.(todo := s.caches.Keys - {CURRENT})
  }

  function OnDeleted(s: State, name: string): State {
    if name !in s.todo then s
    else s.(order := Without(s.order, name), caches := s.caches - {name}, todo := s.todo - {name})
  }

  /** Another version of the worker writes: to a cache of its own, or, by the same handler's rule, to the
      current one, which it shares with its predecessor. */
  function OnOtherPut(s: State, name: string, e: Entry): State {
    if !Cacheable(e.url) || (name == CURRENT && !Keeps(e.response)) then s
    else PutIn(s.(given := s.given + {e}), name, e)
  }

  /** One callback. A callback that does not apply to the state does nothing, so any sequence of actions
      is a run. */
  function Next(w: Worker, s: State, a: Action): State {
    match a
    case Fetch(f, r) => OnFetch(s, f, r)
    case Matched(f) => OnMatched(s, f)
    case Network(f, outcome) => OnNetwork(w, s, f, outcome)
    case IndexMatched(f) => OnIndexMatched(w, s, f)
    case RootMatched(f) => OnRootMatched(w, s, f)
    case Retried(f, outcome) => OnRetried(s, f, outcome)
    case PutLands(p, ok) => OnPut(s, p, ok)
    case ShellFetched(outcomes) => OnShellFetched(w, s, outcomes)
    case ShellPut => OnShellPut(w, s)
    case Listed => OnListed(s)
    case Deleted(name) => OnDeleted(s, name)
    case OtherPut(name, e) => OnOtherPut(s, name, e)
  }

  function Exec(w: Worker, s: State, actions: seq<Action>): State
    decreases |actions|
  {
    if actions == [] then s else Exec(w, Next(w, s, actions[0]), actions[1..])
  }

  /** What the page gets for a fetch: the cached response if there was one, or else what the network side
      came to. */
  datatype Reply = Waiting | NetworkError | Answered(response: Response)

  function ReplyOf(fl: Flight): Reply {
    if fl.cached.Some? then Answered(fl.cached.value)
    else match fl.phase
      case Settled(Some(r)) => Answered(r)
      case Settled(None) => NetworkError
      case _ => Waiting
  }

  // ---- What every step keeps ----

  /** The caches hold only responses that the origin gave for cacheable URLs, and the current cache only
      what `addAll` accepts, of status 200 unless `addAll` put it there. */
  ghost predicate CachesOk(home: string, installed: set<Entry>, order: seq<string>, caches: map<string, Cache>, given: set<Entry>) {
    && InstalledOk(home, installed, given)
    && (forall k :: k in caches <==> k in order)
    && (forall k, u :: k in caches && u in caches[k] ==> EntryOk(installed, given, k, u, caches[k][u]))
  }

  /** `addAll` writes what it accepts, under the shell's URLs. */
  ghost predicate InstalledOk(home: string, installed: set<Entry>, given: set<Entry>) {
    forall e :: e in installed ==> IsShell(home, e.url) && AddAllAccepts(e.response) && e in given
  }

  ghost predicate EntryOk(installed: set<Entry>, given: set<Entry>, k: string, u: Url, r: Response) {
    Cacheable(u) && Entry(u, r) in given && (k == CURRENT ==> Keeps(r) || Entry(u, r) in installed)
  }

  ghost predicate IsShell(home: string, u: Url) {
    exists i :: 0 <= i < |SHELL_PATHS| && u == ShellUrl(home, i)
  }

  ghost predicate PutOk(w: Worker, flights: map<nat, Flight>, given: set<Entry>, p: PutId, e: Entry) {
    && p.f in flights && flights[p.f].request.url == e.url
    && Cacheable(e.url) && e in given && Keeps(e.response)
    && (p.attempt == 1 || (p.attempt == 2 && w.retry))
  }

  ghost predicate BatchOk(home: string, batch: Option<seq<Response>>, given: set<Entry>) {
    batch.Some? ==>
      && |batch.value| == |SHELL_PATHS|
      && forall i :: 0 <= i < |SHELL_PATHS| ==> AddAllAccepts(batch.value[i]) && Entry(ShellUrl(home, i), batch.value[i]) in given
  }

  /** The response was given for the request's own URL or, for a navigation, for the app shell. */
  ghost predicate Genuine(home: string, given: set<Entry>, q: Request, r: Response) {
    || Entry(q.url, r) in given
    || (q.navigate && (Entry(Index(home), r) in given || Entry(Root(home), r) in given))
  }

  predicate TriesOk(w: Worker, fl: Flight) {
    && (fl.via.Own? || fl.request.navigate)
    && match fl.phase
       case Matching => fl.tries == 0 && fl.cached.None? && fl.via.Own?
       case Fetching => fl.tries == 1 && fl.via.Own?
       case FallbackIndex => fl.tries == 1 && fl.via.ViaIndex?
       case FallbackRoot => fl.tries == 1 && fl.via.ViaRoot?
       case Retrying => fl.tries == 2 && fl.via.Own? && w.retry && !fl.request.navigate
       case Settled(_) => fl.tries == 1 || (fl.tries == 2 && fl.via.Own? && w.retry && !fl.request.navigate)
  }

  function NetworkUrl(home: string, fl: Flight): Url {
    match fl.via
    case Own => fl.request.url
    case ViaIndex => Index(home)
    case ViaRoot => Root(home)
  }

  /** The URL whose response answers the fetch. */
  function AnswerUrl(home: string, fl: Flight): Url {
    if fl.cached.Some? then fl.request.url else NetworkUrl(home, fl)
  }

  ghost predicate FlightOk(w: Worker, given: set<Entry>, fl: Flight) {
    && Intercepts(fl.request)
    && (fl.cached.Some? ==> Entry(fl.request.url, fl.cached.value) in given)
    && (fl.phase.Settled? && fl.phase.answer.Some? ==> Entry(NetworkUrl(w.home, fl), fl.phase.answer.value) in given)
    && TriesOk(w, fl)
  }

  ghost predicate Inv(w: Worker, s: State) {
    && CachesOk(w.home, s.installed, s.order, s.caches, s.given)
    && (forall p :: p in s.puts ==> PutOk(w, s.flights, s.given, p, s.puts[p]))
    && BatchOk(w.home, s.batch, s.given)
    && CURRENT !in s.todo
    && (forall f :: f in s.flights ==> FlightOk(w, s.given, s.flights[f]))
  }

  /** A worker that starts: caches may be left over from earlier versions. */
  ghost predicate Start(w: Worker, s: State) {
    CachesOk(w.home, s.installed, s.order, s.caches, s.given) && s.flights == map[] && s.puts == map[] && s.batch == None && s.todo == {}
  }

  lemma {:induction false} MatchMeans(order: seq<string>, caches: map<string, Cache>, u: Url)
    ensures Match(order, caches, u).Some? <==> exists k :: k in order && k in caches && u in caches[k]
    ensures Match(order, caches, u).Some? ==>
              exists k :: k in order && k in caches && u in caches[k] && Match(order, caches, u).value == caches[k][u]
  {
    if order != [] && !(order[0] in caches && u in caches[order[0]]) {
      MatchMeans(order[1..], caches, u);
    }
  }

  predicate HasKey(order: seq<string>, caches: map<string, Cache>, i: int, u: Url) {
    0 <= i < |order| && order[i] in caches && u in caches[order[i]]
  }

  predicate OldestAt(order: seq<string>, caches: map<string, Cache>, i: int, u: Url, r: Response) {
    && HasKey(order, caches, i, u) && caches[order[i]][u] == r
    && forall j :: 0 <= j < i ==> !HasKey(order, caches, j, u)
  }

  /** `r` is what the oldest cache that has the URL holds for it. */
  ghost predicate OldestHit(order: seq<string>, caches: map<string, Cache>, u: Url, r: Response) {
    exists i :: OldestAt(order, caches, i, u, r)
  }

  /** The lookup finds what the oldest cache that has the URL holds, and nothing exactly when none has it. */
  lemma {:induction false} MatchExactly(order: seq<string>, caches: map<string, Cache>, u: Url, r: Response)
    ensures Match(order, caches, u) == Some(r) <==> OldestHit(order, caches, u, r)
    ensures Match(order, caches, u) == None <==> forall i :: !HasKey(order, caches, i, u)
  {
    if order != [] {
      var rest := order[1..];
      assert forall i :: i > 0 ==> (HasKey(order, caches, i, u) <==> HasKey(rest, caches, i - 1, u));
      if HasKey(order, caches, 0, u) {
        assert OldestAt(order, caches, 0, u, caches[order[0]][u]);
      } else {
        MatchExactly(rest, caches, u, r);
        if i :| OldestAt(order, caches, i, u, r) {
          forall j | 0 <= j < i - 1 ensures !HasKey(rest, caches, j, u) {
            assert !HasKey(order, caches, j + 1, u);
          }
          assert OldestAt(rest, caches, i - 1, u, r);
        }
        if i :| OldestAt(rest, caches, i, u, r) {
          assert OldestAt(order, caches, i + 1, u, r);
        }
        if forall i :: !HasKey(order, caches, i, u) {
          forall i ensures !HasKey(rest, caches, i, u) {
            assert !HasKey(order, caches, i + 1, u);
          }
        }
      }
    }
  }

  lemma MatchGiven(w: Worker, s: State, u: Url)
    requires CachesOk(w.home, s.installed, s.order, s.caches, s.given) && Match(s.order, s.caches, u).Some?
    ensures Entry(u, Match(s.order, s.caches, u).value) in s.given
  {
    MatchMeans(s.order, s.caches, u);
    hide Match, InstalledOk, Cacheable;
    var k :| k in s.order && k in s.caches && u in s.caches[k] && Match(s.order, s.caches, u).value == s.caches[k][u];
    assert EntryOk(s.installed, s.given, k, u, s.caches[k][u]);
  }

  /** The flights and writes of a state stay good when only the caches change and more is given. */
  lemma RestKept(w: Worker, s: State, s': State)
    requires Inv(w, s) && CachesOk(w.home, s'.installed, s'.order, s'.caches, s'.given) && s.given <= s'.given
    requires s'.flights == s.flights && CURRENT !in s'.todo && BatchOk(w.home, s'.batch, s'.given) && s'.puts.Keys <= s.puts.Keys
    requires forall p :: p in s'.puts ==> s'.puts[p] == s.puts[p]
    ensures Inv(w, s')
  {
    hide CachesOk, Cacheable, TriesOk, BatchOk;
    forall f | f in s'.flights ensures FlightOk(w, s'.given, s'.flights[f]) {
      assert FlightOk(w, s.given, s.flights[f]);
    }
    forall p | p in s'.puts ensures PutOk(w, s'.flights, s'.given, p, s'.puts[p]) {
      assert PutOk(w, s.flights, s.given, p, s.puts[p]);
    }
  }

  lemma BatchStaysOk(w: Worker, batch: Option<seq<Response>>, given: set<Entry>, given': set<Entry>)
    requires BatchOk(w.home, batch, given) && given <= given'
    ensures BatchOk(w.home, batch, given')
  {
    hide ShellUrl;
  }

  lemma CachesStayOk(w: Worker, installed: set<Entry>, order: seq<string>, caches: map<string, Cache>, given: set<Entry>, given': set<Entry>)
    requires CachesOk(w.home, installed, order, caches, given) && given <= given'
    ensures CachesOk(w.home, installed, order, caches, given')
  {
    hide Cacheable, IsShell;
    forall k, u | k in caches && u in caches[k] ensures EntryOk(installed, given', k, u, caches[k][u]) {
      assert EntryOk(installed, given, k, u, caches[k][u]);
    }
  }

  /** A step of one flight, which may receive a response and start a write. */
  lemma FlightMoves(w: Worker, s: State, f: nat, fl: Flight, puts: map<PutId, Entry>, given: set<Entry>)
    requires Inv(w, s) && s.given <= given && FlightOk(w, given, fl)
    requires f in s.flights ==> fl.request == s.flights[f].request
    requires forall p :: p in puts ==>
               (p in s.puts && puts[p] == s.puts[p])
               || (p.f == f && (p.attempt == 1 || (p.attempt == 2 && w.retry))
                   && puts[p].url == fl.request.url && puts[p] in given && Keeps(puts[p].response))
    ensures Inv(w, s.(flights := s.flights[f := fl], puts := puts, given := given))
  {
    hide Cacheable, TriesOk, CachesOk;
    BatchStaysOk(w, s.batch, s.given, given);
    CachesStayOk(w, s.installed, s.order, s.caches, s.given, given);
    var s' := s.(flights := s.flights[f := fl], puts := puts, given := given);
    forall g | g in s'.flights ensures FlightOk(w, given, s'.flights[g]) {
      if g != f {
        assert FlightOk(w, s.given, s.flights[g]);
      }
    }
    forall p | p in puts ensures PutOk(w, s'.flights, given, p, puts[p]) {
      if p in s.puts && puts[p] == s.puts[p] {
        assert PutOk(w, s.flights, s.given, p, s.puts[p]);
      }
    }
  }

  lemma InvFetch(w: Worker, s: State, f: nat, r: Request)
    requires Inv(w, s)
    ensures Inv(w, OnFetch(s, f, r))
  {
    hide Inv, Cacheable;
    if f !in s.flights && Intercepts(r) {
      FlightMoves(w, s, f, Flight(r, None, Matching, Own, 0), s.puts, s.given);
    }
  }

  lemma FlightIsOk(w: Worker, s: State, f: nat)
    requires Inv(w, s) && f in s.flights
    ensures FlightOk(w, s.given, s.flights[f])
    ensures CachesOk(w.home, s.installed, s.order, s.caches, s.given)
  {
  }

  /** A flight moves on without a response; what it found in a cache was given. */
  lemma InvFound(w: Worker, s: State, f: nat, fl: Flight)
    requires Inv(w, s) && f in s.flights && FlightOk(w, s.given, fl) && fl.request == s.flights[f].request
    ensures Inv(w, SetFlight(s, f, fl))
  {
    hide Inv, FlightOk;
    FlightMoves(w, s, f, fl, s.puts, s.given);
  }

  lemma InvReceived(w: Worker, s: State, f: nat, attempt: nat, r: Response)
    requires Inv(w, s) && f in s.flights
    requires s.flights[f].via.Own? && TriesOk(w, s.flights[f].(phase := Settled(None))) && attempt == s.flights[f].tries
    ensures Inv(w, Received(s, f, attempt, r))
  {
    hide Inv, Cacheable;
    FlightIsOk(w, s, f);
    var s' := Received(s, f, attempt, r);
    FlightMoves(w, s, f, s'.flights[f], s'.puts, s'.given);
  }

  lemma InvMatched(w: Worker, s: State, f: nat)
    requires Inv(w, s) && InPhase(s, f, Matching)
    ensures Inv(w, OnMatched(s, f))
  {
    hide Inv, Match, Cacheable, CachesOk;
    FlightIsOk(w, s, f);
    var fl := s.flights[f];
    if Match(s.order, s.caches, fl.request.url).Some? {
      MatchGiven(w, s, fl.request.url);
    }
    InvFound(w, s, f, fl.(cached := Match(s.order, s.caches, fl.request.url), phase := Fetching, tries := 1));
  }

  lemma InvNetwork(w: Worker, s: State, f: nat, outcome: Option<Response>)
    requires Inv(w, s) && InPhase(s, f, Fetching)
    ensures Inv(w, OnNetwork(w, s, f, outcome))
  {
    hide Inv, Cacheable, CachesOk;
    FlightIsOk(w, s, f);
    if outcome.Some? {
      InvReceived(w, s, f, 1, outcome.value);
    } else {
      InvFound(w, s, f, OnNetwork(w, s, f, outcome).flights[f]);
    }
  }

  lemma InvRetried(w: Worker, s: State, f: nat, outcome: Option<Response>)
    requires Inv(w, s) && InPhase(s, f, Retrying)
    ensures Inv(w, OnRetried(s, f, outcome))
  {
    hide Inv, Cacheable, CachesOk;
    FlightIsOk(w, s, f);
    if outcome.Some? {
      InvReceived(w, s, f, 2, outcome.value);
    } else {
      InvFound(w, s, f, s.flights[f].(phase := Settled(None)));
    }
  }

  lemma InvFallback(w: Worker, s: State, f: nat)
    requires Inv(w, s) && f in s.flights && (s.flights[f].phase.FallbackIndex? || s.flights[f].phase.FallbackRoot?)
    ensures Inv(w, OnIndexMatched(w, s, f)) && Inv(w, OnRootMatched(w, s, f))
  {
    hide Inv, Match, Cacheable, CachesOk;
    FlightIsOk(w, s, f);
    var u := if s.flights[f].phase.FallbackIndex? then Index(w.home) else Root(w.home);
    var hit := Match(s.order, s.caches, u);
    if hit.Some? {
      MatchGiven(w, s, u);
      InvFound(w, s, f, s.flights[f].(phase := Settled(hit)));
    } else {
      InvFound(w, s, f, if s.flights[f].phase.FallbackIndex? then s.flights[f].(phase := FallbackRoot, via := ViaRoot)
                        else s.flights[f].(phase := Settled(None)));
    }
  }

  lemma PutKeepsCaches(w: Worker, s: State, name: string, e: Entry, given: set<Entry>)
    requires CachesOk(w.home, s.installed, s.order, s.caches, s.given) && s.given <= given
    requires Cacheable(e.url) && e in given && (name == CURRENT ==> Keeps(e.response))
    ensures CachesOk(w.home, s.installed, PutIn(s, name, e).order, PutIn(s, name, e).caches, given)
  {
    hide Cacheable, IsShell;
    var s' := PutIn(s, name, e);
    forall k, u | k in s'.caches && u in s'.caches[k] ensures EntryOk(s.installed, given, k, u, s'.caches[k][u]) {
      if k == name && u == e.url {
        assert e == Entry(e.url, e.response);
      } else {
        assert EntryOk(s.installed, s.given, k, u, s.caches[k][u]);
      }
    }
  }

  lemma ShellCacheable(w: Worker, i: nat)
    requires i < |SHELL_PATHS|
    ensures Cacheable(ShellUrl(w.home, i)) && IsShell(w.home, ShellUrl(w.home, i))
  {
    var p := SHELL_PATHS[i];
    assert |p| == 1 || p[1] == 'i' || p[1] == 'm';
    forall k | 0 <= k < |NEVER_CACHE| ensures !(NEVER_CACHE[k] <= p) {
      var n := NEVER_CACHE[k];
      assert |n| > 1 && n[1] != 'i' && n[1] != 'm';
    }
  }

  lemma {:induction false} BatchMeans(w: Worker, c: Cache, rs: seq<Response>, u: Url)
    requires |rs| <= |SHELL_PATHS|
    ensures var b := PutBatch(w.home, c, rs);
            && (u in c ==> u in b)
            && (u in b ==> (u in c && b[u] == c[u]) || exists i :: 0 <= i < |rs| && u == ShellUrl(w.home, i) && b[u] == rs[i])
  {
    hide ShellUrl;
    if rs != [] {
      BatchMeans(w, c, rs[..|rs| - 1], u);
    }
  }

  lemma InstalledByBatch(w: Worker, s: State)
    requires Inv(w, s) && s.batch.Some?
    ensures var s' := OnShellPut(w, s);
            && InstalledOk(w.home, s'.installed, s.given) && s.installed <= s'.installed
            && forall i :: 0 <= i < |s.batch.value| ==> Entry(ShellUrl(w.home, i), s.batch.value[i]) in s'.installed
  {
    hide Cacheable, IsShell, PutBatch, ShellUrl, FlightOk, PutOk, EntryOk;
    forall i: nat | i < |SHELL_PATHS| ensures IsShell(w.home, ShellUrl(w.home, i)) {
      ShellCacheable(w, i);
    }
    var added := ShellEntries(w.home, s.batch.value);
    forall i | 0 <= i < |s.batch.value| ensures Entry(ShellUrl(w.home, i), s.batch.value[i]) in added {
    }
  }

  lemma BatchKeepsCaches(w: Worker, s: State)
    requires Inv(w, s) && s.batch.Some?
    ensures var s' := OnShellPut(w, s); CachesOk(w.home, s'.installed, s'.order, s'.caches, s.given)
  {
    hide Cacheable, IsShell, PutBatch, ShellUrl, FlightOk, PutOk;
    var s' := OnShellPut(w, s);
    var c := if CURRENT in s.caches then s.caches[CURRENT] else map[];
    InstalledByBatch(w, s);
    forall k, u | k in s'.caches && u in s'.caches[k] ensures EntryOk(s'.installed, s.given, k, u, s'.caches[k][u]) {
      if k == CURRENT {
        BatchMeans(w, c, s.batch.value, u);
        if u in c && s'.caches[k][u] == c[u] {
          assert EntryOk(s.installed, s.given, k, u, c[u]);
        } else {
          var i :| 0 <= i < |s.batch.value| && u == ShellUrl(w.home, i) && s'.caches[k][u] == s.batch.value[i];
          ShellCacheable(w, i);
        }
      } else {
        assert EntryOk(s.installed, s.given, k, u, s.caches[k][u]);
      }
    }
  }

  lemma InvShellPut(w: Worker, s: State)
    requires Inv(w, s)
    ensures Inv(w, OnShellPut(w, s))
  {
    if s.batch.Some? {
      BatchKeepsCaches(w, s);
      hide FlightOk, PutOk, CachesOk, PutBatch;
      RestKept(w, s, OnShellPut(w, s));
    }
  }

  lemma ShellBatchOk(w: Worker, outcomes: seq<Option<Response>>, given: set<Entry>)
    requires GivenByShell(w.home, outcomes) <= given && AllArrived(outcomes)
    ensures BatchOk(w.home, Some(Arrived(outcomes)), given)
  {
    hide ShellUrl;
    forall i | 0 <= i < |outcomes| && i < |SHELL_PATHS| ensures Entry(ShellUrl(w.home, i), outcomes[i].value) in given {
      assert Entry(ShellUrl(w.home, i), outcomes[i].value) in GivenByShell(w.home, outcomes);
    }
  }

  lemma InvShellFetched(w: Worker, s: State, outcomes: seq<Option<Response>>)
    requires Inv(w, s)
    ensures Inv(w, OnShellFetched(w, s, outcomes))
  {
    hide FlightOk, PutOk, EntryOk, GivenByShell, AllArrived;
    var s' := OnShellFetched(w, s, outcomes);
    CachesStayOk(w, s.installed, s.order, s.caches, s.given, s'.given);
    assert BatchOk(w.home, s'.batch, s'.given) by {
      if AllArrived(outcomes) {
        ShellBatchOk(w, outcomes, s'.given);
      }
    }
    hide BatchOk;
    RestKept(w, s, s');
  }

  lemma InvCaches(w: Worker, s: State, a: Action)
    requires Inv(w, s) && (a.PutLands? || a.Listed? || a.Deleted? || a.OtherPut?)
    ensures Inv(w, Next(w, s, a))
  {
    hide FlightOk, EntryOk, BatchOk, Cacheable;
    match a
    case PutLands(p, ok) =>
      if p in s.puts {
        assert PutOk(w, s.flights, s.given, p, s.puts[p]);
        PutKeepsCaches(w, s.(puts := s.puts - {p}), CURRENT, s.puts[p], s.given);
        RestKept(w, s, Next(w, s, a));
      }
    case OtherPut(name, e) =>
      if Cacheable(e.url) && (name != CURRENT || Keeps(e.response)) {
        CachesStayOk(w, s.installed, s.order, s.caches, s.given, s.given + {e});
        BatchStaysOk(w, s.batch, s.given, s.given + {e});
        PutKeepsCaches(w, s.(given := s.given + {e}), name, e, s.given + {e});
        RestKept(w, s, Next(w, s, a));
      }
    case _ => RestKept(w, s, Next(w, s, a));
  }

  /** Every callback keeps the invariant. */
  lemma InvStep(w: Worker, s: State, a: Action)
    requires Inv(w, s)
    ensures Inv(w, Next(w, s, a))
  {
    hide Inv, Match, Cacheable, OnFetch, OnPut, OnShellPut, OnShellFetched, OnListed, OnDeleted, OnOtherPut, Received;
    match a
    case Fetch(f, r) => InvFetch(w, s, f, r);
    case Matched(f) => if InPhase(s, f, Matching) { InvMatched(w, s, f); }
    case Network(f, outcome) => if InPhase(s, f, Fetching) { InvNetwork(w, s, f, outcome); }
    case IndexMatched(f) => if InPhase(s, f, FallbackIndex) { InvFallback(w, s, f); }
    case RootMatched(f) => if InPhase(s, f, FallbackRoot) { InvFallback(w, s, f); }
    case Retried(f, outcome) => if InPhase(s, f, Retrying) { InvRetried(w, s, f, outcome); }
    case ShellFetched(outcomes) => InvShellFetched(w, s, outcomes);
    case ShellPut => InvShellPut(w, s);
    case _ => InvCaches(w, s, a);
  }

  lemma {:induction false} InvRun(w: Worker, s: State, actions: seq<Action>)
    requires Inv(w, s)
    ensures Inv(w, Exec(w, s, actions))
    decreases |actions|
  {
    hide Inv, Next;
    if actions != [] {
      InvStep(w, s, actions[0]);
      InvRun(w, Next(w, s, actions[0]), actions[1..]);
    }
  }

  // ---- Over whole runs ----

  lemma StartInv(w: Worker, s: State)
    requires Start(w, s)
    ensures Inv(w, s)
  {
    hide CachesOk;
  }

  /** In every reachable state, pending writes included: each cached key is a URL under no reserved
      prefix with a response the origin gave for it; the current cache holds only readable 200s, but for
      what `addAll` put there, which is a success for a URL of the shell; and what the handler is about to
      write is a readable 200 of a GET it intercepted. */
  lemma CacheContent(w: Worker, s: State, actions: seq<Action>)
    requires Start(w, s)
    ensures var e := Exec(w, s, actions);
            && (forall k, u :: k in e.caches && u in e.caches[k] ==>
                  u.Url? && !Reserved(u.pathname) && Entry(u, e.caches[k][u]) in e.given)
            && (CURRENT in e.caches ==> forall u :: u in e.caches[CURRENT] ==>
                  var r := e.caches[CURRENT][u];
                  !r.opaqueType && (r.status == 200 || (Entry(u, r) in e.installed && 200 <= r.status < 300 && r.status != 206)))
            && (forall x :: x in e.installed ==>
                  IsShell(w.home, x.url) && !x.response.opaqueType && 200 <= x.response.status < 300 && x.response.status != 206)
            && (forall p :: p in e.puts ==>
                  && p.f in e.flights && e.flights[p.f].request.verb == "GET" && e.puts[p].url == e.flights[p.f].request.url
                  && e.puts[p].url.Url? && !Reserved(e.puts[p].url.pathname)
                  && e.puts[p].response.status == 200 && !e.puts[p].response.opaqueType)
  {
    StartInv(w, s);
    InvRun(w, s, actions);
    var e := Exec(w, s, actions);
    ContentOfGood(w, e);
    hide Exec, Cacheable, Reserved, Start, Inv;
    forall u ensures Cacheable(u) <==> u.Url? && !Reserved(u.pathname) {
      CacheableExactly(u);
    }
  }

  /** The same of any state that the steps keep good. */
  lemma ContentOfGood(w: Worker, e: State)
    requires Inv(w, e)
    ensures forall k, u :: k in e.caches && u in e.caches[k] ==> Cacheable(u) && Entry(u, e.caches[k][u]) in e.given
    ensures CURRENT in e.caches ==> forall u :: u in e.caches[CURRENT] ==>
              var r := e.caches[CURRENT][u];
              AddAllAccepts(r) && (Entry(u, r) !in e.installed ==> r.status == 200)
    ensures forall x :: x in e.installed ==> IsShell(w.home, x.url) && AddAllAccepts(x.response)
    ensures forall p :: p in e.puts ==>
              && p.f in e.flights && e.flights[p.f].request.verb == "GET" && e.puts[p].url == e.flights[p.f].request.url
              && Cacheable(e.puts[p].url) && e.puts[p].response.status == 200 && !e.puts[p].response.opaqueType
  {
    hide Cacheable, IsShell, Genuine, TriesOk;
    forall k, u | k in e.caches && u in e.caches[k] ensures EntryOk(e.installed, e.given, k, u, e.caches[k][u]) {
    }
    forall p | p in e.puts ensures PutOk(w, e.flights, e.given, p, e.puts[p]) && FlightOk(w, e.given, e.flights[p.f]) {
    }
  }

  /** Every response the origin has given for `u` is the same. */
  ghost predicate Immutable(given: set<Entry>, u: Url) {
    forall e, e' :: e in given && e' in given && e.url == u && e'.url == u ==> e == e'
  }

  /** However fetches, late writes, network failures, installs and activations interleave: an answer to a
      request is one that the origin gave for that very URL (for a navigation, or for the app shell); so
      when that URL never changes it is what a direct fetch of it gets; and no fetch tries the network more than
      twice, a navigation or the old worker no more than once. */
  lemma AnswersComeFromOrigin(w: Worker, s: State, actions: seq<Action>, f: nat, direct: Response)
    requires Start(w, s) && f in Exec(w, s, actions).flights
    ensures var e := Exec(w, s, actions);
            var fl := e.flights[f];
            && Intercepts(fl.request)
            && (ReplyOf(fl).Answered? ==> Genuine(w.home, e.given, fl.request, ReplyOf(fl).response))
            && (Immutable(e.given, AnswerUrl(w.home, fl)) && Entry(AnswerUrl(w.home, fl), direct) in e.given ==>
                  ReplyOf(fl).Answered? ==> ReplyOf(fl).response == direct)
            && (!fl.request.navigate ==> AnswerUrl(w.home, fl) == fl.request.url)
            && fl.tries <= 2
            && (fl.request.navigate || !w.retry ==> fl.tries <= 1)
  {
    StartInv(w, s);
    InvRun(w, s, actions);
    hide Exec, CachesOk, PutOk, FlightOk, BatchOk;
    var e := Exec(w, s, actions);
    assert FlightOk(w, e.given, e.flights[f]);
    FlightReply(w, e.given, e.flights[f], direct);
  }

  lemma FlightReply(w: Worker, given: set<Entry>, fl: Flight, direct: Response)
    requires FlightOk(w, given, fl)
    ensures Intercepts(fl.request) && TriesOk(w, fl)
    ensures ReplyOf(fl).Answered? ==>
              Entry(AnswerUrl(w.home, fl), ReplyOf(fl).response) in given && Genuine(w.home, given, fl.request, ReplyOf(fl).response)
    ensures Immutable(given, AnswerUrl(w.home, fl)) && Entry(AnswerUrl(w.home, fl), direct) in given ==>
              ReplyOf(fl).Answered? ==> ReplyOf(fl).response == direct
    ensures !fl.request.navigate ==> AnswerUrl(w.home, fl) == fl.request.url
  {
    hide Cacheable;
    var u := AnswerUrl(w.home, fl);
    if Immutable(given, u) && Entry(u, direct) in given && ReplyOf(fl).Answered? {
      assert Entry(u, ReplyOf(fl).response) == Entry(u, direct);
    }
  }

  // ---- Activation ----

  predicate WritesTo(a: Action, name: string) {
    a.OtherPut? && a.name == name
  }

  lemma ListedStep(w: Worker, s: State, a: Action, name: string)
    requires name != CURRENT && (name in s.caches ==> name in s.todo) && !WritesTo(a, name)
    ensures var e := Next(w, s, a); name in e.caches ==> name in e.todo
  {
    hide Match, Cacheable, PutBatch;
  }

  lemma {:induction false} ListedUntilDeleted(w: Worker, s: State, actions: seq<Action>, name: string)
    requires name != CURRENT && (name in s.caches ==> name in s.todo)
    requires forall i :: 0 <= i < |actions| ==> !WritesTo(actions[i], name)
    ensures var e := Exec(w, s, actions); name in e.caches ==> name in e.todo
    decreases |actions|
  {
    hide Next;
    if actions != [] {
      ListedStep(w, s, actions[0], name);
      ListedUntilDeleted(w, Next(w, s, actions[0]), actions[1..], name);
    }
  }

  ghost predicate KeysGrow(before: map<string, Cache>, after: map<string, Cache>, name: string) {
    name in before ==> name in after && before[name].Keys <= after[name].Keys
  }

  lemma BatchGrows(w: Worker, c: Cache, rs: seq<Response>)
    requires |rs| <= |SHELL_PATHS|
    ensures c.Keys <= PutBatch(w.home, c, rs).Keys
  {
    hide PutBatch;
    forall u | u in c ensures u in PutBatch(w.home, c, rs) {
      BatchMeans(w, c, rs, u);
    }
  }

  lemma CurrentGrowsStep(w: Worker, s: State, a: Action)
    requires CURRENT !in s.todo
    ensures KeysGrow(s.caches, Next(w, s, a).caches, CURRENT) && CURRENT !in Next(w, s, a).todo
  {
    hide Match, Cacheable, PutBatch;
    if a.ShellPut? && s.batch.Some? && |s.batch.value| <= |SHELL_PATHS| && CURRENT in s.caches {
      BatchGrows(w, s.caches[CURRENT], s.batch.value);
    }
  }

  lemma {:induction false} CurrentGrows(w: Worker, s: State, actions: seq<Action>)
    requires CURRENT !in s.todo
    ensures KeysGrow(s.caches, Exec(w, s, actions).caches, CURRENT)
    decreases |actions|
  {
    hide Next;
    if actions != [] {
      CurrentGrowsStep(w, s, actions[0]);
      CurrentGrows(w, Next(w, s, actions[0]), actions[1..]);
    }
  }

  /** When an activation is through with its list, every cache that was there at its listing is gone,
      except the current one and any that another worker has written since; and through that run, as
      through any other, the current cache loses no key. */
  lemma ActivationClears(w: Worker, s: State, actions: seq<Action>, name: string)
    requires Exec(w, OnListed(s), actions).todo == {}
    requires forall i :: 0 <= i < |actions| ==> !WritesTo(actions[i], name)
    ensures var e := Exec(w, OnListed(s), actions);
            && (name != CURRENT ==> name !in e.caches)
            && KeysGrow(s.caches, e.caches, CURRENT)
  {
    var s' := OnListed(s);
    hide Exec;
    if name != CURRENT {
      ListedUntilDeleted(w, s', actions, name);
    }
    CurrentGrows(w, s', actions);
  }

  lemma WithoutMeans(a: seq<string>, b: seq<string>, name: string)
    ensures Without(a + b, name) == Without(a, name) + Without(b, name)
    ensures Without([name], name) == []
    ensures forall k :: k != name ==> Without([k], name) == [k]
  {
    if a == [] {
      assert a + b == b;
    } else {
      assert (a + b)[1..] == a[1..] + b;
      WithoutMeans(a[1..], b, name);
    }
  }

  lemma DeletesAll(w: Worker, s: State, names: set<string>) returns (actions: seq<Action>)
    requires s.todo == names
    ensures var e := Exec(w, s, actions); e.todo == {} && e.caches == s.caches - names && e.flights == s.flights
    ensures forall i :: 0 <= i < |actions| ==> actions[i].Deleted?
    decreases names
  {
    actions := [];
    if names != {} {
      var name :| name in names;
      var s' := Next(w, s, Deleted(name));
      var rest := DeletesAll(w, s', names - {name});
      actions := [Deleted(name)] + rest;
      assert actions[1..] == rest;
      assert s'.caches - (names - {name}) == s.caches - names;
    }
  }

  /** Left alone, an activation comes to its end, and leaves of all caches exactly the current one, as it was. */
  lemma ActivationCompletes(w: Worker, s: State) returns (actions: seq<Action>)
    ensures var e := Exec(w, s, [Listed] + actions);
            && e.todo == {} && e.caches.Keys == s.caches.Keys * {CURRENT}
            && (CURRENT in s.caches ==> e.caches[CURRENT] == s.caches[CURRENT])
  {
    var s' := Next(w, s, Listed);
    actions := DeletesAll(w, s', s.caches.Keys - {CURRENT});
    assert ([Listed] + actions)[1..] == actions;
  }

  // ---- One fetch from beginning to end ----

  /** Whatever the state, a new fetch is taken up exactly if it is a GET for a URL that parses and whose path is
      not reserved, a navigation like any other; and an event for a fetch that is not taken up does nothing. */
  lemma InterceptsExactly(w: Worker, s: State, f: nat, q: Request)
    requires f !in s.flights
    ensures var e := Next(w, s, Fetch(f, q));
            && (f in e.flights <==> q.verb == "GET" && q.url.Url? && !Reserved(q.url.pathname))
            && (f in e.flights ==> e == s.(flights := e.flights) && e.flights == s.flights[f := e.flights[f]] && e.flights[f].request == q)
            && (f !in e.flights ==> e == s)
  {
    hide Cacheable, Reserved;
    CacheableExactly(q.url);
  }

  /** What a fetch `q` is answered with when the lookups find `own`, `index` and `root` and the attempts bring
      `first` and `second`: what is cached; or else the network's answer; without one, a navigation gets the
      cached page, or the cached root; and any other request one more attempt from the new worker. */
  function AnswerTo(retry: bool, q: Request, own: Option<Response>, first: Option<Response>, index: Option<Response>,
                    root: Option<Response>, second: Option<Response>): Option<Response> {
    if own.Some? then own
    else if first.Some? then first
    else if q.navigate then if index.Some? then index else root
    else if retry then second
    else None
  }

  /** The write that is on its way afterwards, if any: of a readable 200, from the attempt that brought it,
      whether or not the cache had answered. */
  function WriteOf(retry: bool, q: Request, first: Option<Response>, second: Option<Response>): Option<(nat, Response)> {
    match first
    case Some(r) => if r.status == 200 && !r.opaqueType then Some((1, r)) else None
    case None =>
      if retry && !q.navigate && second.Some? && second.value.status == 200 && !second.value.opaqueType then Some((2, second.value))
      else None
  }

  function Course(f: nat, q: Request, first: Option<Response>, second: Option<Response>): seq<Action> {
    [Fetch(f, q), Matched(f), Network(f, first)] + [IndexMatched(f), RootMatched(f), Retried(f, second)]
  }

  /** The whole fetch handler: a new fetch that nothing interferes with, in any state and with any outcomes. */
  lemma FetchAlone(w: Worker, s: State, f: nat, q: Request, first: Option<Response>, second: Option<Response>)
    requires f !in s.flights
    ensures var e := Exec(w, s, Course(f, q, first, second));
            if q.verb == "GET" && q.url.Url? && !Reserved(q.url.pathname) then
              var answer := AnswerTo(w.retry, q, Match(s.order, s.caches, q.url), first, Match(s.order, s.caches, Url(w.home, "/index.html", "")),
                                     Match(s.order, s.caches, Url(w.home, "/", "")), second);
              var write := WriteOf(w.retry, q, first, second);
              && f in e.flights && e.flights[f].request == q
              && ReplyOf(e.flights[f]) == (if answer.Some? then Answered(answer.value) else NetworkError)
              && e.puts == (if write.Some? then s.puts[PutId(f, write.value.0) := Entry(q.url, write.value.1)] else s.puts)
              && e.caches == s.caches && e.flights == s.flights[f := e.flights[f]]
            else e == s
  {
    hide Exec, Match, Cacheable, Reserved, Course, Next;
    CacheableExactly(q.url);
    CourseSteps(w, s, f, q, first, second);
    if Intercepts(q) {
      LookedUp(w, s, f, q);
      var s' := SetFlight(s, f, Flight(q, Match(s.order, s.caches, q.url), Fetching, Own, 1));
      if first.Some? {
        FirstBrings(w, s', f, first.value, second);
      } else if q.navigate {
        NavigationFallsBack(w, s', f, second);
      } else {
        SecondTry(w, s', f, second);
      }
    } else {
      NotTakenUp(w, s, f, q, first, second);
    }
  }

  lemma NotTakenUp(w: Worker, s: State, f: nat, q: Request, first: Option<Response>, second: Option<Response>)
    requires f !in s.flights && !Intercepts(q)
    ensures Next(w, s, Fetch(f, q)) == Next(w, s, Matched(f)) == Next(w, s, Network(f, first)) == s
    ensures Next(w, s, IndexMatched(f)) == Next(w, s, RootMatched(f)) == Next(w, s, Retried(f, second)) == s
  {
    hide Match, Cacheable;
  }

  lemma LookedUp(w: Worker, s: State, f: nat, q: Request)
    requires f !in s.flights && Intercepts(q)
    ensures Next(w, Next(w, s, Fetch(f, q)), Matched(f)) == SetFlight(s, f, Flight(q, Match(s.order, s.caches, q.url), Fetching, Own, 1))
  {
    hide Match, Cacheable;
    assert s.flights[f := Flight(q, None, Matching, Own, 0)][f := Flight(q, Match(s.order, s.caches, q.url), Fetching, Own, 1)]
        == s.flights[f := Flight(q, Match(s.order, s.caches, q.url), Fetching, Own, 1)];
  }

  /** The rest of the course after the first attempt. */
  function AfterFirst(w: Worker, s: State, f: nat, first: Option<Response>, second: Option<Response>): State {
    Next(w, Next(w, Next(w, Next(w, s, Network(f, first)), IndexMatched(f)), RootMatched(f)), Retried(f, second))
  }

  lemma FirstBrings(w: Worker, s: State, f: nat, r: Response, second: Option<Response>)
    requires InPhase(s, f, Fetching)
    ensures AfterFirst(w, s, f, Some(r), second) == Received(s, f, 1, r)
  {
    hide Match;
  }

  lemma NavigationFallsBack(w: Worker, s: State, f: nat, second: Option<Response>)
    requires InPhase(s, f, Fetching) && s.flights[f].request.navigate
    ensures var e := AfterFirst(w, s, f, None, second);
            var index, root := Match(s.order, s.caches, Url(w.home, "/index.html", "")), Match(s.order, s.caches, Url(w.home, "/", ""));
            && f in e.flights && e.flights[f].phase == Settled(if index.Some? then index else root)
            && e.flights[f].request == s.flights[f].request && e.flights[f].cached == s.flights[f].cached
            && e == s.(flights := e.flights) && e.flights == s.flights[f := e.flights[f]]
  {
    hide Match;
    var s1 := Next(w, s, Network(f, None));
    var s2 := Next(w, s1, IndexMatched(f));
    assert s1 == SetFlight(s, f, s1.flights[f]) && s2 == SetFlight(s, f, s2.flights[f]);
    var s3 := Next(w, s2, RootMatched(f));
    assert s3 == SetFlight(s, f, s3.flights[f]);
  }

  lemma SecondTry(w: Worker, s: State, f: nat, second: Option<Response>)
    requires InPhase(s, f, Fetching) && !s.flights[f].request.navigate
    ensures var e := AfterFirst(w, s, f, None, second);
            && f in e.flights && e.flights[f].phase == Settled(if w.retry then second else None)
            && e.flights[f].request == s.flights[f].request && e.flights[f].cached == s.flights[f].cached
            && e.flights == s.flights[f := e.flights[f]] && e.caches == s.caches
            && e.puts == (if w.retry && second.Some? && Keeps(second.value)
                          then s.puts[PutId(f, 2) := Entry(s.flights[f].request.url, second.value)] else s.puts)
  {
    hide Match;
  }

  lemma CourseSteps(w: Worker, s: State, f: nat, q: Request, first: Option<Response>, second: Option<Response>)
    ensures var s1 := Next(w, Next(w, Next(w, s, Fetch(f, q)), Matched(f)), Network(f, first));
            Exec(w, s, Course(f, q, first, second)) == Next(w, Next(w, Next(w, s1, IndexMatched(f)), RootMatched(f)), Retried(f, second))
  {
    hide Next;
    var a, b := [Fetch(f, q), Matched(f), Network(f, first)], [IndexMatched(f), RootMatched(f), Retried(f, second)];
    ExecJoin(w, s, a, b);
    ExecThree(w, s, a);
    ExecThree(w, Exec(w, s, a), b);
  }

  lemma {:induction false} ExecJoin(w: Worker, s: State, a: seq<Action>, b: seq<Action>)
    ensures Exec(w, s, a + b) == Exec(w, Exec(w, s, a), b)
    decreases |a|
  {
    hide Next;
    if a == [] {
      assert a + b == b;
    } else {
      assert (a + b)[1..] == a[1..] + b;
      ExecJoin(w, Next(w, s, a[0]), a[1..], b);
    }
  }

  lemma ExecThree(w: Worker, s: State, run: seq<Action>)
    requires |run| == 3
    ensures Exec(w, s, run) == Next(w, Next(w, Next(w, s, run[0]), run[1]), run[2])
  {
    hide Next;
    var s1 := Next(w, s, run[0]);
    var s2 := Next(w, s1, run[1]);
    assert run[1..][1..] == run[2..] && run[2..][1..] == [];
    assert Exec(w, s1, run[1..]) == Exec(w, s2, run[2..]);
    assert Exec(w, s2, run[2..]) == Next(w, s2, run[2]);
  }

  /** A write that lands puts its response under its URL into the current cache, which is created last if it is
      not there, and changes nothing else; one that is rejected is forgotten. */
  lemma LandingMeans(w: Worker, s: State, p: PutId)
    requires p in s.puts
    ensures var e, c := s.puts[p], if CURRENT in s.caches then s.caches[CURRENT] else map[];
            Next(w, s, PutLands(p, true)) ==
              s.(puts := s.puts - {p},
                 order := if CURRENT in s.caches then s.order else s.order + ["vulos-os-shell-v1"],
                 caches := s.caches["vulos-os-shell-v1" := c[e.url := e.response]])
    ensures Next(w, s, PutLands(p, false)) == s.(puts := s.puts - {p})
  {
  }

  // ---- The installation ----

  /** The shell's paths, written out. */
  function ShellPath(i: nat): string {
    if i == 0 then "/" else if i == 1 then "/index.html" else if i == 2 then "/manifest.json"
    else if i == 3 then "/icon-32.png" else if i == 4 then "/icon-192.png" else "/icon-512.png"
  }

  lemma ShellPathsExactly(i: nat)
    ensures |SHELL_PATHS| == 6 && (i < 6 ==> SHELL_PATHS[i] == ShellPath(i))
  {
  }

  lemma ShellPathsDiffer(i: nat, j: nat)
    requires i < j < 6
    ensures ShellPath(i) != ShellPath(j)
  {
    var a, b := ShellPath(i), ShellPath(j);
    assert |a| == |b| ==> i == 4 && j == 5 && a[6] != b[6];
  }

  lemma {:induction false} BatchExactly(home: string, c: Cache, rs: seq<Response>, i: nat)
    requires i < |rs| <= 6 == |SHELL_PATHS|
    ensures var u := Url(home, ShellPath(i), ""); u in PutBatch(home, c, rs) && PutBatch(home, c, rs)[u] == rs[i]
  {
    hide ShellPath;
    var n := |rs| - 1;
    ShellPathsExactly(n);
    if i < n {
      BatchExactly(home, c, rs[..n], i);
      ShellPathsDiffer(i, n);
    }
  }

  /** The installation goes on exactly if all six shell responses have come and each is a success other than a
      partial one, and readable; its write then puts exactly these under the six URLs of the shell; and if it
      does not go on it writes nothing. */
  lemma InstallExactly(w: Worker, s: State, outcomes: seq<Option<Response>>)
    ensures var s1 := Next(w, s, ShellFetched(outcomes));
            var s2 := Next(w, s1, ShellPut);
            && (s1.batch.Some? <==> |outcomes| == 6 && forall i :: 0 <= i < 6 ==> Welcome(outcomes[i]))
            && (s1.batch.Some? ==>
                  CURRENT in s2.caches && Installed(w.home, if CURRENT in s.caches then s.caches[CURRENT] else map[], s2.caches[CURRENT], outcomes))
            && (s1.batch.None? ==> s2 == s1)
            && s2.caches - {CURRENT} == s.caches - {CURRENT}
  {
    hide PutBatch, ShellEntries, GivenByShell, AllArrived, Arrived, Installed;
    AllArrivedExactly(outcomes);
    if AllArrived(outcomes) {
      InstalledExactly(w, if CURRENT in s.caches then s.caches[CURRENT] else map[], outcomes);
    }
  }

  /** The response is there, a success other than a partial one, and readable. */
  predicate Welcome(outcome: Option<Response>) {
    && outcome.Some? && 200 <= outcome.value.status < 300 && outcome.value.status != 206
    && !outcome.value.opaqueType
  }

  /** The cache holds the outcomes under the URLs of the shell, and what it held before under all others. */
  ghost predicate Installed(home: string, before: Cache, after: Cache, outcomes: seq<Option<Response>>)
    requires |outcomes| == 6 && forall i :: 0 <= i < 6 ==> outcomes[i].Some?
  {
    && (forall i :: 0 <= i < 6 ==>
          var u := Url(home, ShellPath(i), "");
          u in after && after[u] == outcomes[i].value)
    && (forall u :: u in after ==>
          || (exists i :: 0 <= i < 6 && u == Url(home, ShellPath(i), ""))
          || (u in before && after[u] == before[u]))
    && before.Keys <= after.Keys
  }

  lemma AllArrivedExactly(outcomes: seq<Option<Response>>)
    ensures AllArrived(outcomes) <==> |outcomes| == 6 && forall i :: 0 <= i < 6 ==> Welcome(outcomes[i])
  {
    ShellPathsExactly(0);
  }

  lemma InstalledExactly(w: Worker, c: Cache, outcomes: seq<Option<Response>>)
    requires AllArrived(outcomes)
    ensures |outcomes| == |SHELL_PATHS| == 6 && Installed(w.home, c, PutBatch(w.home, c, Arrived(outcomes)), outcomes)
  {
    hide PutBatch, ShellPath, ShellUrl;
    ShellPathsExactly(0);
    var rs := Arrived(outcomes);
    var after := PutBatch(w.home, c, rs);
    forall i: nat | i < 6 ensures var u := Url(w.home, ShellPath(i), ""); u in after && after[u] == outcomes[i].value {
      BatchExactly(w.home, c, rs, i);
    }
    forall u | u in after ensures (u in c && after[u] == c[u]) || exists i :: 0 <= i < 6 && u == Url(w.home, ShellPath(i), "") {
      BatchMeans(w, c, rs, u);
      if i :| 0 <= i < |rs| && u == ShellUrl(w.home, i) && after[u] == rs[i] {
        ShellPathsExactly(i);
        ShellUrlMeans(w.home, i);
      }
    }
    forall u | u in c ensures u in after {
      BatchMeans(w, c, rs, u);
    }
  }

  lemma ShellUrlMeans(home: string, i: nat)
    requires i < |SHELL_PATHS|
    ensures ShellUrl(home, i) == Url(home, SHELL_PATHS[i], "")
  {
  }

  // ---- What is kept is served, online or not ----

  ghost predicate HasCurrent(s: State, u: Url) {
    CURRENT in s.caches && u in s.caches[CURRENT]
  }

  lemma CurrentIsMatched(w: Worker, s: State, u: Url)
    requires CachesOk(w.home, s.installed, s.order, s.caches, s.given) && HasCurrent(s, u)
    ensures Match(s.order, s.caches, u).Some?
  {
    hide EntryOk;
    MatchMeans(s.order, s.caches, u);
  }

  /** No fetch that began since, `past` having begun before, missed `u` in the caches or, as a navigation,
      was left without the shell. */
  ghost predicate Served(w: Worker, s: State, past: set<nat>, u: Url) {
    forall f :: f in s.flights && f !in past ==>
      var fl := s.flights[f];
      && (fl.request.url == u && !fl.phase.Matching? ==> fl.cached.Some?)
      && (fl.request.navigate && u == Index(w.home) ==> !fl.phase.FallbackRoot? && fl.phase != Settled(None))
  }

  lemma ServedStep(w: Worker, s: State, a: Action, past: set<nat>, u: Url)
    requires Inv(w, s) && HasCurrent(s, u) && Served(w, s, past, u)
    ensures HasCurrent(Next(w, s, a), u) && Served(w, Next(w, s, a), past, u)
  {
    hide Match, Cacheable, PutBatch, FlightOk, PutOk, EntryOk, BatchOk;
    CurrentGrowsStep(w, s, a);
    CurrentIsMatched(w, s, u);
    FailedFlights(w, s, a);
  }

  /** Only an intercepted fetch without a fallback ends in an error on its own. */
  lemma FailedFlights(w: Worker, s: State, a: Action)
    requires Inv(w, s)
    ensures a.Retried? && a.f in s.flights && s.flights[a.f].phase.Retrying? ==> !s.flights[a.f].request.navigate
  {
    hide Cacheable, Genuine, CachesOk, PutOk, BatchOk;
    if a.Retried? && a.f in s.flights {
      assert FlightOk(w, s.given, s.flights[a.f]);
    }
  }

  lemma {:induction false} ServedRun(w: Worker, s: State, actions: seq<Action>, past: set<nat>, u: Url)
    requires Inv(w, s) && HasCurrent(s, u) && Served(w, s, past, u)
    ensures Served(w, Exec(w, s, actions), past, u)
    decreases |actions|
  {
    hide Inv, Next, HasCurrent, Served;
    if actions != [] {
      InvStep(w, s, actions[0]);
      ServedStep(w, s, actions[0], past, u);
      ServedRun(w, Next(w, s, actions[0]), actions[1..], past, u);
    }
  }

  /** Once the current cache has a URL, every later fetch of it is answered from a cache as soon as it has
      been looked up, whatever the network does and whatever activations come. */
  lemma CachedIsServed(w: Worker, s: State, actions: seq<Action>, u: Url, f: nat)
    requires Inv(w, s) && HasCurrent(s, u) && f !in s.flights
    ensures var e := Exec(w, s, actions);
            f in e.flights && e.flights[f].request.url == u && !e.flights[f].phase.Matching? ==> ReplyOf(e.flights[f]).Answered?
  {
    hide Inv, HasCurrent, Exec;
    ServedRun(w, s, actions, s.flights.Keys, u);
  }

  /** The response arrives on its attempt. */
  function Arrival(f: nat, attempt: nat, r: Response): Action {
    if attempt == 1 then Network(f, Some(r)) else Retried(f, Some(r))
  }

  predicate NotLanded(actions: seq<Action>, p: PutId) {
    forall i :: 0 <= i < |actions| ==> !(actions[i].PutLands? && actions[i].p == p)
  }

  /** The write `e` is on its way, and its fetch is over. */
  predicate Pending(s: State, p: PutId, e: Entry) {
    && p in s.puts && s.puts[p] == e
    && p.f in s.flights && s.flights[p.f].phase.Settled?
  }

  lemma PendingStep(w: Worker, s: State, a: Action, p: PutId, e: Entry)
    requires Pending(s, p, e) && !(a.PutLands? && a.p == p)
    ensures Pending(Next(w, s, a), p, e)
  {
    hide Match, Cacheable, PutBatch, AllArrived, Arrived, GivenByShell, ShellEntries;
  }

  lemma {:induction false} StaysPending(w: Worker, s: State, actions: seq<Action>, p: PutId, e: Entry)
    requires Inv(w, s) && Pending(s, p, e) && NotLanded(actions, p)
    ensures Inv(w, Exec(w, s, actions)) && Pending(Exec(w, s, actions), p, e)
    decreases |actions|
  {
    hide Next, Inv, Pending;
    if actions != [] {
      assert !(actions[0].PutLands? && actions[0].p == p);
      assert forall j :: 0 <= j < |actions[1..]| ==> actions[1..][j] == actions[j + 1];
      InvStep(w, s, actions[0]);
      PendingStep(w, s, actions[0], p, e);
      StaysPending(w, Next(w, s, actions[0]), actions[1..], p, e);
    }
  }

  lemma LandingKeeps(w: Worker, s: State, p: PutId, e: Entry)
    requires Pending(s, p, e)
    ensures var landed := Next(w, s, PutLands(p, true)); HasCurrent(landed, e.url) && landed.caches[CURRENT][e.url] == e.response
    ensures Next(w, s, PutLands(p, true)).flights == s.flights
  {
  }

  lemma ArrivalIsPending(w: Worker, s: State, f: nat, attempt: nat, r: Response)
    requires (attempt == 1 && InPhase(s, f, Fetching)) || (attempt == 2 && InPhase(s, f, Retrying))
    requires Keeps(r)
    ensures Pending(Next(w, s, Arrival(f, attempt, r)), PutId(f, attempt), Entry(s.flights[f].request.url, r))
  {
  }

  /** A readable 200 that came in, on the first attempt or the retry, is written when its write lands, however
      late that is and whatever happens before; and from then on it, or what a later write puts in its place,
      serves every fetch of its URL that begins. */
  lemma KeptResponseServes(w: Worker, s: State, f: nat, attempt: nat, r: Response, between: seq<Action>, later: seq<Action>, g: nat)
    requires Inv(w, s) && r.status == 200 && !r.opaqueType && NotLanded(between, PutId(f, attempt))
    requires (attempt == 1 && InPhase(s, f, Fetching)) || (attempt == 2 && InPhase(s, f, Retrying))
    requires g !in Exec(w, Next(w, s, Arrival(f, attempt, r)), between).flights
    ensures var landed := Next(w, Exec(w, Next(w, s, Arrival(f, attempt, r)), between), PutLands(PutId(f, attempt), true));
            var u, e := s.flights[f].request.url, Exec(w, landed, later);
            && HasCurrent(landed, u) && landed.caches[CURRENT][u] == r
            && (g in e.flights && e.flights[g].request.url == u && !e.flights[g].phase.Matching? ==> ReplyOf(e.flights[g]).Answered?)
  {
    var s1, p, e := Next(w, s, Arrival(f, attempt, r)), PutId(f, attempt), Entry(s.flights[f].request.url, r);
    ArrivalIsPending(w, s, f, attempt, r);
    hide Next, Inv, Exec, Pending, HasCurrent, ReplyOf;
    InvStep(w, s, Arrival(f, attempt, r));
    StaysPending(w, s1, between, p, e);
    var s2 := Exec(w, s1, between);
    LandingKeeps(w, s2, p, e);
    InvStep(w, s2, PutLands(p, true));
    CachedIsServed(w, Next(w, s2, PutLands(p, true)), later, e.url, g);
  }

  /** Once the shell has been installed, a navigation never ends in a network error: the app boots from the
      cache however the network fails, in every run. */
  lemma ShellBootsOffline(w: Worker, s: State, actions: seq<Action>, f: nat)
    requires Inv(w, s) && s.batch.Some? && f !in s.flights
    ensures var e := Exec(w, Next(w, s, ShellPut), actions);
            f in e.flights && e.flights[f].request.navigate ==> ReplyOf(e.flights[f]) != NetworkError
  {
    hide Exec, Cacheable, FlightOk, PutOk, EntryOk;
    InvStep(w, s, ShellPut);
    var s' := Next(w, s, ShellPut);
    var c := if CURRENT in s.caches then s.caches[CURRENT] else map[];
    BatchHasIndex(w, c, s.batch.value);
    assert HasCurrent(s', Index(w.home));
    hide Inv;
    ServedRun(w, s', actions, s.flights.Keys, Index(w.home));
  }

  /** Offline, with the shell installed: a navigation that no cache has a copy of is taken up and answered with
      the cached page, which is the installed one if no older cache has another. */
  lemma OfflineNavigation(w: Worker, s: State, f: nat, q: Request)
    requires s.batch.Some? && 2 <= |s.batch.value| <= |SHELL_PATHS| && f !in s.flights
    requires CachesOk(w.home, s.installed, s.order, s.caches, s.given)
    requires q.verb == "GET" && q.url.Url? && !Reserved(q.url.pathname) && q.navigate
    requires var s' := Next(w, s, ShellPut); Match(s'.order, s'.caches, q.url) == None
    ensures var s' := Next(w, s, ShellPut);
            var e := Exec(w, s', [Fetch(f, q), Matched(f), Network(f, None), IndexMatched(f)]);
            && f in e.flights && e.flights[f].request == q
            && exists r :: OldestHit(s'.order, s'.caches, Url(w.home, "/index.html", ""), r) && ReplyOf(e.flights[f]) == Answered(r)
  {
    hide Cacheable, Reserved, EntryOk, InstalledOk, PutBatch, ShellEntries;
    var s' := Next(w, s, ShellPut);
    var c := if CURRENT in s.caches then s.caches[CURRENT] else map[];
    BatchHasIndex(w, c, s.batch.value);
    MatchMeans(s'.order, s'.caches, Index(w.home));
    assert CURRENT in s'.order && Index(w.home) in s'.caches[CURRENT];
    hide Match;
    var r := Match(s'.order, s'.caches, Index(w.home)).value;
    MatchExactly(s'.order, s'.caches, Index(w.home), r);
    CacheableExactly(q.url);
    NavigationSteps(w, s', f, q);
  }

  lemma NavigationSteps(w: Worker, s: State, f: nat, q: Request)
    requires f !in s.flights && Intercepts(q) && q.navigate
    requires Match(s.order, s.caches, q.url) == None && Match(s.order, s.caches, Index(w.home)).Some?
    ensures var e := Exec(w, s, [Fetch(f, q), Matched(f), Network(f, None), IndexMatched(f)]);
            && f in e.flights && e.flights[f].request == q
            && ReplyOf(e.flights[f]) == Answered(Match(s.order, s.caches, Index(w.home)).value)
  {
    hide Match, Cacheable;
    ExecFour(w, s, [Fetch(f, q), Matched(f), Network(f, None), IndexMatched(f)]);
  }

  lemma {:induction false} BatchHasIndex(w: Worker, c: Cache, rs: seq<Response>)
    requires 2 <= |rs| <= |SHELL_PATHS|
    ensures Index(w.home) in PutBatch(w.home, c, rs)
  {
    if |rs| == 2 {
      assert ShellUrl(w.home, 1) == Index(w.home);
    } else {
      BatchHasIndex(w, c, rs[..|rs| - 1]);
    }
  }

  // ---- The new worker against the old one ----

  function Old(home: string): Worker { Worker(home, false) }

  function New(home: string): Worker { Worker(home, true) }

  /** Where the new worker's network side may stand when the old one's stands at `p`. */
  predicate PhaseBelow(o: Flight, n: Flight) {
    match o.phase
    case Settled(Some(r)) => n.phase.Settled? && n.phase.answer.Some? && (o.via.Own? ==> n.phase == o.phase)
    case Settled(None) => n.phase.Settled? || (!o.request.navigate && n.phase.Retrying?)
    case FallbackRoot => n.phase == o.phase || (n.phase.Settled? && n.phase.answer.Some?)
    case _ => n.phase == o.phase
  }

  predicate FlightBelow(o: Flight, n: Flight) {
    && o.request == n.request
    && (o.cached.Some? ==> n.cached.Some?)
    && PhaseBelow(o, n)
    && (o.via.Own? <==> n.via.Own?)
    && (o.via.ViaIndex? && o.phase.Settled? ==> n.via.ViaIndex?)
    && (o.via.ViaRoot? && n.via.ViaIndex? ==> n.phase.Settled? && n.phase.answer.Some?)
  }

  /** The same caches, each with every key the other has, and perhaps the current one earlier. */
  ghost predicate CachesBelow(o: map<string, Cache>, n: map<string, Cache>) {
    && (forall k :: KeysGrow(o, n, k))
    && (forall k :: k in n && k != CURRENT ==> k in o)
  }

  /** The old worker's state `o` against the new one's `n`. */
  ghost predicate Below(o: State, n: State) {
    && CachesBelow(o.caches, n.caches)
    && (forall p :: p in o.puts ==> p in n.puts && n.puts[p] == o.puts[p])
    && o.batch == n.batch && o.todo == n.todo && o.given <= n.given
    && o.flights.Keys == n.flights.Keys
    && (forall f :: f in o.flights ==> FlightBelow(o.flights[f], n.flights[f]))
  }

  ghost predicate Both(home: string, o: State, n: State) {
    Inv(Old(home), o) && Inv(New(home), n) && Below(o, n)
  }

  lemma MatchBelow(home: string, o: State, n: State, u: Url)
    requires Both(home, o, n)
    ensures Match(o.order, o.caches, u).Some? ==> Match(n.order, n.caches, u).Some?
  {
    hide Match, FlightOk, PutOk, EntryOk, BatchOk, FlightBelow;
    MatchMeans(o.order, o.caches, u);
    MatchMeans(n.order, n.caches, u);
    if Match(o.order, o.caches, u).Some? {
      var k :| k in o.order && k in o.caches && u in o.caches[k];
      assert KeysGrow(o.caches, n.caches, k);
    }
  }

  /** Both workers' flight `f` moves, to flights that still compare. */
  lemma BelowMoves(o: State, n: State, f: nat, fo: Flight, fn: Flight, o': State, n': State)
    requires Below(o, n) && FlightBelow(fo, fn)
    requires o' == o.(flights := o.flights[f := fo], puts := o'.puts, given := o'.given)
    requires n' == n.(flights := n.flights[f := fn], puts := n'.puts, given := n'.given)
    requires o'.given <= n'.given
    requires forall p :: p in o'.puts ==> p in n'.puts && n'.puts[p] == o'.puts[p]
    ensures Below(o', n')
  {
    hide FlightBelow, CachesBelow;
  }

  /** Only the new worker's flight `f` moves. */
  lemma BelowCatchesUp(o: State, n: State, f: nat, fn: Flight, n': State)
    requires Below(o, n) && f in o.flights && FlightBelow(o.flights[f], fn)
    requires n' == n.(flights := n.flights[f := fn], puts := n'.puts, given := n'.given)
    requires n.given <= n'.given
    requires forall p :: p in n.puts && p !in n'.puts ==> p !in o.puts
    requires forall p :: p in n.puts && p in o.puts ==> p in n'.puts && n'.puts[p] == n.puts[p]
    ensures Below(o, n')
  {
    hide FlightBelow, CachesBelow;
  }

  lemma BelowFetch(home: string, o: State, n: State, f: nat, r: Request)
    requires Below(o, n)
    ensures Below(OnFetch(o, f, r), OnFetch(n, f, r))
  {
    hide Below, Cacheable;
    BelowParts(o, n, f);
    if f !in o.flights && Intercepts(r) {
      var fl := Flight(r, None, Matching, Own, 0);
      BelowMoves(o, n, f, fl, fl, OnFetch(o, f, r), OnFetch(n, f, r));
    }
  }

  lemma BelowParts(o: State, n: State, f: nat)
    requires Below(o, n)
    ensures o.given <= n.given && (f in o.flights <==> f in n.flights)
    ensures f in o.flights ==> FlightBelow(o.flights[f], n.flights[f])
    ensures forall p :: p in o.puts ==> p in n.puts && n.puts[p] == o.puts[p]
  {
    hide CachesBelow;
  }

  lemma BelowMatched(home: string, o: State, n: State, f: nat)
    requires Both(home, o, n)
    ensures Below(OnMatched(o, f), OnMatched(n, f))
  {
    hide Match, Below, Inv;
    BelowParts(o, n, f);
    if f in o.flights {
      MatchBelow(home, o, n, o.flights[f].request.url);
      var o', n' := OnMatched(o, f), OnMatched(n, f);
      BelowMoves(o, n, f, o'.flights[f], n'.flights[f], o', n');
    }
  }

  /** Both wait for the first attempt; what either may come to next still compares. */
  lemma FetchingBelow(home: string, o: State, n: State, f: nat)
    requires Both(home, o, n) && f in o.flights
    ensures f in n.flights && (InPhase(o, f, Fetching) <==> InPhase(n, f, Fetching))
    ensures InPhase(o, f, Fetching) ==>
              var fo, fn := o.flights[f], n.flights[f];
              && fo.request == fn.request
              && (forall r :: FlightBelow(fo.(phase := Settled(Some(r))), fn.(phase := Settled(Some(r)))))
              && FlightBelow(fo.(phase := FallbackIndex, via := ViaIndex), fn.(phase := FallbackIndex, via := ViaIndex))
              && (!fo.request.navigate ==> FlightBelow(fo.(phase := Settled(None)), fn.(phase := Retrying, tries := 2)))
  {
    hide Below, Inv, CachesOk, Cacheable;
    BelowParts(o, n, f);
    FlightIsOk(Old(home), o, f);
    FlightIsOk(New(home), n, f);
  }

  lemma BelowNetwork(home: string, o: State, n: State, f: nat, outcome: Option<Response>)
    requires Both(home, o, n)
    ensures Below(OnNetwork(Old(home), o, f, outcome), OnNetwork(New(home), n, f, outcome))
  {
    hide Below, Inv, FlightBelow;
    BelowParts(o, n, f);
    if f in o.flights {
      FetchingBelow(home, o, n, f);
      var o', n' := OnNetwork(Old(home), o, f, outcome), OnNetwork(New(home), n, f, outcome);
      BelowMoves(o, n, f, o'.flights[f], n'.flights[f], o', n');
    }
  }

  /** Both look for the shell, or the new worker has found it; what either may come to next still compares. */
  lemma FallbackBelow(home: string, o: State, n: State, f: nat, hit: Option<Response>, hit': Option<Response>)
    requires Both(home, o, n) && f in o.flights && (hit.Some? ==> hit'.Some?)
    ensures f in n.flights && FlightBelow(o.flights[f], n.flights[f])
    ensures InPhase(o, f, FallbackIndex) <==> InPhase(n, f, FallbackIndex)
    ensures InPhase(n, f, FallbackRoot) ==> InPhase(o, f, FallbackRoot)
    ensures var fo, fn := o.flights[f], n.flights[f];
            && (InPhase(o, f, FallbackIndex) ==> FlightBelow(AfterIndex(fo, hit), AfterIndex(fn, hit')))
            && (InPhase(n, f, FallbackRoot) ==> FlightBelow(fo.(phase := Settled(hit)), fn.(phase := Settled(hit'))))
            && (InPhase(o, f, FallbackRoot) && !InPhase(n, f, FallbackRoot) ==> FlightBelow(fo.(phase := Settled(hit)), fn))
  {
    hide Below, Inv, CachesOk, Cacheable;
    BelowParts(o, n, f);
    FlightIsOk(Old(home), o, f);
    FlightIsOk(New(home), n, f);
  }

  lemma BelowIndex(home: string, o: State, n: State, f: nat)
    requires Both(home, o, n)
    ensures Below(OnIndexMatched(Old(home), o, f), OnIndexMatched(New(home), n, f))
  {
    hide Match, Below, Inv, FlightBelow;
    BelowParts(o, n, f);
    if f in o.flights {
      MatchBelow(home, o, n, Index(home));
      FallbackBelow(home, o, n, f, Match(o.order, o.caches, Index(home)), Match(n.order, n.caches, Index(home)));
      var o', n' := OnIndexMatched(Old(home), o, f), OnIndexMatched(New(home), n, f);
      BelowMoves(o, n, f, o'.flights[f], n'.flights[f], o', n');
    }
  }

  lemma BelowRoot(home: string, o: State, n: State, f: nat)
    requires Both(home, o, n)
    ensures Below(OnRootMatched(Old(home), o, f), OnRootMatched(New(home), n, f))
  {
    hide Match, Below, Inv, FlightBelow;
    BelowParts(o, n, f);
    if f in o.flights {
      MatchBelow(home, o, n, Root(home));
      FallbackBelow(home, o, n, f, Match(o.order, o.caches, Root(home)), Match(n.order, n.caches, Root(home)));
      var o', n' := OnRootMatched(Old(home), o, f), OnRootMatched(New(home), n, f);
      BelowMoves(o, n, f, o'.flights[f], n'.flights[f], o', n');
    }
  }

  lemma BelowRetried(home: string, o: State, n: State, f: nat, outcome: Option<Response>)
    requires Both(home, o, n)
    ensures Below(OnRetried(o, f, outcome), OnRetried(n, f, outcome))
  {
    hide Below, Inv;
    BelowParts(o, n, f);
    if f in o.flights {
      OldHasNoRetry(home, o, f);
      var n' := OnRetried(n, f, outcome);
      BelowCatchesUp(o, n, f, n'.flights[f], n');
    }
  }

  /** The old worker never retries, so no write of its belongs to a second attempt. */
  lemma OldHasNoRetry(home: string, o: State, f: nat)
    requires Inv(Old(home), o) && f in o.flights
    ensures !o.flights[f].phase.Retrying? && PutId(f, 2) !in o.puts
  {
    hide Cacheable, CachesOk, Genuine;
    assert FlightOk(Old(home), o.given, o.flights[f]);
    assert PutId(f, 2) in o.puts ==> PutOk(Old(home), o.flights, o.given, PutId(f, 2), o.puts[PutId(f, 2)]);
  }

  lemma PutInBelow(o: State, n: State, name: string, e: Entry)
    requires CachesBelow(o.caches, n.caches)
    ensures CachesBelow(PutIn(o, name, e).caches, PutIn(n, name, e).caches)
  {
    var o', n' := PutIn(o, name, e), PutIn(n, name, e);
    assert KeysGrow(o.caches, n.caches, name);
    forall k ensures KeysGrow(o'.caches, n'.caches, k) {
      assert KeysGrow(o.caches, n.caches, k);
    }
  }

  lemma BelowPut(o: State, n: State, p: PutId, ok: bool)
    requires Below(o, n)
    ensures Below(OnPut(o, p, ok), OnPut(n, p, ok))
  {
    hide FlightBelow, PutIn, CachesBelow;
    if p in n.puts {
      var e := n.puts[p];
      PutInBelow(o.(puts := o.puts - {p}), n.(puts := n.puts - {p}), CURRENT, e);
      PutOnNewSide(o, n.(puts := n.puts - {p}), e);
    }
  }

  /** A write that only the new worker makes. */
  lemma PutOnNewSide(o: State, n: State, e: Entry)
    requires CachesBelow(o.caches, n.caches)
    ensures CachesBelow(o.caches, PutIn(n, CURRENT, e).caches)
  {
    forall k ensures KeysGrow(o.caches, PutIn(n, CURRENT, e).caches, k) {
      assert KeysGrow(o.caches, n.caches, k);
    }
  }

  lemma {:induction false} BatchBelow(home: string, c: Cache, d: Cache, rs: seq<Response>)
    requires |rs| <= |SHELL_PATHS| && c.Keys <= d.Keys
    ensures PutBatch(home, c, rs).Keys <= PutBatch(home, d, rs).Keys
  {
    if rs != [] {
      BatchBelow(home, c, d, rs[..|rs| - 1]);
    }
  }

  lemma OpenBelow(o: State, n: State)
    requires CachesBelow(o.caches, n.caches)
    ensures CachesBelow(Open(o, CURRENT).caches, Open(n, CURRENT).caches)
  {
    forall k ensures KeysGrow(Open(o, CURRENT).caches, Open(n, CURRENT).caches, k) {
      assert KeysGrow(o.caches, n.caches, k);
    }
  }

  lemma ReplaceBelow(o: map<string, Cache>, n: map<string, Cache>, c: Cache, d: Cache)
    requires CachesBelow(o, n) && c.Keys <= d.Keys
    ensures CachesBelow(o[CURRENT := c], n[CURRENT := d])
  {
    var o', n' := o[CURRENT := c], n[CURRENT := d];
    forall k ensures KeysGrow(o', n', k) {
      assert KeysGrow(o, n, k);
    }
  }

  lemma BelowShellPut(home: string, o: State, n: State)
    requires Below(o, n)
    ensures Below(OnShellPut(Old(home), o), OnShellPut(New(home), n))
  {
    hide FlightBelow, PutBatch;
    if o.batch.Some? && |o.batch.value| <= |SHELL_PATHS| {
      OpenBelow(o, n);
      var o1, n1 := Open(o, CURRENT), Open(n, CURRENT);
      assert KeysGrow(o1.caches, n1.caches, CURRENT);
      BatchBelow(home, o1.caches[CURRENT], n1.caches[CURRENT], o.batch.value);
      ReplaceBelow(o1.caches, n1.caches, PutBatch(home, o1.caches[CURRENT], o.batch.value), PutBatch(home, n1.caches[CURRENT], o.batch.value));
      hide CachesBelow;
    }
  }

  lemma BelowShellFetched(home: string, o: State, n: State, outcomes: seq<Option<Response>>)
    requires Below(o, n)
    ensures Below(OnShellFetched(Old(home), o, outcomes), OnShellFetched(New(home), n, outcomes))
  {
    hide FlightBelow, CachesBelow, GivenByShell, AllArrived;
    OpenBelow(o, n);
  }

  lemma BelowOtherPut(o: State, n: State, name: string, e: Entry)
    requires Below(o, n)
    ensures Below(OnOtherPut(o, name, e), OnOtherPut(n, name, e))
  {
    hide FlightBelow, CachesBelow, Cacheable, PutIn;
    PutInBelow(o.(given := o.given + {e}), n.(given := n.given + {e}), name, e);
  }

  lemma BelowActivation(o: State, n: State, name: string)
    requires Below(o, n) && CURRENT !in o.todo
    ensures Below(OnListed(o), OnListed(n))
    ensures Below(OnDeleted(o, name), OnDeleted(n, name))
  {
    hide FlightBelow;
    assert o.caches.Keys - {CURRENT} == n.caches.Keys - {CURRENT} by {
      forall k | k in o.caches ensures k in n.caches {
        assert KeysGrow(o.caches, n.caches, k);
      }
    }
    forall k ensures KeysGrow(o.caches - {name}, n.caches - {name}, k) {
      assert KeysGrow(o.caches, n.caches, k);
    }
    assert CachesBelow(o.caches - {name}, n.caches - {name});
    hide CachesBelow;
  }

  lemma BelowStep(home: string, o: State, n: State, a: Action)
    requires Both(home, o, n)
    ensures Both(home, Next(Old(home), o, a), Next(New(home), n, a))
  {
    InvStep(Old(home), o, a);
    InvStep(New(home), n, a);
    assert CURRENT !in o.todo;
    hide Inv, Below, OnFetch, OnMatched, OnNetwork, OnIndexMatched, OnRootMatched, OnRetried, OnPut, OnShellPut, OnShellFetched,
      OnListed, OnDeleted, OnOtherPut;
    match a
    case Fetch(f, r) => BelowFetch(home, o, n, f, r);
    case Matched(f) => BelowMatched(home, o, n, f);
    case Network(f, outcome) => BelowNetwork(home, o, n, f, outcome);
    case IndexMatched(f) => BelowIndex(home, o, n, f);
    case RootMatched(f) => BelowRoot(home, o, n, f);
    case Retried(f, outcome) => BelowRetried(home, o, n, f, outcome);
    case PutLands(p, ok) => BelowPut(o, n, p, ok);
    case ShellPut => BelowShellPut(home, o, n);
    case ShellFetched(outcomes) => BelowShellFetched(home, o, n, outcomes);
    case OtherPut(name, e) => BelowOtherPut(o, n, name, e);
    case Listed => BelowActivation(o, n, "");
    case Deleted(name) => BelowActivation(o, n, name);
  }

  lemma {:induction false} BelowRun(home: string, o: State, n: State, actions: seq<Action>)
    requires Both(home, o, n)
    ensures Both(home, Exec(Old(home), o, actions), Exec(New(home), n, actions))
    decreases |actions|
  {
    hide Both, Next;
    if actions != [] {
      BelowStep(home, o, n, actions[0]);
      BelowRun(home, Next(Old(home), o, actions[0]), Next(New(home), n, actions[0]), actions[1..]);
    }
  }

  /** Run the two workers from the same caches on the same events, with the same outcome of every first
      network attempt: the new one has every key the old one has, in every cache; and it answers every fetch
      that the old one answers. It answers the same if both answer from the first attempt, or if both answer
      from one URL that never changes; and they answer from one URL but for a navigation that has lost its
      attempt, where the new worker may find the page itself or `/index.html` in the cache when the old one
      has less. */
  lemma NewRefinesOld(home: string, s: State, actions: seq<Action>, f: nat)
    requires Start(Old(home), s)
    ensures var o, n := Exec(Old(home), s, actions), Exec(New(home), s, actions);
            && (forall k :: KeysGrow(o.caches, n.caches, k))
            && (f in o.flights <==> f in n.flights)
            && (f in o.flights ==>
                  && o.flights[f].request == n.flights[f].request
                  && (ReplyOf(o.flights[f]).Answered? ==> ReplyOf(n.flights[f]).Answered?)
                  && (ReplyOf(n.flights[f]).NetworkError? ==> ReplyOf(o.flights[f]).NetworkError?)
                  && (ReplyOf(o.flights[f]).Answered? ==> AnswersMatch(home, n.given, o.flights[f], n.flights[f])))
  {
    StartBoth(home, s);
    BelowRun(home, s, s, actions);
    hide Exec, Start, Inv;
    var o, n := Exec(Old(home), s, actions), Exec(New(home), s, actions);
    if f in o.flights {
      FlightIsOk(Old(home), o, f);
      FlightIsOk(New(home), n, f);
      ReplyBelow(home, o.given, n.given, o.flights[f], n.flights[f]);
    }
  }

  /** How far the answers to one fetch agree. */
  ghost predicate AnswersMatch(home: string, given: set<Entry>, o: Flight, n: Flight) {
    && (o.cached.None? && n.cached.None? && o.via.Own? ==> ReplyOf(n) == ReplyOf(o))
    && (AnswerUrl(home, o) == AnswerUrl(home, n) && Immutable(given, AnswerUrl(home, o)) ==> ReplyOf(n) == ReplyOf(o))
    && (AnswerUrl(home, o) != AnswerUrl(home, n) ==>
          && o.request.navigate && o.cached.None? && !o.via.Own?
          && (n.cached.Some? || (o.via.ViaRoot? && n.via.ViaIndex?)))
  }

  lemma StartBoth(home: string, s: State)
    requires Start(Old(home), s)
    ensures Both(home, s, s)
  {
    hide CachesOk;
  }

  lemma ReplyBelow(home: string, given: set<Entry>, given': set<Entry>, o: Flight, n: Flight)
    requires FlightOk(Old(home), given, o) && FlightOk(New(home), given', n) && FlightBelow(o, n) && given <= given'
    ensures ReplyOf(o).Answered? ==> ReplyOf(n).Answered?
    ensures ReplyOf(n).NetworkError? ==> ReplyOf(o).NetworkError?
    ensures ReplyOf(o).Answered? ==> AnswersMatch(home, given', o, n)
  {
    hide Cacheable;
    if ReplyOf(o).Answered? {
      FlightReply(Old(home), given, o, ReplyOf(o).response);
      FlightReply(New(home), given', n, ReplyOf(o).response);
    }
  }

  lemma OneLostAttempt(w: Worker, s: State, f: nat, q: Request, r: Response)
    requires f !in s.flights && Intercepts(q) && !q.navigate && Match(s.order, s.caches, q.url).None?
    ensures var e := Exec(w, s, [Fetch(f, q), Matched(f), Network(f, None), Retried(f, Some(r))]);
            f in e.flights && ReplyOf(e.flights[f]) == if w.retry then Answered(r) else NetworkError
  {
    hide Match, Cacheable;
    ExecFour(w, s, [Fetch(f, q), Matched(f), Network(f, None), Retried(f, Some(r))]);
  }

  /** The retry earns its keep: after one lost attempt the old worker reports a network error and the new
      one answers. */
  lemma RetryRescues(home: string, s: State, f: nat, q: Request, r: Response)
    requires f !in s.flights && Intercepts(q) && !q.navigate && Match(s.order, s.caches, q.url).None?
    ensures var run := [Fetch(f, q), Matched(f), Network(f, None), Retried(f, Some(r))];
            && f in Exec(Old(home), s, run).flights && f in Exec(New(home), s, run).flights
            && ReplyOf(Exec(Old(home), s, run).flights[f]) == NetworkError
            && ReplyOf(Exec(New(home), s, run).flights[f]) == Answered(r)
  {
    hide Exec, Match, Cacheable, ReplyOf;
    OneLostAttempt(Old(home), s, f, q, r);
    OneLostAttempt(New(home), s, f, q, r);
  }

  lemma ExecFour(w: Worker, s: State, run: seq<Action>)
    requires |run| == 4
    ensures Exec(w, s, run) == Next(w, Next(w, Next(w, Next(w, s, run[0]), run[1]), run[2]), run[3])
  {
    hide Next;
    var s1 := Next(w, s, run[0]);
    var s2 := Next(w, s1, run[1]);
    var s3 := Next(w, s2, run[2]);
    assert run[1..][1..] == run[2..] && run[2..][1..] == run[3..] && run[3..][1..] == [];
    assert Exec(w, s1, run[1..]) == Exec(w, s2, run[2..]);
    assert Exec(w, s2, run[2..]) == Exec(w, s3, run[3..]);
    assert Exec(w, s3, run[3..]) == Next(w, s3, run[3]);
  }
}
