/** The worker as code: each callback updates the cache storage and its own fetches in place. */
module ServiceWorkerCode {
  import opened Wrappers
  import opened ServiceWorker

  class ShellWorker {
    const worker: Worker

    var order: seq<string>
    var caches: map<string, Cache>
    var flights: map<nat, Flight>
    var puts: map<PutId, Entry>
    var batch: Option<seq<Response>>
    var todo: set<string>
    ghost var given: set<Entry>
    ghost var installed: set<Entry>

    ghost function View(): State
      reads this
    {
      State(order, caches, flights, puts, batch, todo, given, installed)
    }

    /** A worker that starts, on the caches that earlier versions left. */
    constructor (w: Worker, order: seq<string>, caches: map<string, Cache>, ghost given: set<Entry>, ghost installed: set<Entry>)
      requires CachesOk(w.home, installed, order, caches, given)
      ensures worker == w && View() == State(order, caches, map[], map[], None, {}, given, installed)
      ensures Start(w, View()) && Inv(w, View())
    {
      worker := w;
      this.order, this.caches, this.given, this.installed := order, caches, given, installed;
      flights, puts, batch, todo := map[], map[], None, {};
      new;
      hide CachesOk;
      StartInv(w, View());
    }

    method OpenCache(name: string)
      modifies this
      ensures View() == Open(old(View()), name) && name in caches
    {
      if name !in caches {
        order := order + [name];
        caches := caches[name := map[]];
      }
    }

    method PutInCache(name: string, e: Entry)
      modifies this
      ensures View() == PutIn(old(View()), name, e)
    {
      OpenCache(name);
      caches := caches[name := caches[name][e.url := e.response]];
    }

    method MatchAny(u: Url) returns (hit: Option<Response>)
      ensures hit == Match(order, caches, u)
    {
      var i := 0;
      while i < |order|
        invariant 0 <= i <= |order|
        invariant Match(order, caches, u) == Match(order[i..], caches, u)
      {
        assert order[i..][0] == order[i] && order[i..][1..] == order[i + 1..];
        if order[i] in caches && u in caches[order[i]] {
          return Some(caches[order[i]][u]);
        }
        i := i + 1;
      }
      return None;
    }

    method HandleFetch(f: nat, r: Request)
      modifies this
      ensures View() == Next(worker, old(View()), Fetch(f, r))
      ensures old(f !in flights) ==> (f in flights <==> r.verb == "GET" && r.url.Url? && !Reserved(r.url.pathname))
    {
      CacheableExactly(r.url);
      if f in flights || r.verb != "GET" {
        return;
      }
      var cacheable := ShouldCache(r.url);
      if !cacheable {
        return;
      }
      flights := flights[f := Flight(r, None, Matching, Own, 0)];
    }

    method HandleMatched(f: nat)
      modifies this
      ensures View() == Next(worker, old(View()), Matched(f))
    {
      if f in flights && flights[f].phase == Matching {
        var fl := flights[f];
        var hit := MatchAny(fl.request.url);
        flights := flights[f := fl.(cached := hit, phase := Fetching, tries := 1)];
      }
    }

    method Receive(f: nat, attempt: nat, r: Response)
      requires f in flights
      modifies this
      ensures View() == Received(old(View()), f, attempt, r)
    {
      var e := Entry(flights[f].request.url, r);
      if r.status == 200 && !r.opaqueType {
        puts := puts[PutId(f, attempt) := e];
      }
      flights := flights[f := flights[f].(phase := Settled(Some(r)))];
      given := given + {e};
    }

    method HandleNetwork(f: nat, outcome: Option<Response>)
      modifies this
      ensures View() == Next(worker, old(View()), Network(f, outcome))
    {
      if f in flights && flights[f].phase == Fetching {
        if outcome.Some? {
          Receive(f, 1, outcome.value);
        } else if flights[f].request.navigate {
          flights := flights[f := flights[f].(phase := FallbackIndex, via := ViaIndex)];
        } else if worker.retry {
          flights := flights[f := flights[f].(phase := Retrying, tries := 2)];
        } else {
          flights := flights[f := flights[f].(phase := Settled(None))];
        }
      }
    }

    method HandleIndexMatched(f: nat)
      modifies this
      ensures View() == Next(worker, old(View()), IndexMatched(f))
    {
      if f in flights && flights[f].phase == FallbackIndex {
        var hit := MatchAny(Index(worker.home));
        if hit.Some? {
          flights := flights[f := flights[f].(phase := Settled(hit))];
        } else {
          flights := flights[f := flights[f].(phase := FallbackRoot, via := ViaRoot)];
        }
      }
    }

    method HandleRootMatched(f: nat)
      modifies this
      ensures View() == Next(worker, old(View()), RootMatched(f))
    {
      if f in flights && flights[f].phase == FallbackRoot {
        var hit := MatchAny(Root(worker.home));
        flights := flights[f := flights[f].(phase := Settled(hit))];
      }
    }

    method HandleRetried(f: nat, outcome: Option<Response>)
      modifies this
      ensures View() == Next(worker, old(View()), Retried(f, outcome))
    {
      if f in flights && flights[f].phase == Retrying {
        if outcome.Some? {
          Receive(f, 2, outcome.value);
        } else {
          flights := flights[f := flights[f].(phase := Settled(None))];
        }
      }
    }

    method HandlePut(p: PutId, ok: bool)
      modifies this
      ensures View() == Next(worker, old(View()), PutLands(p, ok))
    {
      if p in puts {
        var e := puts[p];
        puts := puts - {p};
        if ok {
          PutInCache(CURRENT, e);
        }
      }
    }

    /** `addAll` gives up at the first response that is missing or not acceptable. */
    method HandleShellFetched(outcomes: seq<Option<Response>>)
      modifies this
      ensures View() == Next(worker, old(View()), ShellFetched(outcomes))
    {
      OpenCache(CURRENT);
      given := given + GivenByShell(worker.home, outcomes);
      batch := None;
      if |outcomes| != |SHELL_PATHS| {
        return;
      }
      var rs: seq<Response> := [];
      var i := 0;
      while i < |outcomes|
        invariant 0 <= i <= |outcomes| && |rs| == i
        invariant forall k :: 0 <= k < i ==> outcomes[k].Some? && AddAllAccepts(outcomes[k].value) && rs[k] == outcomes[k].value
      {
        if outcomes[i].None? || !AddAllAccepts(outcomes[i].value) {
          return;
        }
        rs := rs + [outcomes[i].value];
        i := i + 1;
      }
      assert rs == Arrived(outcomes);
      batch := Some(rs);
    }

    /** The shell responses are put one after the other, all or none. */
    method HandleShellPut()
      modifies this
      ensures View() == Next(worker, old(View()), ShellPut)
    {
      if batch.Some? && |batch.value| <= |SHELL_PATHS| {
        OpenCache(CURRENT);
        var rs, c := batch.value, caches[CURRENT];
        var i := 0;
        while i < |rs|
          invariant 0 <= i <= |rs|
          invariant c == PutBatch(worker.home, caches[CURRENT], rs[..i])
        {
          assert rs[..i + 1][..i] == rs[..i];
          c := c[ShellUrl(worker.home, i) := rs[i]];
          i := i + 1;
        }
        assert rs[..i] == rs;
        batch := None;
        installed := installed + ShellEntries(worker.home, rs);
        caches := caches[CURRENT := c];
      }
    }

    method HandleActivate()
      modifies this
      ensures View() == Next(worker, old(View()), Listed)
    {
      todo := caches.Keys - {CURRENT};
    }

    method HandleDelete(name: string)
      modifies this
      ensures View() == Next(worker, old(View()), Deleted(name))
    {
      if name in todo {
        order := Without(order, name);
        caches := caches - {name};
        todo := todo - {name};
      }
    }

    /** Another version of the worker writes. */
    method HandleOtherPut(name: string, e: Entry)
      modifies this
      ensures View() == Next(worker, old(View()), OtherPut(name, e))
    {
      var cacheable := ShouldCache(e.url);
      if cacheable && (name != CURRENT || (e.response.status == 200 && !e.response.opaqueType)) {
        given := given + {e};
        PutInCache(name, e);
      }
    }

    /** Whatever happens next. */
    method Handle(a: Action)
      modifies this
      ensures View() == Next(worker, old(View()), a)
    {
      match a
      case Fetch(f, r) => HandleFetch(f, r);
      case Matched(f) => HandleMatched(f);
      case Network(f, outcome) => HandleNetwork(f, outcome);
      case IndexMatched(f) => HandleIndexMatched(f);
      case RootMatched(f) => HandleRootMatched(f);
      case Retried(f, outcome) => HandleRetried(f, outcome);
      case PutLands(p, ok) => HandlePut(p, ok);
      case ShellFetched(outcomes) => HandleShellFetched(outcomes);
      case ShellPut => HandleShellPut();
      case Listed => HandleActivate();
      case Deleted(name) => HandleDelete(name);
      case OtherPut(name, e) => HandleOtherPut(name, e);
    }

    /** Any callbacks in any order. The current cache then holds only successes, and readable 200s but for
        what `addAll` put there; every answer is genuine and cost at most two attempts; no key has left the
        current cache; and what was in it has answered every fetch begun since. */
    method Play(actions: seq<Action>)
      requires Inv(worker, View())
      modifies this
      ensures View() == Exec(worker, old(View()), actions) && Inv(worker, View())
      ensures CURRENT in caches ==> forall u :: u in caches[CURRENT] ==>
                && Cacheable(u) && Entry(u, caches[CURRENT][u]) in given && AddAllAccepts(caches[CURRENT][u])
                && (Entry(u, caches[CURRENT][u]) !in installed ==> caches[CURRENT][u].status == 200)
      ensures forall f :: f in flights ==>
                && flights[f].tries <= 2
                && (ReplyOf(flights[f]).Answered? ==> Genuine(worker.home, given, flights[f].request, ReplyOf(flights[f]).response))
      ensures KeysGrow(old(caches), caches, CURRENT)
      ensures forall u :: old(HasCurrent(View(), u)) ==> Served(worker, View(), old(flights.Keys), u)
    {
      hide Next, Inv, HasCurrent, Served, KeysGrow, Genuine, Cacheable, AddAllAccepts, ReplyOf;
      ghost var start := View();
      InvRun(worker, start, actions);
      RunGuarantees(start, actions);
      var i := 0;
      while i < |actions|
        invariant 0 <= i <= |actions|
        invariant Exec(worker, start, actions) == Exec(worker, View(), actions[i..])
      {
        assert actions[i..][0] == actions[i] && actions[i..][1..] == actions[i + 1..];
        Handle(actions[i]);
        i := i + 1;
      }
    }

    /** What `ServiceWorker` proves of every run, put together. */
    lemma RunGuarantees(start: State, actions: seq<Action>)
      requires Inv(worker, start)
      ensures var e := Exec(worker, start, actions);
              && (CURRENT in e.caches ==> forall u :: u in e.caches[CURRENT] ==>
                    && Cacheable(u) && Entry(u, e.caches[CURRENT][u]) in e.given && AddAllAccepts(e.caches[CURRENT][u])
                    && (Entry(u, e.caches[CURRENT][u]) !in e.installed ==> e.caches[CURRENT][u].status == 200))
              && (forall f :: f in e.flights ==>
                    && e.flights[f].tries <= 2
                    && (ReplyOf(e.flights[f]).Answered? ==> Genuine(worker.home, e.given, e.flights[f].request, ReplyOf(e.flights[f]).response)))
              && KeysGrow(start.caches, e.caches, CURRENT)
              && (forall u :: HasCurrent(start, u) ==> Served(worker, e, start.flights.Keys, u))
    {
      assert CURRENT !in start.todo;
      hide Exec, Inv, HasCurrent, Served, KeysGrow, Genuine, Cacheable, AddAllAccepts, CachesOk, FlightOk, ReplyOf;
      InvRun(worker, start, actions);
      var e := Exec(worker, start, actions);
      ContentOfGood(worker, e);
      CurrentGrows(worker, start, actions);
      forall f | f in e.flights
        ensures e.flights[f].tries <= 2
        ensures ReplyOf(e.flights[f]).Answered? ==> Genuine(worker.home, e.given, e.flights[f].request, ReplyOf(e.flights[f]).response)
      {
        FlightIsOk(worker, e, f);
        FlightReply(worker, e.given, e.flights[f], Response(0, false, ""));
      }
      forall u | HasCurrent(start, u) ensures Served(worker, e, start.flights.Keys, u) {
        NoneBegunYet(start, u);
        ServedRun(worker, start, actions, start.flights.Keys, u);
      }
    }

    lemma NoneBegunYet(s: State, u: Url)
      ensures Served(worker, s, s.flights.Keys, u)
    {
    }
  }
}
