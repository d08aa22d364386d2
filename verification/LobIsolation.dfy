/**
  Isolation of the LoB flow for caches of every size. A URL cache of one entry remembers only
  the last store, which keeps users apart that a larger one would mix up.
*/
module LobIsolation {
  import opened Options
  import opened OrderedCache
  import opened LobAuth

  // ---------- What small caches remember ----------

  /** The last fetch that was stored under a user token key. */
  function LatestFor(log: seq<Fetched>, key: string): Option<Fetched> {
    if log == [] then None
    else
      var f := log[|log| - 1];
      if f.id.User? && TokenKey(f.id) == key then Some(f) else LatestFor(log[..|log| - 1], key)
  }

  function LastUser(log: seq<Fetched>): Option<Identity> {
    if log == [] then None
    else if log[|log| - 1].id.User? then Some(log[|log| - 1].id)
    else LastUser(log[..|log| - 1])
  }

  /** Each user token is the latest of its key; a single URL is the last store's, a single user token the last user's. */
  ghost predicate Recent(z: Sizes, s: State) {
    && (forall e :: e in s.caches.users ==>
          LatestFor(s.log, e.key).Some? && LatestFor(s.log, e.key).value.token == e.cached.text)
    && (z.url == 1 && s.caches.urls != [] ==>
          s.log != [] && s.caches.urls[0].key == ScopeKey(s.log[|s.log| - 1].id))
    && (z.user == 1 && s.caches.users != [] ==>
          LastUser(s.log).Some? && s.caches.users[0].key == TokenKey(LastUser(s.log).value))
  }

  lemma {:induction false} LatestIsLogged(log: seq<Fetched>, key: string) returns (n: nat)
    requires LatestFor(log, key).Some?
    ensures n < |log| && log[n] == LatestFor(log, key).value && log[n].id.User? && TokenKey(log[n].id) == key
  {
    var f := log[|log| - 1];
    if f.id.User? && TokenKey(f.id) == key {
      n := |log| - 1;
    } else {
      n := LatestIsLogged(log[..|log| - 1], key);
    }
  }

  /** Setting a key: the new entry, and of the old ones only those of other keys. */
  lemma SetReplaces(bound: nat, es: seq<Entry>, key: string, c: Cached, e: Entry)
    requires Unique(es) && e in Apply(bound, es, Set(key, c))
    ensures e == Entry(key, c) || (e in es && e.key != key)
  {
    AssignMoves(es, key, c);
    WithoutFacts(es, key);
  }

  lemma SetAlone(es: seq<Entry>, key: string, c: Cached)
    requires Unique(es)
    ensures Apply(1, es, Set(key, c)) == [Entry(key, c)]
  {
    AssignMoves(es, key, c);
  }

  /** A lookup adds nothing. */
  lemma LookupOnlyDrops(z: Sizes, c: Caches, id: Identity, now: real)
    requires Unique(c.users) && |c.users| <= z.user && Unique(c.urls) && |c.urls| <= z.url
    ensures var after := AfterLookup(z, c, id, now);
            && (forall e :: e in after.users ==> e in c.users) && |after.users| <= z.user
            && (forall e :: e in after.urls ==> e in c.urls) && |after.urls| <= z.url
  {
    var get := Get(TokenKey(id), now);
    ApplyKeepsBound(z.user, c.users, get);
    ApplyKeepsBound(z.url, c.urls, Get(ScopeKey(id), now));
    var after := AfterLookup(z, c, id, now);
    forall e | e in after.users
      ensures e in c.users
    {
      if id.User? {
        ApplyAdds(z.user, c.users, get, e);
      }
    }
    forall e | e in after.urls
      ensures e in c.urls
    {
      ApplyAdds(z.url, c.urls, Get(ScopeKey(id), now), e);
    }
  }

  lemma LookupRecent(z: Sizes, s: State, i: nat, now: real)
    requires Sourced(z, s.caches, s.log) && Recent(z, s) && i < |s.calls| && s.calls[i].pc == Begin
    ensures Recent(z, Step(z, s, Event(i, LookedUp(now))))
  {
    var after := AfterLookup(z, s.caches, s.calls[i].id, now);
    LookupOnlyDrops(z, s.caches, s.calls[i].id, now);
    assert z.url == 1 && after.urls != [] ==> after.urls[0] in s.caches.urls;
    assert z.user == 1 && after.users != [] ==> after.users[0] in s.caches.users;
  }

  lemma StoreRecent(z: Sizes, s: State, i: nat, token: string, url: string, deadline: real)
    requires Sourced(z, s.caches, s.log) && Recent(z, s) && i < |s.calls| && s.calls[i].pc == Waiting
    ensures Recent(z, Step(z, s, Event(i, Got(token, url, deadline))))
  {
    var id := s.calls[i].id;
    var t := Step(z, s, Event(i, Got(token, url, deadline)));
    var f := Fetched(id, token, url);
    assert t.log == s.log + [f] && t.log[..|s.log|] == s.log;
    forall e | e in t.caches.users
      ensures LatestFor(t.log, e.key).Some? && LatestFor(t.log, e.key).value.token == e.cached.text
    {
      if id.User? {
        SetReplaces(z.user, s.caches.users, TokenKey(id), Cached(token, Some(deadline)), e);
      }
    }
    if z.url == 1 {
      SetAlone(s.caches.urls, ScopeKey(id), Cached(url, None));
    }
    if z.user == 1 && id.User? {
      SetAlone(s.caches.users, TokenKey(id), Cached(token, Some(deadline)));
    }
  }

  // ---------- When a hit is the caller's own ----------

  /** No two users that share a key have a further user beside the second one, in its tenant. */
  ghost predicate NoThird(ids: set<Identity>) {
    forall a, b, c ::
      (a in ids && b in ids && c in ids && a.User? && b.User? && c.User?
       && TokenKey(a) == TokenKey(b) && a != b && c.tenant == b.tenant) ==> c == b
  }

  /** What the caches' sizes leave of the need for separate keys. */
  ghost predicate KeptApart(z: Sizes, ids: set<Identity>) {
    || Separate(ids)
    || z.user == 0 || z.url == 0
    || (z.url == 1 && (z.user == 1 || NoThird(ids)))
  }

  /** A user's hit with a URL cache of one entry: the last store was for this tenant. */
  lemma SingleUrlHit(z: Sizes, s: State, ids: set<Identity>, id: Identity, now: real)
    requires Inv(z, s, ids) && Recent(z, s) && id in ids && id.User? && Hit(s.caches, id, now).Some?
    requires z.url == 1 && (z.user == 1 || NoThird(ids))
    ensures var h := Hit(s.caches, id, now).value; OwnAuth(s.log, id, h.0, h.1)
  {
    var h := Hit(s.caches, id, now).value;
    LookupHasKey(s.caches.users, TokenKey(id));
    LookupHasKey(s.caches.urls, ScopeKey(id));
    var t := Entry(TokenKey(id), Lookup(s.caches.users, TokenKey(id)).value);
    var u := Entry(ScopeKey(id), Lookup(s.caches.urls, ScopeKey(id)).value);
    var n := LatestIsLogged(s.log, t.key);
    var c := s.log[|s.log| - 1].id;
    assert s.caches.urls[0] == u;
    ScopeKeysDiffer(c, id);
    if z.user == 1 {
      assert s.caches.users[0] == t;
      SameScopeSameKey(c, id);
    } else {
      assert s.log[n].id == id || c == id;
    }
    assert s.log[n].id == id && s.log[n].token == h.0;
    assert UrlSourced(s.log, u);
    var m :| 0 <= m < |s.log| && ScopeKey(s.log[m].id) == u.key && s.log[m].url == h.1;
    ScopeKeysDiffer(s.log[m].id, id);
  }

  lemma SameScopeSameKey(c: Identity, id: Identity)
    requires c.User? && id.User? && c.tenant == id.tenant && TokenKey(c) == TokenKey(id)
    ensures c == id
  {
    if c != id {
      SharedKeyTenants(c, id);
    }
  }

  lemma HitOwnAnyway(z: Sizes, s: State, ids: set<Identity>, id: Identity, now: real)
    requires Inv(z, s, ids) && Recent(z, s) && KeptApart(z, ids) && id in ids && Hit(s.caches, id, now).Some?
    ensures var h := Hit(s.caches, id, now).value; OwnAuth(s.log, id, h.0, h.1)
  {
    if id.System? || Separate(ids) {
      HitIsOwn(z, s, ids, id, now);
    } else {
      LookupHasKey(s.caches.users, TokenKey(id));
      LookupHasKey(s.caches.urls, ScopeKey(id));
      SingleUrlHit(z, s, ids, id, now);
    }
  }

  lemma StepRecent(z: Sizes, s: State, e: Event, ids: set<Identity>)
    requires Inv(z, s, ids) && Recent(z, s) && Enabled(s, e)
    ensures Recent(z, Step(z, s, e))
  {
    match e.what
    case LookedUp(now) => LookupRecent(z, s, e.call, now);
    case Got(token, url, deadline) => StoreRecent(z, s, e.call, token, url, deadline);
    case Refused =>
  }

  lemma {:induction false} RunKeepsApart(z: Sizes, s: State, events: seq<Event>, ids: set<Identity>)
    requires Inv(z, s, ids) && Recent(z, s) && KeptApart(z, ids) && LobAuth.Run(z, s, events).Some?
    ensures Inv(z, LobAuth.Run(z, s, events).value, ids)
    decreases |events|
  {
    if events != [] {
      var e := events[0];
      var id := s.calls[e.call].id;
      if e.what.LookedUp? && Hit(s.caches, id, e.what.now).Some? {
        HitOwnAnyway(z, s, ids, id, e.what.now);
      }
      StepRecent(z, s, e, ids);
      StepKeeps(z, s, e, ids);
      RunKeepsApart(z, Step(z, s, e), events[1..], ids);
    }
  }

  // ---------- And when it need not be ----------

  /** With one URL and two tokens: `a`'s token stays under the shared key while `c` restores the tenant's URL. */
  lemma ThirdStore(z: Sizes, a: Identity, c: Identity)
    requires a.User? && c.User? && TokenKey(a) != TokenKey(c) && ScopeKey(a) != ScopeKey(c)
    requires z.user >= 2 && z.url == 1
    ensures var first := Caches([], [Entry(TokenKey(a), Cached("B", Some(1.0)))], [Entry(ScopeKey(a), Cached("u", None))]);
            && Hit(first, c, 0.0).None?
            && AfterStore(z, AfterLookup(z, first, c, 0.0), c, "C", "u", 1.0)
               == Caches([], [Entry(TokenKey(a), Cached("B", Some(1.0))), Entry(TokenKey(c), Cached("C", Some(1.0)))],
                         [Entry(ScopeKey(c), Cached("u", None))])
  {
    var token, url := Entry(TokenKey(a), Cached("B", Some(1.0))), Entry(ScopeKey(a), Cached("u", None));
    assert Lookup([token], TokenKey(c)) == None;
    assert Lookup([url], ScopeKey(c)) == None;
    SetSecond(z.user, token, TokenKey(c), Cached("C", Some(1.0)));
    SetAlone([url], ScopeKey(c), Cached("u", None));
  }

  lemma MixedUp(z: Sizes, s: State, a: Identity, b: Identity, c: Identity) returns (t: State)
    requires a.User? && b.User? && c.User? && TokenKey(a) == TokenKey(b) && a != b && c != b && c.tenant == b.tenant
    requires |s.calls| == 3 && s.calls[2] == Call(b, Begin)
    requires s.log == [Fetched(a, "B", "u"), Fetched(c, "C", "u")]
    requires s.caches.users != [] && s.caches.users[0] == Entry(TokenKey(a), Cached("B", Some(1.0)))
    requires s.caches.urls != [] && s.caches.urls[0] == Entry(ScopeKey(c), Cached("u", None))
    ensures LobAuth.Run(z, s, [Event(2, LookedUp(0.0))] + []) == Some(t) && !Isolated(t)
  {
    var e := Event(2, LookedUp(0.0));
    ScopeKeysDiffer(b, c);
    assert Hit(s.caches, b, 0.0) == Some(("B", "u"));
    t := Step(z, s, e);
    RunOne(z, s, e, []);
    assert t.calls[2] == Call(b, Returned("B", "u"));
    assert !OwnAuth(t.log, b, "B", "u");
  }

  lemma StoredBoth(z: Sizes, a: Identity, b: Identity, c: Identity, s: State) returns (events: seq<Event>, t: State)
    requires a.User? && c.User? && TokenKey(a) != TokenKey(c) && ScopeKey(a) != ScopeKey(c)
    requires z.user >= 2 && z.url == 1
    requires s == State(Caches([], [], []), [Call(a, Begin), Call(c, Begin), Call(b, Begin)], [])
    ensures LobAuth.Run(z, s, events) == Some(t)
    ensures t.log == [Fetched(a, "B", "u"), Fetched(c, "C", "u")]
    ensures |t.calls| == 3 && t.calls[2] == Call(b, Begin)
    ensures t.caches.users != [] && t.caches.users[0] == Entry(TokenKey(a), Cached("B", Some(1.0)))
    ensures t.caches.urls == [Entry(ScopeKey(c), Cached("u", None))]
  {
    FirstStore(z, a);
    ThirdStore(z, a, c);
    events, t := TwoFetches(z, s, "B", "C");
  }

  lemma ThirdMixesTokens(z: Sizes, a: Identity, b: Identity, c: Identity) returns (calls: seq<Identity>)
    requires a.User? && b.User? && c.User? && TokenKey(a) == TokenKey(b) && a != b && c != b && c.tenant == b.tenant
    requires z.user >= 2 && z.url == 1
    ensures calls == [a, c, b] && !AlwaysIsolated(z, calls)
  {
    SharedKeyTenants(a, b);
    ScopeKeysDiffer(a, c);
    if TokenKey(c) == TokenKey(b) {
      SharedKeyTenants(c, b);
    }
    calls := [a, c, b];
    var s0 := Start(calls);
    assert s0.calls == [Call(a, Begin), Call(c, Begin), Call(b, Begin)];
    var events, s := StoredBoth(z, a, b, c, s0);
    var t := MixedUp(z, s, a, b, c);
    var last := [Event(2, LookedUp(0.0))] + [];
    LobAuth.RunConcat(z, s0, events, last);
    NotAlways(z, calls, events + last, t);
  }

  lemma NotAlways(z: Sizes, calls: seq<Identity>, events: seq<Event>, t: State)
    requires LobAuth.Run(z, Start(calls), events) == Some(t) && !Isolated(t)
    ensures !AlwaysIsolated(z, calls)
  {
  }

  /** Every interleaving of calls whose identities the caches keep apart is isolated. */
  lemma KeptApartIsolates(z: Sizes, ids: set<Identity>, calls: seq<Identity>, events: seq<Event>)
    requires KeptApart(z, ids) && CallsBy(ids, calls)
    requires LobAuth.Run(z, Start(calls), events).Some?
    ensures Isolated(LobAuth.Run(z, Start(calls), events).value)
  {
    RunKeepsApart(z, Start(calls), events, ids);
  }

  lemma TightMixesTokens(z: Sizes, ids: set<Identity>)
    requires !KeptApart(z, ids) && z.url < 2
    ensures exists calls :: CallsBy(ids, calls) && !AlwaysIsolated(z, calls)
  {
    var a, b, c :| a in ids && b in ids && c in ids && a.User? && b.User? && c.User?
                   && TokenKey(a) == TokenKey(b) && a != b && c.tenant == b.tenant && c != b;
    var calls := ThirdMixesTokens(z, a, b, c);
    assert CallsBy(ids, calls);
  }

  /**
    For caches of every size, all interleavings of all calls by a set of identities are isolated
    exactly if the users' keys are separate, or the caches too small to mix them up.
  */
  lemma IsolationExactly(z: Sizes, ids: set<Identity>)
    ensures KeptApart(z, ids) <==> forall calls :: CallsBy(ids, calls) ==> AlwaysIsolated(z, calls)
  {
    if KeptApart(z, ids) {
      forall calls, events | CallsBy(ids, calls) && LobAuth.Run(z, Start(calls), events).Some?
        ensures Isolated(LobAuth.Run(z, Start(calls), events).value)
      {
        KeptApartIsolates(z, ids, calls, events);
      }
    } else if z.url >= 2 {
      RoomyIsolationExactly(z, ids);
    } else {
      TightMixesTokens(z, ids);
    }
  }
}
