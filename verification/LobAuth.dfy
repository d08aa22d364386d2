/**
  System and user authentication of the LoB flow: two token dictionaries and one gateway
  URL dictionary shared by coroutines that are suspended while they fetch. A call runs in
  two pieces, the lookup before its await and the store after it; pieces of different calls
  interleave freely.
*/
module LobAuth {
  import opened Options
  import opened OrderedCache

  // ---------- Identities and their cache keys ----------

  /** On whose behalf a token is fetched. */
  datatype Identity = System(tenant: string) | User(tenant: string, jwt: string)

  const SYSTEM_SCOPE: string := "lob-system::"
  const USER_SCOPE: string := "lob-user::"

  function ScopeKey(id: Identity): string {
    match id
    case System(tenant) => SYSTEM_SCOPE + tenant
    case User(tenant, _) => USER_SCOPE + tenant
  }

  /** What a token is filed under; a user token under the text that is hashed. */
  function TokenKey(id: Identity): string {
    match id
    case System(_) => ScopeKey(id)
    case User(_, jwt) => jwt + "|" + ScopeKey(id)
  }

  // ---------- The two pieces of a call ----------

  datatype Sizes = Sizes(system: nat, user: nat, url: nat)

  datatype Caches = Caches(system: seq<Entry>, users: seq<Entry>, urls: seq<Entry>)

  function Tokens(c: Caches, id: Identity): seq<Entry> {
    if id.System? then c.system else c.users
  }

  /** The answer of the lookup: an empty cached token or URL counts as a miss. */
  function Hit(c: Caches, id: Identity, now: real): Option<(string, string)> {
    var token := Answer(Tokens(c, id), TokenKey(id), now);
    var url := Answer(c.urls, ScopeKey(id), now);
    if token.Some? && token.value != "" && url.Some? && url.value != "" then Some((token.value, url.value)) else None
  }

  function AfterLookup(z: Sizes, c: Caches, id: Identity, now: real): Caches {
    var get := Get(TokenKey(id), now);
    Caches(if id.System? then Apply(z.system, c.system, get) else c.system,
           if id.User? then Apply(z.user, c.users, get) else c.users,
           Apply(z.url, c.urls, Get(ScopeKey(id), now)))
  }

  function AfterStore(z: Sizes, c: Caches, id: Identity, token: string, url: string, deadline: real): Caches {
    var set_ := Set(TokenKey(id), Cached(token, Some(deadline)));
    Caches(if id.System? then Apply(z.system, c.system, set_) else c.system,
           if id.User? then Apply(z.user, c.users, set_) else c.users,
           Apply(z.url, c.urls, Set(ScopeKey(id), Cached(url, None))))
  }

  /** An entry of this key holds this text, and is not over. */
  ghost predicate Holds(es: seq<Entry>, key: string, text: string, now: real) {
    exists e :: e in es && e.key == key && e.cached.text == text && (e.cached.deadline.None? || now < e.cached.deadline.value)
  }

  lemma HoldsExactly(es: seq<Entry>, key: string, text: string, now: real)
    requires Unique(es)
    ensures Answer(es, key, now) == Some(text) <==> Holds(es, key, text, now)
  {
    AnswerExactly(es, key, now);
  }

  /** A hit, told from the entries: a token of the caller's own kind and key and a URL of its scope, both non-empty and not over. */
  lemma HitExactly(c: Caches, id: Identity, now: real, token: string, url: string)
    requires Unique(c.system) && Unique(c.users) && Unique(c.urls)
    ensures Hit(c, id, now) == Some((token, url))
            <==> && token != "" && Holds(if id.System? then c.system else c.users, TokenKey(id), token, now)
                 && url != "" && Holds(c.urls, ScopeKey(id), url, now)
  {
    HoldsExactly(Tokens(c, id), TokenKey(id), token, now);
    HoldsExactly(c.urls, ScopeKey(id), url, now);
  }

  lemma SetIsAnswered(bound: nat, es: seq<Entry>, key: string, c: Cached, now: real)
    requires Unique(es) && |es| <= bound && bound >= 1
    ensures Answer(Apply(bound, es, Set(key, c)), key, now) == if c.deadline.None? || now < c.deadline.value then Some(c.text) else None
  {
    AssignMoves(es, key, c);
    PutLast(es, key, c);
    ApplyKeepsBound(bound, es, Set(key, c));
    var after := Apply(bound, es, Set(key, c));
    assert after[|after| - 1] == Entry(key, c);
    UniqueLookup(after, |after| - 1);
  }

  /** What was stored for an identity, system or user, is its next hit, until the token's deadline. */
  lemma StoredIsHit(z: Sizes, c: Caches, id: Identity, token: string, url: string, deadline: real, now: real)
    requires Unique(c.system) && |c.system| <= z.system && Unique(c.users) && |c.users| <= z.user
    requires Unique(c.urls) && |c.urls| <= z.url
    requires z.url >= 1 && (if id.System? then z.system else z.user) >= 1
    ensures Hit(AfterStore(z, c, id, token, url, deadline), id, now)
            == if token != "" && url != "" && now < deadline then Some((token, url)) else None
  {
    if id.System? {
      SetIsAnswered(z.system, c.system, TokenKey(id), Cached(token, Some(deadline)), now);
    } else {
      SetIsAnswered(z.user, c.users, TokenKey(id), Cached(token, Some(deadline)), now);
    }
    SetIsAnswered(z.url, c.urls, ScopeKey(id), Cached(url, None), now);
  }

  /** The client's two cache objects. */
  class AuthClient {
    const tokens: TokenCache
    const urls: GatewayUrlCache

    constructor (z: Sizes)
      ensures Valid() && fresh(tokens) && fresh(urls)
      ensures Contents() == Caches([], [], []) && Bounds() == z
    {
      tokens := new TokenCache(z.system, z.user);
      urls := new GatewayUrlCache(z.url);
    }

    ghost predicate Valid()
      reads tokens, urls
    {
      tokens.Valid() && urls.Valid()
    }

    ghost function Contents(): Caches
      reads tokens, urls
    {
      Caches(tokens.systemTokens, tokens.userTokens, urls.cache)
    }

    ghost function Bounds(): Sizes {
      Sizes(tokens.maxSystem, tokens.maxUser, urls.maxSize)
    }

    /** Both dictionaries are asked, whatever the first one answers. */
    method Lookup(id: Identity, now: real) returns (hit: Option<(string, string)>)
      requires Valid()
      modifies tokens, urls
      ensures Valid()
      ensures Contents() == AfterLookup(Bounds(), old(Contents()), id, now)
      ensures hit == Hit(old(Contents()), id, now)
      ensures forall token, url :: hit == Some((token, url)) <==>
                && token != "" && Holds(if id.System? then old(tokens.systemTokens) else old(tokens.userTokens), TokenKey(id), token, now)
                && url != "" && Holds(old(urls.cache), ScopeKey(id), url, now)
      ensures urls.cache == Apply(urls.maxSize, old(urls.cache), Get(ScopeKey(id), now))
      ensures if id.System? then tokens.userTokens == old(tokens.userTokens) else tokens.systemTokens == old(tokens.systemTokens)
    {
      forall token, url
        ensures Hit(Contents(), id, now) == Some((token, url))
                <==> && token != "" && Holds(if id.System? then tokens.systemTokens else tokens.userTokens, TokenKey(id), token, now)
                     && url != "" && Holds(urls.cache, ScopeKey(id), url, now)
      {
        HitExactly(Contents(), id, now, token, url);
      }
      var token;
      if id.System? {
        token := tokens.GetSystemToken(ScopeKey(id), now);
      } else {
        token := tokens.GetUserToken(TokenKey(id), now);
      }
      var url := urls.Get(ScopeKey(id), now);
      if token.Some? && token.value != "" && url.Some? && url.value != "" {
        return Some((token.value, url.value));
      }
      return None;
    }

    method Store(id: Identity, token: string, url: string, deadline: real)
      requires Valid()
      modifies tokens, urls
      ensures Valid()
      ensures Contents() == AfterStore(Bounds(), old(Contents()), id, token, url, deadline)
      ensures if id.System? then tokens.userTokens == old(tokens.userTokens) else tokens.systemTokens == old(tokens.systemTokens)
    {
      if id.System? {
        tokens.SetSystemToken(token, deadline, ScopeKey(id));
      } else {
        tokens.SetUserToken(TokenKey(id), token, deadline);
      }
      urls.Put(ScopeKey(id), url);
    }
  }

  // ---------- Interleaved calls ----------

  datatype Pc = Begin | Waiting | Returned(token: string, url: string) | Failed

  datatype Call = Call(id: Identity, pc: Pc)

  /** What the destination service handed out, and for whom. */
  datatype Fetched = Fetched(id: Identity, token: string, url: string)

  datatype State = State(caches: Caches, calls: seq<Call>, log: seq<Fetched>)

  datatype Answered = LookedUp(now: real) | Got(token: string, url: string, deadline: real) | Refused

  datatype Event = Event(call: nat, what: Answered)

  function Start(ids: seq<Identity>): State {
    State(Caches([], [], []), seq(|ids|, i requires 0 <= i < |ids| => Call(ids[i], Begin)), [])
  }

  predicate Enabled(s: State, e: Event) {
    e.call < |s.calls| && match s.calls[e.call].pc
                          case Begin => e.what.LookedUp?
                          case Waiting => !e.what.LookedUp?
                          case _ => false
  }

  function Step(z: Sizes, s: State, e: Event): State
    requires Enabled(s, e)
  {
    var id := s.calls[e.call].id;
    match e.what
    case LookedUp(now) =>
      var pc := match Hit(s.caches, id, now)
        case Some(h) => Returned(h.0, h.1)
        case None => Waiting;
      s.(caches := AfterLookup(z, s.caches, id, now), calls := s.calls[e.call := Call(id, pc)])
    case Got(token, url, deadline) =>
      State(AfterStore(z, s.caches, id, token, url, deadline),
            s.calls[e.call := Call(id, Returned(token, url))],
            s.log + [Fetched(id, token, url)])
    case Refused => s.(calls := s.calls[e.call := Call(id, Failed)])
  }

  function Run(z: Sizes, s: State, events: seq<Event>): Option<State>
    decreases |events|
  {
    if events == [] then Some(s)
    else if Enabled(s, events[0]) then Run(z, Step(z, s, events[0]), events[1..])
    else None
  }

  // ---------- Isolation ----------

  /** The call's token was fetched for exactly its identity, its URL for its tenant and auth kind. */
  ghost predicate OwnAuth(log: seq<Fetched>, id: Identity, token: string, url: string) {
    && (exists n :: 0 <= n < |log| && log[n].id == id && log[n].token == token)
    && (exists n :: 0 <= n < |log| && log[n].id.System? == id.System? && log[n].id.tenant == id.tenant && log[n].url == url)
  }

  ghost predicate Isolated(s: State) {
    forall i :: 0 <= i < |s.calls| && s.calls[i].pc.Returned? ==>
                  OwnAuth(s.log, s.calls[i].id, s.calls[i].pc.token, s.calls[i].pc.url)
  }

  /** No two identities share a token key. */
  ghost predicate Separate(ids: set<Identity>) {
    forall a, b :: a in ids && b in ids && a.User? && b.User? && TokenKey(a) == TokenKey(b) ==> a == b
  }

  ghost predicate TokenSourced(log: seq<Fetched>, e: Entry, system: bool) {
    exists n :: 0 <= n < |log| && log[n].id.System? == system && TokenKey(log[n].id) == e.key && log[n].token == e.cached.text
  }

  ghost predicate UrlSourced(log: seq<Fetched>, e: Entry) {
    exists n :: 0 <= n < |log| && ScopeKey(log[n].id) == e.key && log[n].url == e.cached.text
  }

  ghost predicate Sourced(z: Sizes, c: Caches, log: seq<Fetched>) {
    && Unique(c.system) && |c.system| <= z.system
    && Unique(c.users) && |c.users| <= z.user
    && Unique(c.urls) && |c.urls| <= z.url
    && (forall e :: e in c.system ==> TokenSourced(log, e, true))
    && (forall e :: e in c.users ==> TokenSourced(log, e, false))
    && (forall e :: e in c.urls ==> UrlSourced(log, e))
  }

  ghost predicate Inv(z: Sizes, s: State, ids: set<Identity>) {
    && (forall i :: 0 <= i < |s.calls| ==> s.calls[i].id in ids)
    && (forall n :: 0 <= n < |s.log| ==> s.log[n].id in ids)
    && Sourced(z, s.caches, s.log)
    && Isolated(s)
  }

  lemma ScopeKeysDiffer(a: Identity, b: Identity)
    ensures ScopeKey(a) == ScopeKey(b) <==> (a.System? == b.System? && a.tenant == b.tenant)
  {
    assert SYSTEM_SCOPE[4] != USER_SCOPE[4];
    var ka, kb := ScopeKey(a), ScopeKey(b);
    if a.System? == b.System? {
      var n := if a.System? then |SYSTEM_SCOPE| else |USER_SCOPE|;
      assert ka[n..] == a.tenant && kb[n..] == b.tenant;
    } else {
      assert ka[4] != kb[4];
    }
  }

  /** The log only grows, so what was sourced stays sourced. */
  lemma SourcedGrows(z: Sizes, c: Caches, log: seq<Fetched>, f: Fetched)
    requires Sourced(z, c, log)
    ensures Sourced(z, c, log + [f])
  {
    var more := log + [f];
    assert forall n :: 0 <= n < |log| ==> more[n] == log[n];
    forall e | e in c.system
      ensures TokenSourced(more, e, true)
    {
      assert TokenSourced(log, e, true);
    }
    forall e | e in c.users
      ensures TokenSourced(more, e, false)
    {
      assert TokenSourced(log, e, false);
    }
    forall e | e in c.urls
      ensures UrlSourced(more, e)
    {
      assert UrlSourced(log, e);
    }
  }

  lemma LookupSourced(z: Sizes, c: Caches, log: seq<Fetched>, id: Identity, now: real)
    requires Sourced(z, c, log)
    ensures Sourced(z, AfterLookup(z, c, id, now), log)
  {
    var get := Get(TokenKey(id), now);
    ApplyKeepsBound(z.system, c.system, get);
    ApplyKeepsBound(z.user, c.users, get);
    ApplyKeepsBound(z.url, c.urls, Get(ScopeKey(id), now));
    forall e | e in AfterLookup(z, c, id, now).system
      ensures TokenSourced(log, e, true)
    {
      if id.System? {
        ApplyAdds(z.system, c.system, get, e);
      }
    }
    forall e | e in AfterLookup(z, c, id, now).users
      ensures TokenSourced(log, e, false)
    {
      if id.User? {
        ApplyAdds(z.user, c.users, get, e);
      }
    }
    forall e | e in AfterLookup(z, c, id, now).urls
      ensures UrlSourced(log, e)
    {
      ApplyAdds(z.url, c.urls, Get(ScopeKey(id), now), e);
    }
  }

  lemma StoreSourced(z: Sizes, c: Caches, log: seq<Fetched>, f: Fetched, deadline: real)
    requires Sourced(z, c, log)
    ensures Sourced(z, AfterStore(z, c, f.id, f.token, f.url, deadline), log + [f])
  {
    SourcedGrows(z, c, log, f);
    var more := log + [f];
    assert more[|log|] == f;
    var set_ := Set(TokenKey(f.id), Cached(f.token, Some(deadline)));
    var put := Set(ScopeKey(f.id), Cached(f.url, None));
    ApplyKeepsBound(z.system, c.system, set_);
    ApplyKeepsBound(z.user, c.users, set_);
    ApplyKeepsBound(z.url, c.urls, put);
    var after := AfterStore(z, c, f.id, f.token, f.url, deadline);
    forall e | e in after.system
      ensures TokenSourced(more, e, true)
    {
      if f.id.System? {
        ApplyAdds(z.system, c.system, set_, e);
      }
    }
    forall e | e in after.users
      ensures TokenSourced(more, e, false)
    {
      if f.id.User? {
        ApplyAdds(z.user, c.users, set_, e);
      }
    }
    forall e | e in after.urls
      ensures UrlSourced(more, e)
    {
      ApplyAdds(z.url, c.urls, put, e);
    }
  }

  lemma HitIsOwn(z: Sizes, s: State, ids: set<Identity>, id: Identity, now: real)
    requires Inv(z, s, ids) && id in ids && Hit(s.caches, id, now).Some?
    requires forall a :: a in ids && a.User? && id.User? && TokenKey(a) == TokenKey(id) ==> a == id
    ensures var h := Hit(s.caches, id, now).value; OwnAuth(s.log, id, h.0, h.1)
  {
    var h := Hit(s.caches, id, now).value;
    LookupHasKey(Tokens(s.caches, id), TokenKey(id));
    LookupHasKey(s.caches.urls, ScopeKey(id));
    var t := Entry(TokenKey(id), Lookup(Tokens(s.caches, id), TokenKey(id)).value);
    assert TokenSourced(s.log, t, id.System?);
    var n :| 0 <= n < |s.log| && s.log[n].id.System? == id.System? && TokenKey(s.log[n].id) == t.key && s.log[n].token == h.0;
    ScopeKeysDiffer(s.log[n].id, id);
    assert s.log[n].id == id;
    var u := Entry(ScopeKey(id), Lookup(s.caches.urls, ScopeKey(id)).value);
    assert UrlSourced(s.log, u);
    var m :| 0 <= m < |s.log| && ScopeKey(s.log[m].id) == u.key && s.log[m].url == h.1;
    ScopeKeysDiffer(s.log[m].id, id);
  }

  lemma OwnAuthGrows(log: seq<Fetched>, f: Fetched, id: Identity, token: string, url: string)
    requires OwnAuth(log, id, token, url)
    ensures OwnAuth(log + [f], id, token, url)
  {
    var more := log + [f];
    var n :| 0 <= n < |log| && log[n].id == id && log[n].token == token;
    var m :| 0 <= m < |log| && log[m].id.System? == id.System? && log[m].id.tenant == id.tenant && log[m].url == url;
    assert more[n].id == id && more[m].url == url;
  }

  /** A step keeps isolation if a hit, should it be one, is its caller's own. */
  lemma StepKeeps(z: Sizes, s: State, e: Event, ids: set<Identity>)
    requires Inv(z, s, ids) && Enabled(s, e)
    requires var id := s.calls[e.call].id;
             e.what.LookedUp? && Hit(s.caches, id, e.what.now).Some? ==>
               var h := Hit(s.caches, id, e.what.now).value; OwnAuth(s.log, id, h.0, h.1)
    ensures Inv(z, Step(z, s, e), ids)
  {
    var t := Step(z, s, e);
    var id := s.calls[e.call].id;
    match e.what
    case LookedUp(now) =>
      LookupSourced(z, s.caches, s.log, id, now);
    case Got(token, url, deadline) =>
      var f := Fetched(id, token, url);
      StoreSourced(z, s.caches, s.log, f, deadline);
      assert t.log[|s.log|] == f;
      forall i | 0 <= i < |t.calls| && t.calls[i].pc.Returned?
        ensures OwnAuth(t.log, t.calls[i].id, t.calls[i].pc.token, t.calls[i].pc.url)
      {
        if i != e.call {
          OwnAuthGrows(s.log, f, t.calls[i].id, t.calls[i].pc.token, t.calls[i].pc.url);
        }
      }
    case Refused =>
  }

  lemma StepInv(z: Sizes, s: State, e: Event, ids: set<Identity>)
    requires Inv(z, s, ids) && Separate(ids) && Enabled(s, e)
    ensures Inv(z, Step(z, s, e), ids)
  {
    var id := s.calls[e.call].id;
    if e.what.LookedUp? && Hit(s.caches, id, e.what.now).Some? {
      HitIsOwn(z, s, ids, id, e.what.now);
    }
    StepKeeps(z, s, e, ids);
  }

  lemma {:induction false} RunInv(z: Sizes, s: State, events: seq<Event>, ids: set<Identity>)
    requires Inv(z, s, ids) && Separate(ids) && Run(z, s, events).Some?
    ensures Inv(z, Run(z, s, events).value, ids)
    decreases |events|
  {
    if events != [] {
      StepInv(z, s, events[0], ids);
      RunInv(z, Step(z, s, events[0]), events[1..], ids);
    }
  }

  /** Every interleaving of calls whose identities have separate keys is isolated. */
  lemma SeparateKeysIsolate(z: Sizes, ids: set<Identity>, calls: seq<Identity>, events: seq<Event>)
    requires Separate(ids) && (forall i :: 0 <= i < |calls| ==> calls[i] in ids)
    requires Run(z, Start(calls), events).Some?
    ensures Isolated(Run(z, Start(calls), events).value)
  {
    RunInv(z, Start(calls), events, ids);
  }

  // ---------- When keys are separate ----------

  const USER_TAG: string := "|" + USER_SCOPE

  /** `b`'s JWT spells `a`'s JWT, the separator, and the start of `a`'s tenant. */
  ghost predicate Spells(a: Identity, b: Identity, x: string)
    requires a.User? && b.User?
  {
    b.jwt == a.jwt + USER_TAG + x && a.tenant == x + USER_TAG + b.tenant
  }

  lemma TokenKeyShape(a: Identity)
    requires a.User?
    ensures TokenKey(a) == a.jwt + USER_TAG + a.tenant
  {
  }

  /** Two different identities share a token key exactly if one JWT spells the other and a separator. */
  lemma SharedKeyExactly(a: Identity, b: Identity)
    requires a.User? && b.User?
    ensures TokenKey(a) == TokenKey(b) <==> (a == b || (exists x :: Spells(a, b, x)) || (exists x :: Spells(b, a, x)))
  {
    TokenKeyShape(a);
    TokenKeyShape(b);
    if TokenKey(a) == TokenKey(b) {
      if |a.jwt| <= |b.jwt| {
        SharedKeySpells(a, b);
      } else {
        SharedKeySpells(b, a);
      }
    }
    if x :| Spells(a, b, x) {
      SpellingShares(a, b, x);
    }
    if x :| Spells(b, a, x) {
      SpellingShares(b, a, x);
    }
  }

  lemma SpellingShares(a: Identity, b: Identity, x: string)
    requires a.User? && b.User? && Spells(a, b, x)
    ensures a.jwt + USER_TAG + a.tenant == b.jwt + USER_TAG + b.tenant
  {
  }

  /** The tag starts with its only separator, so two occurrences in a text do not overlap. */
  lemma TagsDoNotOverlap(s: string, i: nat, j: nat)
    requires i < j && j + |USER_TAG| <= |s|
    requires s[i..i + |USER_TAG|] == USER_TAG && s[j..j + |USER_TAG|] == USER_TAG
    ensures i + |USER_TAG| <= j
  {
    assert USER_TAG[0] == '|' && forall k :: 0 < k < |USER_TAG| ==> USER_TAG[k] != '|';
    assert s[j..j + |USER_TAG|][0] == s[j];
    forall k | i < k < i + |USER_TAG|
      ensures s[k] != '|'
    {
      assert s[i..i + |USER_TAG|][k - i] == s[k];
    }
  }

  lemma SharedKeySpells(a: Identity, b: Identity)
    requires a.User? && b.User? && |a.jwt| <= |b.jwt|
    requires a.jwt + USER_TAG + a.tenant == b.jwt + USER_TAG + b.tenant
    ensures a == b || exists x :: Spells(a, b, x)
  {
    var s := a.jwt + USER_TAG + a.tenant;
    var n, d := |USER_TAG|, |b.jwt| - |a.jwt|;
    assert s[..|a.jwt|] == a.jwt && s[..|b.jwt|] == b.jwt;
    assert s[|a.jwt| + n..] == a.tenant && s[|b.jwt| + n..] == b.tenant;
    assert s[|a.jwt|..|a.jwt| + n] == USER_TAG;
    assert s[|b.jwt|..|b.jwt| + n] == USER_TAG;
    if d == 0 {
      assert a.jwt == b.jwt && a.tenant == b.tenant;
    } else {
      TagsDoNotOverlap(s, |a.jwt|, |b.jwt|);
      var x := a.tenant[..d - n];
      assert b.jwt == s[..|a.jwt|] + s[|a.jwt|..|a.jwt| + n] + s[|a.jwt| + n..|b.jwt|];
      assert s[|a.jwt| + n..|b.jwt|] == x;
      assert a.tenant == s[|a.jwt| + n..|b.jwt|] + s[|b.jwt|..|b.jwt| + n] + s[|b.jwt| + n..];
      assert Spells(a, b, x);
    }
  }

  lemma SpellingHasSeparators(a: Identity, b: Identity, x: string)
    requires a.User? && b.User? && Spells(a, b, x)
    ensures '|' in b.jwt && '|' in a.tenant
  {
  }

  /** JWTs without the separator, as every encoded JWT is, keep all users apart; so do tenants without it. */
  lemma NoSeparatorSeparates(ids: set<Identity>)
    requires (forall a :: a in ids && a.User? ==> '|' !in a.jwt) || (forall a :: a in ids && a.User? ==> '|' !in a.tenant)
    ensures Separate(ids)
  {
    forall a, b | a in ids && b in ids && a.User? && b.User? && TokenKey(a) == TokenKey(b)
      ensures a == b
    {
      SharedKeyExactly(a, b);
      if x :| Spells(a, b, x) {
        SpellingHasSeparators(a, b, x);
      }
      if x :| Spells(b, a, x) {
        SpellingHasSeparators(b, a, x);
      }
    }
  }

  // ---------- And when they are not ----------

  lemma RunOne(z: Sizes, s: State, e: Event, events: seq<Event>)
    requires Enabled(s, e)
    ensures Run(z, s, [e] + events) == Run(z, Step(z, s, e), events)
  {
  }

  lemma SetFirst(bound: nat, key: string, c: Cached)
    requires bound >= 1
    ensures Apply(bound, [], Set(key, c)) == [Entry(key, c)]
  {
    AssignMoves([], key, c);
  }

  lemma SetSecond(bound: nat, first: Entry, key: string, c: Cached)
    requires bound >= 1 && (first.key != key ==> bound >= 2)
    ensures Apply(bound, [first], Set(key, c)) == if first.key == key then [Entry(key, c)] else [first, Entry(key, c)]
  {
    AssignMoves([first], key, c);
  }

  lemma SharedKeyTenants(a: Identity, b: Identity)
    requires a.User? && b.User? && a != b && TokenKey(a) == TokenKey(b)
    ensures a.tenant != b.tenant
  {
    TokenKeyShape(a);
    TokenKeyShape(b);
    assert TokenKey(a)[..|a.jwt|] == a.jwt && TokenKey(b)[..|b.jwt|] == b.jwt;
  }

  /** A call that misses, fetches `token` and stores it, undisturbed. */
  lemma OneFetch(z: Sizes, s: State, i: nat, token: string) returns (events: seq<Event>, t: State)
    requires i < |s.calls| && s.calls[i].pc == Begin && Hit(s.caches, s.calls[i].id, 0.0).None?
    ensures Run(z, s, events) == Some(t)
    ensures var id := s.calls[i].id;
            && t.log == s.log + [Fetched(id, token, "u")]
            && t.calls == s.calls[i := Call(id, Returned(token, "u"))]
            && t.caches == AfterStore(z, AfterLookup(z, s.caches, id, 0.0), id, token, "u", 1.0)
  {
    var e0, e1 := Event(i, LookedUp(0.0)), Event(i, Got(token, "u", 1.0));
    var s1 := Step(z, s, e0);
    t := Step(z, s1, e1);
    RunOne(z, s1, e1, []);
    RunOne(z, s, e0, [e1] + []);
    events := [e0] + ([e1] + []);
    assert t.calls == s.calls[i := Call(s.calls[i].id, Returned(token, "u"))];
  }

  lemma MoveOnly(e: Entry)
    ensures MoveToEnd([e], e.key) == [e]
  {
    assert [e][1..] == [];
    assert Without([e], e.key) == [];
  }

  lemma FirstStore(z: Sizes, b: Identity)
    requires b.User? && z.user >= 1 && z.url >= 1
    ensures AfterStore(z, AfterLookup(z, Caches([], [], []), b, 0.0), b, "B", "u", 1.0)
            == Caches([], [Entry(TokenKey(b), Cached("B", Some(1.0)))], [Entry(ScopeKey(b), Cached("u", None))])
  {
    SetFirst(z.user, TokenKey(b), Cached("B", Some(1.0)));
    SetFirst(z.url, ScopeKey(b), Cached("u", None));
  }

  /** The same token key, another scope: the lookup misses, and the store replaces the token. */
  lemma SecondStore(z: Sizes, a: Identity, key: string, scope: string)
    requires a.User? && key == TokenKey(a) && scope != ScopeKey(a) && z.user >= 1 && z.url >= 2
    ensures var c := Caches([], [Entry(key, Cached("B", Some(1.0)))], [Entry(scope, Cached("u", None))]);
            && Hit(c, a, 0.0).None?
            && AfterStore(z, AfterLookup(z, c, a, 0.0), a, "A", "u", 1.0)
               == Caches([], [Entry(key, Cached("A", Some(1.0)))],
                         [Entry(scope, Cached("u", None)), Entry(ScopeKey(a), Cached("u", None))])
  {
    var token, url := Entry(key, Cached("B", Some(1.0))), Entry(scope, Cached("u", None));
    assert Lookup([url], ScopeKey(a)) == None;
    MoveOnly(token);
    SetSecond(z.user, token, key, Cached("A", Some(1.0)));
    SetSecond(z.url, url, ScopeKey(a), Cached("u", None));
  }

  /** Two calls one after the other, each a miss. */
  lemma TwoFetches(z: Sizes, s: State, token: string, other: string) returns (events: seq<Event>, t: State)
    requires |s.calls| == 3 && s.calls[0].pc == s.calls[1].pc == Begin
    requires Hit(s.caches, s.calls[0].id, 0.0).None?
    requires Hit(AfterStore(z, AfterLookup(z, s.caches, s.calls[0].id, 0.0), s.calls[0].id, token, "u", 1.0), s.calls[1].id, 0.0).None?
    ensures Run(z, s, events) == Some(t)
    ensures var x, y := s.calls[0].id, s.calls[1].id;
            && t.log == s.log + [Fetched(x, token, "u")] + [Fetched(y, other, "u")]
            && |t.calls| == 3 && t.calls[2] == s.calls[2]
            && var c := AfterStore(z, AfterLookup(z, s.caches, x, 0.0), x, token, "u", 1.0);
               t.caches == AfterStore(z, AfterLookup(z, c, y, 0.0), y, other, "u", 1.0)
  {
    var first, s1 := OneFetch(z, s, 0, token);
    assert s1.calls[1] == s.calls[1] && s1.calls[2] == s.calls[2];
    var second;
    second, t := OneFetch(z, s1, 1, other);
    RunConcat(z, s, first, second);
    events := first + second;
  }

  lemma {:induction false} RunConcat(z: Sizes, s: State, a: seq<Event>, b: seq<Event>)
    requires Run(z, s, a).Some?
    ensures Run(z, s, a + b) == Run(z, Run(z, s, a).value, b)
    decreases |a|
  {
    if a == [] {
      assert a + b == b;
    } else {
      assert (a + b)[1..] == a[1..] + b;
      RunConcat(z, Step(z, s, a[0]), a[1..], b);
    }
  }

  /** `b` was served, and `a` has stored over the key they share: `b` asking again is handed `a`'s token. */
  lemma HandedOver(z: Sizes, s: State, a: Identity, b: Identity) returns (t: State)
    requires b.User? && a != b && |s.calls| == 3 && s.calls[2] == Call(b, Begin)
    requires s.log == [Fetched(b, "B", "u"), Fetched(a, "A", "u")]
    requires s.caches.users == [Entry(TokenKey(b), Cached("A", Some(1.0)))]
    requires s.caches.urls != [] && s.caches.urls[0] == Entry(ScopeKey(b), Cached("u", None))
    ensures Run(z, s, [Event(2, LookedUp(0.0))] + []) == Some(t) && !Isolated(t)
  {
    var e := Event(2, LookedUp(0.0));
    assert Hit(s.caches, b, 0.0) == Some(("A", "u"));
    t := Step(z, s, e);
    RunOne(z, s, e, []);
    assert t.calls[2] == Call(b, Returned("A", "u"));
    assert !OwnAuth(t.log, b, "A", "u");
  }

  lemma SharedKeyScopes(a: Identity, b: Identity)
    requires a.User? && b.User? && a != b && TokenKey(a) == TokenKey(b)
    ensures ScopeKey(a) != ScopeKey(b)
  {
    SharedKeyTenants(a, b);
    ScopeKeysDiffer(a, b);
  }

  lemma StoredOver(z: Sizes, a: Identity, b: Identity, s: State) returns (events: seq<Event>, t: State)
    requires a.User? && b.User? && TokenKey(a) == TokenKey(b) && ScopeKey(a) != ScopeKey(b)
    requires z.user >= 1 && z.url >= 2
    requires s == State(Caches([], [], []), [Call(b, Begin), Call(a, Begin), Call(b, Begin)], [])
    ensures Run(z, s, events) == Some(t)
    ensures t.log == [Fetched(b, "B", "u"), Fetched(a, "A", "u")]
    ensures |t.calls| == 3 && t.calls[2] == Call(b, Begin)
    ensures t.caches.users == [Entry(TokenKey(b), Cached("A", Some(1.0)))]
    ensures t.caches.urls != [] && t.caches.urls[0] == Entry(ScopeKey(b), Cached("u", None))
  {
    FirstStore(z, b);
    SecondStore(z, a, TokenKey(b), ScopeKey(b));
    events, t := TwoFetches(z, s, "B", "A");
  }

  /** If two users share a key, a call for the second can return the first one's token. */
  lemma SharedKeyMixesTokens(z: Sizes, a: Identity, b: Identity)
    requires a.User? && b.User? && a != b && TokenKey(a) == TokenKey(b)
    requires z.user >= 1 && z.url >= 2
    ensures exists events :: var t := Run(z, Start([b, a, b]), events); t.Some? && !Isolated(t.value)
  {
    SharedKeyScopes(a, b);
    var s0 := Start([b, a, b]);
    assert s0.calls == [Call(b, Begin), Call(a, Begin), Call(b, Begin)];
    var events, s := StoredOver(z, a, b, s0);
    var t := HandedOver(z, s, a, b);
    RunConcat(z, s0, events, [Event(2, LookedUp(0.0))] + []);
  }

  ghost predicate AlwaysIsolated(z: Sizes, calls: seq<Identity>) {
    forall events :: Run(z, Start(calls), events).Some? ==> Isolated(Run(z, Start(calls), events).value)
  }

  ghost predicate CallsBy(ids: set<Identity>, calls: seq<Identity>) {
    forall i :: 0 <= i < |calls| ==> calls[i] in ids
  }

  /** With room for two URLs, isolation of every interleaving of calls by `ids` holds exactly if their keys are separate. */
  lemma RoomyIsolationExactly(z: Sizes, ids: set<Identity>)
    requires z.user >= 1 && z.url >= 2
    ensures Separate(ids) <==> forall calls :: CallsBy(ids, calls) ==> AlwaysIsolated(z, calls)
  {
    if Separate(ids) {
      forall calls, events | CallsBy(ids, calls) && Run(z, Start(calls), events).Some?
        ensures Isolated(Run(z, Start(calls), events).value)
      {
        SeparateKeysIsolate(z, ids, calls, events);
      }
    } else {
      var a, b :| a in ids && b in ids && a.User? && b.User? && TokenKey(a) == TokenKey(b) && a != b;
      SharedKeyMixesTokens(z, a, b);
      assert CallsBy(ids, [b, a, b]) && !AlwaysIsolated(z, [b, a, b]);
    }
  }
}
