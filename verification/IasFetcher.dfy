/**
  The IAS token fetcher of the ADM client with its in-process token cache, called
  sequentially: rotations of the service binding, cached client-credentials tokens, and
  uncached user-token exchanges.
*/
module IasFetcher {
  import opened Options

  const EXPIRY_BUFFER: int := 60
  const DEFAULT_EXPIRES_IN: int := 3600
  const CC_KEY: string := "cc"

  // ---------- The in-process cache ----------

  datatype Stored = Stored(token: string, expiresAt: real)

  function AfterGet(store: map<string, Stored>, key: string, now: real): map<string, Stored> {
    if key in store && now >= store[key].expiresAt then store - {key} else store
  }

  function GetAnswer(store: map<string, Stored>, key: string, now: real): Option<string> {
    if key in store && now < store[key].expiresAt then Some(store[key].token) else None
  }

  class InMemoryTokenCache {
    var store: map<string, Stored>

    constructor ()
      ensures store == map[]
    {
      store := map[];
    }

    method Get(key: string, now: real) returns (token: Option<string>)
      modifies this
      ensures store == AfterGet(old(store), key, now)
      ensures token == GetAnswer(old(store), key, now)
      ensures key in store <==> key in old(store) && now < old(store)[key].expiresAt
      ensures token == if key in store then Some(old(store)[key].token) else None
    {
      if key !in store {
        return None;
      }
      var entry := store[key];
      if now >= entry.expiresAt {
        store := store - {key};
        return None;
      }
      return Some(entry.token);
    }

    method Put(key: string, token: string, ttl: int, now: real)
      modifies this
      ensures store == old(store)[key := Stored(token, now + ttl as real)]
    {
      store := store[key := Stored(token, now + ttl as real)];
    }

    method Delete(key: string)
      modifies this
      ensures store == old(store) - {key}
    {
      if key in store {
        store := store - {key};
      }
    }
  }

  // ---------- The token endpoint ----------

  datatype Credentials = Credentials(iasUrl: string, clientId: string, clientSecret: string, resource: Option<string>)

  datatype ExpiresIn = Omitted | Whole(seconds: int) | Malformed

  /** An empty `access_token` stands for a missing one. */
  datatype Response = Unreachable | ErrorStatus | Body(accessToken: string, expiresIn: ExpiresIn)

  /** The stated lifetime of a usable response. */
  function Lifetime(r: Response): Option<int> {
    if !r.Body? || r.accessToken == "" then None
    else match r.expiresIn
         case Omitted => Some(DEFAULT_EXPIRES_IN)
         case Whole(n) => Some(n)
         case Malformed => None
  }

  function Ttl(lifetime: int): nat {
    if lifetime - EXPIRY_BUFFER > 0 then lifetime - EXPIRY_BUFFER else 0
  }

  /** A reload that raises surfaces as it is. */
  datatype Result = Token(token: string) | AuthError | ReloadError

  /** A token the endpoint granted for the cache: under which credentials, and until when. */
  datatype Grant = Grant(credentials: Credentials, token: string, lifetime: int, at: real)

  // ---------- Calls ----------

  /**
    Whether the binding has changed since the last look, and whether the new configuration could
    be read. The look itself records the change, so a change that could not be read is not seen again.
  */
  datatype Rotation = Unchanged | Reloaded(credentials: Credentials) | Unreadable

  datatype Call =
    | GetToken(rotation: Rotation, asked: real, response: Response, answered: real)
    | ExchangeToken(userJwt: string, response: Response)

  datatype State = State(credentials: Credentials, store: map<string, Stored>, grants: seq<Grant>)

  function Start(c: Credentials): State {
    State(c, map[], [])
  }

  function Refreshed(s: State, rotation: Rotation): State {
    match rotation
    case Reloaded(c) => s.(credentials := c, store := map[])
    case _ => s
  }

  function After(s: State, call: Call): (State, Result) {
    match call
    case GetToken(rotation, asked, response, answered) =>
      var s1 := Refreshed(s, rotation);
      var cached := GetAnswer(s1.store, CC_KEY, asked);
      var s2 := s1.(store := AfterGet(s1.store, CC_KEY, asked));
      if rotation.Unreadable? then (s, ReloadError)
      else if cached.Some? && cached.value != "" then (s2, Token(cached.value))
      else
        (match Lifetime(response)
         case None => (s2, AuthError)
         case Some(n) =>
           (s2.(store := s2.store[CC_KEY := Stored(response.accessToken, answered + Ttl(n) as real)],
                grants := s2.grants + [Grant(s2.credentials, response.accessToken, n, answered)]),
            Token(response.accessToken)))
    case ExchangeToken(_, response) =>
      (s, if Lifetime(response).Some? then Token(response.accessToken) else AuthError)
  }

  class IasTokenFetcher {
    var config: Credentials
    var cache: InMemoryTokenCache
    ghost var grants: seq<Grant>

    constructor (config: Credentials)
      ensures Contents() == Start(config) && fresh(cache)
    {
      this.config := config;
      this.cache := new InMemoryTokenCache();
      this.grants := [];
    }

    ghost function Contents(): State
      reads this, cache
    {
      State(config, cache.store, grants)
    }

    method RefreshIfRotated(rotation: Rotation) returns (raised: bool)
      modifies this
      ensures raised == rotation.Unreadable?
      ensures Contents() == Refreshed(old(Contents()), rotation)
      ensures if rotation.Reloaded? then fresh(cache) else cache == old(cache)
    {
      if rotation.Unreadable? {
        return true;
      }
      if rotation.Reloaded? {
        config := rotation.credentials;
        cache := new InMemoryTokenCache();
      }
      return false;
    }

    method Fetch(response: Response) returns (granted: Option<(string, nat)>)
      ensures granted == if Lifetime(response).Some? then Some((response.accessToken, Ttl(Lifetime(response).value))) else None
      ensures forall t, n :: response == Body(t, Whole(n)) && t != "" ==> granted == Some((t, if n > 60 then n - 60 else 0))
      ensures forall t :: response == Body(t, Omitted) && t != "" ==> granted == Some((t, 3540))
      ensures !response.Body? || response.accessToken == "" || response.expiresIn.Malformed? ==> granted == None
    {
      if !response.Body? || response.accessToken == "" || response.expiresIn.Malformed? {
        return None;
      }
      var expiresIn := if response.expiresIn.Omitted? then DEFAULT_EXPIRES_IN else response.expiresIn.seconds;
      return Some((response.accessToken, if expiresIn - EXPIRY_BUFFER > 0 then expiresIn - EXPIRY_BUFFER else 0));
    }

    method RequestToken(rotation: Rotation, asked: real, response: Response, answered: real) returns (result: Result)
      modifies this, cache
      ensures (Contents(), result) == After(old(Contents()), GetToken(rotation, asked, response, answered))
      ensures cache == old(cache) || fresh(cache)
      ensures result == ReloadError <==> rotation.Unreadable?
      ensures rotation.Unreadable? ==> Contents() == old(Contents())
      ensures result == AuthError ==> !response.Body? || response.accessToken == "" || response.expiresIn.Malformed?
    {
      var raised := RefreshIfRotated(rotation);
      if raised {
        return ReloadError;
      }
      var cached := cache.Get(CC_KEY, asked);
      if cached.Some? && cached.value != "" {
        return Token(cached.value);
      }
      var granted := Fetch(response);
      if granted.None? {
        return AuthError;
      }
      cache.Put(CC_KEY, granted.value.0, granted.value.1, answered);
      grants := grants + [Grant(config, granted.value.0, Lifetime(response).value, answered)];
      return Token(granted.value.0);
    }

    method Exchange(userJwt: string, response: Response) returns (result: Result)
      ensures (Contents(), result) == After(Contents(), ExchangeToken(userJwt, response))
      ensures result == if response.Body? && response.accessToken != "" && !response.expiresIn.Malformed?
                        then Token(response.accessToken) else AuthError
    {
      var granted := Fetch(response);
      return if granted.Some? then Token(granted.value.0) else AuthError;
    }
  }

  // ---------- Whole runs ----------

  function Run(s: State, calls: seq<Call>): State {
    if calls == [] then s else After(Run(s, calls[..|calls| - 1]), calls[|calls| - 1]).0
  }

  /** The monotonic clock readings of a run, none before an earlier one. */
  ghost predicate ClockMonotone(calls: seq<Call>) {
    && (forall i :: 0 <= i < |calls| && calls[i].GetToken? ==> calls[i].asked <= calls[i].answered)
    && (forall i, j :: 0 <= i < j < |calls| && calls[i].GetToken? && calls[j].GetToken? ==>
                         calls[i].answered <= calls[j].asked)
  }

  /** The cached token is a grant under the credentials in force, filed with its shortened lifetime. */
  ghost predicate CurrentGrant(s: State, g: Grant) {
    && CC_KEY in s.store && g in s.grants
    && g.credentials == s.credentials && g.token == s.store[CC_KEY].token
    && s.store[CC_KEY].expiresAt == g.at + Ttl(g.lifetime) as real
  }

  /** The call's answer is this token, with so many seconds as its stated lifetime: an hour where none is stated. */
  ghost predicate States(call: Call, token: string, seconds: int) {
    && call.GetToken? && token != ""
    && (call.response == Body(token, Whole(seconds)) || (call.response == Body(token, Omitted) && seconds == 3600))
  }

  /** The grant is what this call was answered. */
  ghost predicate GrantedBy(call: Call, g: Grant) {
    States(call, g.token, g.lifetime) && call.answered == g.at
  }

  ghost predicate Inv(s: State, calls: seq<Call>) {
    && (CC_KEY in s.store ==> s.store[CC_KEY].token != "" && exists g :: CurrentGrant(s, g))
    && (forall g :: g in s.grants ==> exists i :: 0 <= i < |calls| && GrantedBy(calls[i], g))
  }

  lemma AfterInv(s: State, calls: seq<Call>, call: Call)
    requires Inv(s, calls)
    ensures Inv(After(s, call).0, calls + [call])
  {
    var all := calls + [call];
    var t := After(s, call).0;
    assert forall i :: 0 <= i < |calls| ==> all[i] == calls[i];
    forall g | g in t.grants
      ensures exists i :: 0 <= i < |all| && GrantedBy(all[i], g)
    {
      if g in s.grants {
        var i :| 0 <= i < |calls| && GrantedBy(calls[i], g);
        assert GrantedBy(all[i], g);
      } else {
        assert GrantedBy(all[|calls|], g);
      }
    }
    if CC_KEY in t.store {
      if |t.grants| > |s.grants| {
        assert CurrentGrant(t, t.grants[|s.grants|]);
      } else {
        var g :| CurrentGrant(s, g);
        assert CurrentGrant(t, g);
      }
    }
  }

  lemma {:induction false} RunInv(c: Credentials, calls: seq<Call>)
    ensures Inv(Run(Start(c), calls), calls)
  {
    if calls != [] {
      var before := calls[..|calls| - 1];
      RunInv(c, before);
      AfterInv(Run(Start(c), before), before, calls[|calls| - 1]);
      assert before + [calls[|calls| - 1]] == calls;
    }
  }

  /** Whatever rotations came before, a returned token was granted under the credentials now applied. */
  lemma {:induction false} TokensMatchCredentials(c: Credentials, calls: seq<Call>, call: Call)
    requires call.GetToken? && After(Run(Start(c), calls), call).1.Token?
    ensures var (t, result) := After(Run(Start(c), calls), call);
            && result.token != ""
            && (exists g :: g in t.grants && g.credentials == t.credentials && g.token == result.token)
            && (call.rotation.Reloaded? ==> t.credentials == call.rotation.credentials)
  {
    RunInv(c, calls);
    var s := Run(Start(c), calls);
    var t := After(s, call).0;
    if |t.grants| > |s.grants| {
      assert t.grants[|s.grants|] in t.grants;
    } else {
      var g :| CurrentGrant(s, g);
      assert g in t.grants;
    }
  }

  /** A token served without a new grant was the answer to an earlier call, and has more than 60 seconds of the lifetime stated there left. */
  lemma CacheHitsHaveTimeLeft(c: Credentials, calls: seq<Call>, call: Call)
    requires call.GetToken? && ClockMonotone(calls + [call])
    requires var (t, result) := After(Run(Start(c), calls), call); result.Token? && t.grants == Run(Start(c), calls).grants
    ensures var (t, result) := After(Run(Start(c), calls), call);
            exists i, n :: 0 <= i < |calls| && States(calls[i], result.token, n) && calls[i].answered + n as real - call.asked > 60.0
  {
    RunInv(c, calls);
    var s := Run(Start(c), calls);
    var (t, result) := After(s, call);
    assert call.rotation.Unchanged?;
    var g :| CurrentGrant(s, g);
    var i :| 0 <= i < |calls| && GrantedBy(calls[i], g);
    var all := calls + [call];
    assert all[i] == calls[i] && all[|calls|] == call && all[i].answered <= all[|calls|].asked;
    assert States(calls[i], result.token, g.lifetime);
  }

  /** The other way round: a token just fetched is served to the next call exactly until 60 seconds before its stated lifetime ends. */
  lemma FetchedTokenServedExactly(s: State, first: Call, next: Call, seconds: int)
    requires first.GetToken? && !first.rotation.Unreadable? && After(s, first).0.grants != s.grants
    requires States(first, first.response.accessToken, seconds) && seconds >= 60
    requires next.GetToken? && next.rotation.Unchanged?
    ensures After(s, first).1 == Token(first.response.accessToken)
    ensures var (t, result) := After(After(s, first).0, next);
            t.grants == After(s, first).0.grants && result.Token?
            <==> next.asked < first.answered + seconds as real - 60.0
    ensures next.asked < first.answered + seconds as real - 60.0 ==>
              After(After(s, first).0, next).1 == Token(first.response.accessToken)
  {
  }

  /** The call that reloads after a rotation grants anew, or fails. */
  lemma RotationForgets(s: State, call: Call)
    requires call.GetToken? && call.rotation.Reloaded?
    ensures var (t, result) := After(s, call);
            && (result.Token? <==> Lifetime(call.response).Some?)
            && (result.Token? ==> |t.grants| == |s.grants| + 1 && t.grants[|s.grants|].token == result.token
                                  && t.store.Keys == {CC_KEY})
            && (result.AuthError? ==> t.store == map[])
  {
  }

  /** A cached token is one of the grants from number `base` on, under the credentials in force. */
  ghost predicate CachedSince(s: State, base: nat) {
    && base <= |s.grants|
    && (CC_KEY in s.store ==> exists k :: base <= k < |s.grants| && GrantIs(s, k, s.store[CC_KEY].token))
  }

  ghost predicate GrantIs(s: State, k: nat, token: string)
    requires k < |s.grants|
  {
    s.grants[k].token == token && s.grants[k].credentials == s.credentials
  }

  lemma AfterSince(s: State, base: nat, call: Call)
    requires CachedSince(s, base)
    ensures var (t, result) := After(s, call);
            && CachedSince(t, base) && |s.grants| <= |t.grants|
            && (call.GetToken? && result.Token? ==> NewlyGranted(t, base, result.token))
  {
    var (t, result) := After(s, call);
    if |t.grants| > |s.grants| {
      assert GrantIs(t, |s.grants|, t.grants[|s.grants|].token);
    } else if CC_KEY in t.store {
      var k :| base <= k < |s.grants| && GrantIs(s, k, s.store[CC_KEY].token);
      assert GrantIs(t, k, t.store[CC_KEY].token);
    }
  }

  lemma {:induction false} RunSince(s: State, base: nat, calls: seq<Call>)
    requires CachedSince(s, base)
    ensures CachedSince(Run(s, calls), base)
    decreases |calls|
  {
    if calls != [] {
      RunSince(s, base, calls[..|calls| - 1]);
      AfterSince(Run(s, calls[..|calls| - 1]), base, calls[|calls| - 1]);
    }
  }

  /** From a reload on, in every continuation, no token granted before it is returned again. */
  lemma RotationForgetsForGood(c: Credentials, before: seq<Call>, rotating: Call, later: seq<Call>, call: Call)
    requires rotating.GetToken? && rotating.rotation.Reloaded? && call.GetToken?
    requires After(Run(After(Run(Start(c), before), rotating).0, later), call).1.Token?
    ensures var base := |Run(Start(c), before).grants|;
            var (t, result) := After(Run(After(Run(Start(c), before), rotating).0, later), call);
            NewlyGranted(t, base, result.token)
  {
    var s := Run(Start(c), before);
    AfterReload(s, |s.grants|, rotating);
    NewInContinuation(After(s, rotating).0, |s.grants|, later, call);
  }

  // ---------- When an old token comes back ----------

  /** The token is one of the grants from number `base` on, under the credentials in force. */
  ghost predicate NewlyGranted(s: State, base: nat, token: string) {
    exists k :: base <= k < |s.grants| && GrantIs(s, k, token)
  }

  lemma AfterReload(s: State, base: nat, rotating: Call)
    requires base <= |s.grants| && rotating.GetToken? && rotating.rotation.Reloaded?
    ensures var (t, result) := After(s, rotating);
            CachedSince(t, base) && (result.Token? ==> NewlyGranted(t, base, result.token))
  {
    AfterSince(Refreshed(s, rotating.rotation), base, rotating.(rotation := Unchanged));
  }

  lemma NewInContinuation(s: State, base: nat, later: seq<Call>, call: Call)
    requires CachedSince(s, base) && call.GetToken? && After(Run(s, later), call).1.Token?
    ensures var (t, result) := After(Run(s, later), call); NewlyGranted(t, base, result.token)
  {
    RunSince(s, base, later);
    AfterSince(Run(s, later), base, call);
  }

  /** The cached token is a new grant, or its time is up at `since`. */
  ghost predicate OldIsDead(s: State, base: nat, since: real) {
    && base <= |s.grants|
    && (CC_KEY in s.store ==> NewlyGranted(s, base, s.store[CC_KEY].token) || s.store[CC_KEY].expiresAt <= since)
  }

  lemma AfterDead(s: State, base: nat, since: real, call: Call)
    requires OldIsDead(s, base, since) && (call.GetToken? ==> since <= call.asked)
    ensures var (t, result) := After(s, call);
            && OldIsDead(t, base, since)
            && (call.GetToken? && result.Token? ==> NewlyGranted(t, base, result.token))
  {
    var (t, result) := After(s, call);
    if |t.grants| > |s.grants| {
      assert GrantIs(t, |s.grants|, t.grants[|s.grants|].token);
    } else if CC_KEY in t.store && NewlyGranted(s, base, s.store[CC_KEY].token) {
      var k :| base <= k < |s.grants| && GrantIs(s, k, s.store[CC_KEY].token);
      assert GrantIs(t, k, t.store[CC_KEY].token);
    }
  }

  lemma {:induction false} RunDead(s: State, base: nat, since: real, calls: seq<Call>)
    requires OldIsDead(s, base, since)
    requires forall i :: 0 <= i < |calls| && calls[i].GetToken? ==> since <= calls[i].asked
    ensures OldIsDead(Run(s, calls), base, since)
    decreases |calls|
  {
    if calls != [] {
      RunDead(s, base, since, calls[..|calls| - 1]);
      AfterDead(Run(s, calls[..|calls| - 1]), base, since, calls[|calls| - 1]);
    }
  }

  /**
    After a call that saw the binding changed, whatever follows, with a clock that never goes
    back: no token is returned but those granted from that call on.
  */
  ghost predicate NeverOld(s: State, rotating: Call) {
    forall later: seq<Call>, call: Call ::
      (ClockMonotone([rotating] + later + [call]) && call.GetToken?
       && After(Run(After(s, rotating).0, later), call).1.Token?) ==>
        var (t, result) := After(Run(After(s, rotating).0, later), call);
        NewlyGranted(t, |s.grants|, result.token)
  }

  /** A reload that raised leaves a token that still has time to be served to the next call. */
  lemma OldTokenServed(s: State, rotating: Call) returns (call: Call)
    requires rotating.GetToken? && rotating.rotation.Unreadable? && rotating.asked <= rotating.answered
    requires GetAnswer(s.store, CC_KEY, rotating.answered).Some? && s.store[CC_KEY].token != ""
    ensures call.GetToken? && ClockMonotone([rotating] + [] + [call])
    ensures After(After(s, rotating).0, call) == (s, Token(s.store[CC_KEY].token))
  {
    call := GetToken(Unchanged, rotating.answered, Unreachable, rotating.answered);
  }

  /**
    An old token can come back exactly if the reload raised while the cached token still had
    time. So one that does was cached before, and no reload has succeeded since.
  */
  lemma NeverOldExactly(c: Credentials, before: seq<Call>, rotating: Call)
    requires rotating.GetToken? && !rotating.rotation.Unchanged? && rotating.asked <= rotating.answered
    ensures var s := Run(Start(c), before);
            NeverOld(s, rotating) <==> rotating.rotation.Reloaded? || GetAnswer(s.store, CC_KEY, rotating.answered).None?
  {
    var s := Run(Start(c), before);
    RunInv(c, before);
    if rotating.rotation.Reloaded? {
      ReloadNeverOld(s, rotating);
    } else if GetAnswer(s.store, CC_KEY, rotating.answered).None? {
      DeadNeverOld(s, rotating);
    } else {
      var call := OldTokenServed(s, rotating);
      assert Run(After(s, rotating).0, []) == s;
    }
  }

  lemma ReloadNeverOld(s: State, rotating: Call)
    requires rotating.GetToken? && rotating.rotation.Reloaded?
    ensures NeverOld(s, rotating)
  {
    AfterReload(s, |s.grants|, rotating);
    forall later: seq<Call>, call: Call | call.GetToken? && After(Run(After(s, rotating).0, later), call).1.Token?
      ensures var (t, result) := After(Run(After(s, rotating).0, later), call); NewlyGranted(t, |s.grants|, result.token)
    {
      NewInContinuation(After(s, rotating).0, |s.grants|, later, call);
    }
  }

  lemma DeadNeverOld(s: State, rotating: Call)
    requires rotating.GetToken? && rotating.rotation.Unreadable? && GetAnswer(s.store, CC_KEY, rotating.answered).None?
    ensures NeverOld(s, rotating)
  {
    forall later: seq<Call>, call: Call | ClockMonotone([rotating] + later + [call]) && call.GetToken? && After(Run(s, later), call).1.Token?
      ensures var (t, result) := After(Run(s, later), call); NewlyGranted(t, |s.grants|, result.token)
    {
      AskedLater(rotating, later, call);
      RunDead(s, |s.grants|, rotating.answered, later);
      AfterDead(Run(s, later), |s.grants|, rotating.answered, call);
    }
  }

  lemma AskedLater(rotating: Call, later: seq<Call>, call: Call)
    requires rotating.GetToken? && ClockMonotone([rotating] + later + [call])
    ensures forall i :: 0 <= i < |later| && later[i].GetToken? ==> rotating.answered <= later[i].asked
    ensures call.GetToken? ==> rotating.answered <= call.asked
  {
    var all := [rotating] + later + [call];
    assert all[0] == rotating && all[|later| + 1] == call;
    assert forall i :: 0 <= i < |later| ==> all[i + 1] == later[i];
  }

  /** In a run: an old token returned after a change was cached before it, and no reload has succeeded since. */
  lemma OldTokenMeans(c: Credentials, before: seq<Call>, rotating: Call, later: seq<Call>, call: Call)
    requires rotating.GetToken? && !rotating.rotation.Unchanged? && call.GetToken?
    requires var s := Run(Start(c), before);
             var (t, result) := After(Run(After(s, rotating).0, later), call);
             result.Token? && !NewlyGranted(t, |s.grants|, result.token)
    ensures rotating.rotation.Unreadable? && !call.rotation.Reloaded?
    ensures forall i :: 0 <= i < |later| && later[i].GetToken? ==> !later[i].rotation.Reloaded?
  {
    var s := Run(Start(c), before);
    var s1 := After(s, rotating).0;
    GrantsGrow(s, rotating);
    if rotating.rotation.Reloaded? {
      AfterReload(s, |s.grants|, rotating);
      NewInContinuation(s1, |s.grants|, later, call);
    }
    RunGrantsGrow(s1, later);
    if call.rotation.Reloaded? {
      AfterReload(Run(s1, later), |s.grants|, call);
    }
    forall i | 0 <= i < |later| && later[i].GetToken?
      ensures !later[i].rotation.Reloaded?
    {
      if later[i].rotation.Reloaded? {
        NewAfterReload(s1, |s.grants|, later, i, call);
      }
    }
  }

  lemma GrantsGrow(s: State, call: Call)
    ensures |s.grants| <= |After(s, call).0.grants|
  {
  }

  lemma {:induction false} RunGrantsGrow(s: State, calls: seq<Call>)
    ensures |s.grants| <= |Run(s, calls).grants|
    decreases |calls|
  {
    if calls != [] {
      RunGrantsGrow(s, calls[..|calls| - 1]);
      GrantsGrow(Run(s, calls[..|calls| - 1]), calls[|calls| - 1]);
    }
  }

  /** A reload anywhere in a continuation leaves only new tokens to what follows it. */
  lemma NewAfterReload(s: State, base: nat, later: seq<Call>, i: nat, call: Call)
    requires base <= |s.grants| && i < |later| && later[i].GetToken? && later[i].rotation.Reloaded?
    requires call.GetToken? && After(Run(s, later), call).1.Token?
    ensures var (t, result) := After(Run(s, later), call); NewlyGranted(t, base, result.token)
  {
    var front, back := later[..i], later[i + 1..];
    RunGrantsGrow(s, front);
    AfterReload(Run(s, front), base, later[i]);
    var reloaded := After(Run(s, front), later[i]).0;
    assert (front + [later[i]])[..i] == front;
    assert Run(s, front + [later[i]]) == reloaded;
    RunSplit(s, front + [later[i]], back);
    assert front + [later[i]] + back == later;
    NewInContinuation(reloaded, base, back, call);
  }

  lemma {:induction false} RunSplit(s: State, a: seq<Call>, b: seq<Call>)
    ensures Run(s, a + b) == Run(Run(s, a), b)
    decreases |b|
  {
    if b == [] {
      assert a + b == a;
    } else {
      RunSplit(s, a, b[..|b| - 1]);
      assert (a + b)[..|a + b| - 1] == a + b[..|b| - 1];
    }
  }
}
