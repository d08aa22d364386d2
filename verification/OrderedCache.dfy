/**
  The bounded caches of the agent gateway client: an ordered dictionary whose first entry
  is the least recently used one. Tokens carry a deadline on the monotonic clock; gateway
  URLs carry none. One language of operations covers both caches.
*/
module OrderedCache {
  import opened Options

  datatype Cached = Cached(text: string, deadline: Option<real>)

  datatype Entry = Entry(key: string, cached: Cached)

  predicate Live(c: Cached, now: real) {
    c.deadline.Some? ==> now < c.deadline.value
  }

  // ---------- The ordered dictionary ----------

  function Lookup(es: seq<Entry>, key: string): Option<Cached> {
    if es == [] then None
    else if es[0].key == key then Some(es[0].cached)
    else Lookup(es[1..], key)
  }

  function Without(es: seq<Entry>, key: string): seq<Entry> {
    if es == [] then []
    else (if es[0].key == key then [] else [es[0]]) + Without(es[1..], key)
  }

  /** Item assignment: an existing key keeps its place, a new one goes to the end. */
  function Assign(es: seq<Entry>, key: string, c: Cached): seq<Entry> {
    if es == [] then [Entry(key, c)]
    else if es[0].key == key then [Entry(key, c)] + es[1..]
    else [es[0]] + Assign(es[1..], key, c)
  }

  function MoveToEnd(es: seq<Entry>, key: string): seq<Entry> {
    match Lookup(es, key)
    case None => es
    case Some(c) => Without(es, key) + [Entry(key, c)]
  }

  /** What is left after the oldest entries are popped down to `bound`. */
  function Trim(bound: nat, es: seq<Entry>): seq<Entry> {
    if |es| > bound then es[|es| - bound..] else es
  }

  ghost predicate Unique(es: seq<Entry>) {
    forall i, j :: 0 <= i < j < |es| ==> es[i].key != es[j].key
  }

  // ---------- Operations ----------

  datatype Op =
    | Get(key: string, now: real)
    | Set(key: string, cached: Cached)
    | Invalidate(key: string)
    | Clear

  function Apply(bound: nat, es: seq<Entry>, op: Op): seq<Entry> {
    match op
    case Get(key, now) =>
      (match Lookup(es, key)
       case None => es
       case Some(c) => if Live(c, now) then MoveToEnd(es, key) else Without(es, key))
    case Set(key, c) => Trim(bound, MoveToEnd(Assign(es, key, c), key))
    case Invalidate(key) => Without(es, key)
    case Clear => []
  }

  function Answer(es: seq<Entry>, key: string, now: real): Option<string> {
    match Lookup(es, key)
    case None => None
    case Some(c) => if Live(c, now) then Some(c.text) else None
  }

  /** The dictionary after a trace, starting empty. */
  function Run(bound: nat, trace: seq<Op>): seq<Entry> {
    if trace == [] then [] else Apply(bound, Run(bound, trace[..|trace| - 1]), trace[|trace| - 1])
  }

  // ---------- Facts about the dictionary ----------

  lemma {:induction false} LookupHasKey(es: seq<Entry>, key: string)
    ensures Lookup(es, key).Some? <==> exists i :: 0 <= i < |es| && es[i].key == key
    ensures Lookup(es, key).Some? ==> Entry(key, Lookup(es, key).value) in es
  {
    if es != [] {
      LookupHasKey(es[1..], key);
      if es[0].key != key && Lookup(es[1..], key).None? {
        forall i | 0 <= i < |es|
          ensures es[i].key != key
        {
          assert i == 0 || es[i] == es[1..][i - 1];
        }
      }
    }
  }

  lemma {:induction false} WithoutFacts(es: seq<Entry>, key: string)
    ensures forall e :: e in Without(es, key) <==> e in es && e.key != key
    ensures Unique(es) ==> Unique(Without(es, key))
    ensures Unique(es) ==> |Without(es, key)| == |es| - if Lookup(es, key).Some? then 1 else 0
  {
    if es != [] {
      WithoutFacts(es[1..], key);
      LookupHasKey(es[1..], key);
      if Unique(es) {
        assert forall i :: 0 <= i < |es[1..]| ==> es[1..][i] == es[i + 1];
        assert Unique(es[1..]);
        forall e | e in Without(es[1..], key)
          ensures e.key != es[0].key
        {
          var i :| 0 <= i < |es[1..]| && es[1..][i] == e;
        }
      }
    }
  }

  lemma {:induction false} WithoutLookup(es: seq<Entry>, key: string, other: string)
    ensures Lookup(Without(es, key), other) == if other == key then None else Lookup(es, other)
  {
    if es != [] {
      WithoutLookup(es[1..], key, other);
      if es[0].key != key {
        assert Without(es, key)[1..] == Without(es[1..], key);
      } else {
        assert Without(es, key) == Without(es[1..], key);
      }
    }
  }

  lemma {:induction false} LookupAppend(es: seq<Entry>, e: Entry, key: string)
    ensures Lookup(es + [e], key) == if Lookup(es, key).Some? then Lookup(es, key)
                                     else if e.key == key then Some(e.cached) else None
  {
    if es != [] {
      assert (es + [e])[1..] == es[1..] + [e];
      LookupAppend(es[1..], e, key);
    }
  }

  lemma {:induction false} UniqueLookup(es: seq<Entry>, i: nat)
    requires Unique(es) && i < |es|
    ensures Lookup(es, es[i].key) == Some(es[i].cached)
  {
    if i > 0 {
      assert Unique(es[1..]);
      UniqueLookup(es[1..], i - 1);
    }
  }

  /** What a lookup answers: an entry's text as long as its deadline, if it has one, is still ahead; nothing without an entry. */
  lemma AnswerExactly(es: seq<Entry>, key: string, now: real)
    requires Unique(es)
    ensures forall e :: e in es && e.key == key ==>
              Answer(es, key, now) == if e.cached.deadline.None? || now < e.cached.deadline.value then Some(e.cached.text) else None
    ensures (forall e :: e in es ==> e.key != key) ==> Answer(es, key, now) == None
  {
    LookupHasKey(es, key);
    forall e | e in es && e.key == key
      ensures Lookup(es, key) == Some(e.cached)
    {
      var i :| 0 <= i < |es| && es[i] == e;
      UniqueLookup(es, i);
    }
    if forall e :: e in es ==> e.key != key {
      assert forall i :: 0 <= i < |es| ==> es[i].key != key;
    }
  }

  /** Setting a key: whatever it held goes, and the new entry is the most recent. */
  lemma {:induction false} AssignMoves(es: seq<Entry>, key: string, c: Cached)
    requires Unique(es)
    ensures MoveToEnd(Assign(es, key, c), key) == Without(es, key) + [Entry(key, c)]
  {
    AssignFacts(es, key, c);
  }

  lemma {:induction false} AssignFacts(es: seq<Entry>, key: string, c: Cached)
    requires Unique(es)
    ensures Lookup(Assign(es, key, c), key) == Some(c)
    ensures Without(Assign(es, key, c), key) == Without(es, key)
  {
    if es != [] {
      assert Unique(es[1..]);
      if es[0].key == key {
        assert Assign(es, key, c)[1..] == es[1..];
      } else {
        AssignFacts(es[1..], key, c);
        assert Assign(es, key, c)[1..] == Assign(es[1..], key, c);
      }
    }
  }

  /** `key` put at the end: still unique, at most one entry more. */
  lemma PutLast(es: seq<Entry>, key: string, c: Cached)
    requires Unique(es)
    ensures Unique(Without(es, key) + [Entry(key, c)])
    ensures |Without(es, key) + [Entry(key, c)]| == if Lookup(es, key).Some? then |es| else |es| + 1
  {
    WithoutFacts(es, key);
    assert forall e :: e in Without(es, key) ==> e.key != key;
  }

  lemma TrimKeepsBound(bound: nat, es: seq<Entry>)
    requires Unique(es)
    ensures Unique(Trim(bound, es)) && |Trim(bound, es)| <= bound
  {
  }

  /** The dictionary never holds a key twice and never exceeds its bound. */
  lemma ApplyKeepsBound(bound: nat, es: seq<Entry>, op: Op)
    requires Unique(es) && |es| <= bound
    ensures Unique(Apply(bound, es, op)) && |Apply(bound, es, op)| <= bound
  {
    match op
    case Get(key, _) =>
      WithoutFacts(es, key);
      if Lookup(es, key).Some? {
        PutLast(es, key, Lookup(es, key).value);
      }
    case Set(key, c) =>
      AssignMoves(es, key, c);
      PutLast(es, key, c);
      TrimKeepsBound(bound, Without(es, key) + [Entry(key, c)]);
    case Invalidate(key) => WithoutFacts(es, key);
    case Clear =>
  }

  lemma {:induction false} RunBounded(bound: nat, trace: seq<Op>)
    ensures Unique(Run(bound, trace)) && |Run(bound, trace)| <= bound
  {
    if trace != [] {
      RunBounded(bound, trace[..|trace| - 1]);
      ApplyKeepsBound(bound, Run(bound, trace[..|trace| - 1]), trace[|trace| - 1]);
    }
  }

  /** What the dictionary holds after an operation was there before, or is what was just set. */
  lemma ApplyAdds(bound: nat, es: seq<Entry>, op: Op, e: Entry)
    requires Unique(es) && e in Apply(bound, es, op)
    ensures e in es || (op.Set? && e == Entry(op.key, op.cached))
  {
    if !op.Clear? {
      WithoutFacts(es, op.key);
      LookupHasKey(es, op.key);
    }
    if op.Set? {
      AssignMoves(es, op.key, op.cached);
    }
  }

  lemma KeepsNoDeadline(bound: nat, es: seq<Entry>, op: Op)
    requires Unique(es) && |es| <= bound
    requires forall e :: e in es ==> e.cached.deadline.None?
    requires op.Set? ==> op.cached.deadline.None?
    ensures forall e :: e in Apply(bound, es, op) ==> e.cached.deadline.None?
    ensures Unique(Apply(bound, es, op)) && |Apply(bound, es, op)| <= bound
  {
    ApplyKeepsBound(bound, es, op);
    forall e | e in Apply(bound, es, op)
      ensures e.cached.deadline.None?
    {
      ApplyAdds(bound, es, op, e);
    }
  }

  // ---------- The caches as the client holds them ----------

  /** The eviction loop of the three setters. */
  method PopOldest(bound: nat, es: seq<Entry>) returns (kept: seq<Entry>)
    ensures kept == Trim(bound, es)
  {
    kept := es;
    while |kept| > bound
      invariant |kept| <= |es| && kept == es[|es| - |kept|..]
      invariant |es| > bound ==> |kept| >= bound
      invariant |es| <= bound ==> kept == es
    {
      kept := kept[1..];
    }
  }

  class GatewayUrlCache {
    const maxSize: nat
    var cache: seq<Entry>

    /** One entry a key, bounded, and URLs never expire. */
    ghost predicate Valid()
      reads this
    {
      Unique(cache) && |cache| <= maxSize && forall e :: e in cache ==> e.cached.deadline.None?
    }

    constructor (maxSize: nat)
      ensures this.maxSize == maxSize && cache == [] && Valid()
    {
      this.maxSize := maxSize;
      cache := [];
    }

    method Get(scopeKey: string, ghost now: real) returns (url: Option<string>)
      requires Valid()
      modifies this
      ensures Valid()
      ensures cache == Apply(maxSize, old(cache), Op.Get(scopeKey, now))
      ensures url == Answer(old(cache), scopeKey, now)
      ensures forall e :: e in old(cache) && e.key == scopeKey ==> url == Some(e.cached.text)
      ensures (forall e :: e in old(cache) ==> e.key != scopeKey) ==> url == None
    {
      AnswerExactly(cache, scopeKey, now);
      LookupHasKey(cache, scopeKey);
      KeepsNoDeadline(maxSize, cache, Op.Get(scopeKey, now));
      var value := Lookup(cache, scopeKey);
      if value.None? {
        return None;
      }
      cache := MoveToEnd(cache, scopeKey);
      return Some(value.value.text);
    }

    method Put(scopeKey: string, url: string)
      requires Valid()
      modifies this
      ensures Valid()
      ensures cache == Apply(maxSize, old(cache), Set(scopeKey, Cached(url, None)))
    {
      KeepsNoDeadline(maxSize, cache, Set(scopeKey, Cached(url, None)));
      cache := Assign(cache, scopeKey, Cached(url, None));
      cache := MoveToEnd(cache, scopeKey);
      cache := PopOldest(maxSize, cache);
    }
  }

  class TokenCache {
    const maxSystem: nat
    const maxUser: nat
    var systemTokens: seq<Entry>
    var userTokens: seq<Entry>

    ghost predicate Valid()
      reads this
    {
      && Unique(systemTokens) && |systemTokens| <= maxSystem
      && Unique(userTokens) && |userTokens| <= maxUser
    }

    constructor (maxSystem: nat, maxUser: nat)
      ensures Valid()
      ensures this.maxSystem == maxSystem && this.maxUser == maxUser
      ensures systemTokens == [] && userTokens == []
    {
      this.maxSystem, this.maxUser := maxSystem, maxUser;
      systemTokens, userTokens := [], [];
    }

    method GetSystemToken(scopeKey: string, now: real) returns (token: Option<string>)
      requires Valid()
      modifies this`systemTokens
      ensures Valid()
      ensures systemTokens == Apply(maxSystem, old(systemTokens), Get(scopeKey, now))
      ensures token == Answer(old(systemTokens), scopeKey, now)
      ensures forall e :: e in old(systemTokens) && e.key == scopeKey ==>
                token == if e.cached.deadline.None? || now < e.cached.deadline.value then Some(e.cached.text) else None
      ensures (forall e :: e in old(systemTokens) ==> e.key != scopeKey) ==> token == None
    {
      AnswerExactly(systemTokens, scopeKey, now);
      ApplyKeepsBound(maxSystem, systemTokens, Get(scopeKey, now));
      var cached := Lookup(systemTokens, scopeKey);
      if cached.Some? && Live(cached.value, now) {
        systemTokens := MoveToEnd(systemTokens, scopeKey);
        return Some(cached.value.text);
      }
      if cached.Some? {
        systemTokens := Without(systemTokens, scopeKey);
      }
      return None;
    }

    method SetSystemToken(token: string, expiresAt: real, scopeKey: string)
      requires Valid()
      modifies this`systemTokens
      ensures Valid()
      ensures systemTokens == Apply(maxSystem, old(systemTokens), Set(scopeKey, Cached(token, Some(expiresAt))))
    {
      ApplyKeepsBound(maxSystem, systemTokens, Set(scopeKey, Cached(token, Some(expiresAt))));
      systemTokens := Assign(systemTokens, scopeKey, Cached(token, Some(expiresAt)));
      systemTokens := MoveToEnd(systemTokens, scopeKey);
      systemTokens := PopOldest(maxSystem, systemTokens);
    }

    method InvalidateSystemToken(scopeKey: string)
      requires Valid()
      modifies this`systemTokens
      ensures Valid()
      ensures systemTokens == Apply(maxSystem, old(systemTokens), Invalidate(scopeKey))
    {
      ApplyKeepsBound(maxSystem, systemTokens, Invalidate(scopeKey));
      systemTokens := Without(systemTokens, scopeKey);
    }

    /** `key` is the hash of the user JWT and the scope key. */
    method GetUserToken(key: string, now: real) returns (token: Option<string>)
      requires Valid()
      modifies this`userTokens
      ensures Valid()
      ensures userTokens == Apply(maxUser, old(userTokens), Get(key, now))
      ensures token == Answer(old(userTokens), key, now)
      ensures forall e :: e in old(userTokens) && e.key == key ==>
                token == if e.cached.deadline.None? || now < e.cached.deadline.value then Some(e.cached.text) else None
      ensures (forall e :: e in old(userTokens) ==> e.key != key) ==> token == None
    {
      AnswerExactly(userTokens, key, now);
      ApplyKeepsBound(maxUser, userTokens, Get(key, now));
      var cached := Lookup(userTokens, key);
      if cached.Some? && Live(cached.value, now) {
        userTokens := MoveToEnd(userTokens, key);
        return Some(cached.value.text);
      }
      if cached.Some? {
        userTokens := Without(userTokens, key);
      }
      return None;
    }

    method SetUserToken(key: string, token: string, expiresAt: real)
      requires Valid()
      modifies this`userTokens
      ensures Valid()
      ensures userTokens == Apply(maxUser, old(userTokens), Set(key, Cached(token, Some(expiresAt))))
    {
      ApplyKeepsBound(maxUser, userTokens, Set(key, Cached(token, Some(expiresAt))));
      userTokens := Assign(userTokens, key, Cached(token, Some(expiresAt)));
      userTokens := MoveToEnd(userTokens, key);
      userTokens := PopOldest(maxUser, userTokens);
    }

    method InvalidateUserToken(key: string)
      requires Valid()
      modifies this`userTokens
      ensures Valid()
      ensures userTokens == Apply(maxUser, old(userTokens), Invalidate(key))
    {
      ApplyKeepsBound(maxUser, userTokens, Invalidate(key));
      userTokens := Without(userTokens, key);
    }

    method ClearAll()
      modifies this
      ensures Valid()
      ensures systemTokens == Apply(maxSystem, old(systemTokens), Clear)
      ensures userTokens == Apply(maxUser, old(userTokens), Clear)
    {
      systemTokens := [];
      userTokens := [];
    }
  }
}
