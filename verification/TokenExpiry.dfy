/**
  How long a cached token is served: the deadline computed from a token response, and the
  margin every later cache hit keeps from the expiry that response stated.
*/
module TokenExpiry {
  import opened Options
  import opened OrderedCache
  import opened CacheLaws

  // ---------- Token responses ----------

  /** A JSON value where a time is expected; for a text, what `float` and `fromisoformat` make of it. */
  datatype TimeField =
    | Absent
    | Flag(set_: bool)
    | Number(value: real)
    | Text(number: Option<real>, iso: Option<real>)
    | Other

  /** `accessExp` and `idExp` are the `exp` claims of the two tokens, where there is one to be read. */
  datatype TokenData = TokenData(expiresAt: TimeField, expiresIn: TimeField, accessExp: Option<int>, idExp: Option<int>)

  datatype ClientConfig = ClientConfig(fallbackTtl: real, buffer: real)

  function ParseExpiresAt(f: TimeField): Option<real> {
    match f
    case Number(v) => Some(v)
    case Text(n, iso) => if n.Some? then n else iso
    case _ => None
  }

  /** `float(expires_in)`, unless it raises. */
  function ParseExpiresIn(f: TimeField): Option<real> {
    match f
    case Number(v) => Some(v)
    case Flag(b) => Some(if b then 1.0 else 0.0)
    case Text(n, _) => n
    case _ => None
  }

  function EpochDeadline(epoch: real, buffer: real, mono: real, wall: real): real {
    mono + (epoch - wall) - buffer
  }

  // ---------- What a response states ----------

  /** An expiry stated as a wall-clock instant, as a lifetime from now, or not at all. */
  datatype Basis = Instant(epoch: real) | Lifetime(seconds: real) | Fallback

  /** The sources in the documented order. */
  function Candidates(data: TokenData): seq<Option<Basis>> {
    [ match ParseExpiresAt(data.expiresAt) case Some(e) => Some(Instant(e)) case None => None,
      match ParseExpiresIn(data.expiresIn) case Some(s) => Some(Lifetime(s)) case None => None,
      match data.accessExp case Some(e) => Some(Instant(e as real)) case None => None,
      match data.idExp case Some(e) => Some(Instant(e as real)) case None => None ]
  }

  function FirstOf(candidates: seq<Option<Basis>>): Basis {
    if candidates == [] then Fallback
    else if candidates[0].Some? then candidates[0].value
    else FirstOf(candidates[1..])
  }

  function BasisOf(data: TokenData): Basis {
    FirstOf(Candidates(data))
  }

  /** Of a bearer header only the JWT's own `exp` is asked. */
  function BasisOfBearer(exp: Option<int>): Basis {
    if exp.Some? then Instant(exp.value as real) else Fallback
  }

  /** What a response states, and the clocks when it was stored: the monotonic one is read first. */
  datatype Receipt = Receipt(basis: Basis, mono: real, wall: real)

  function DeadlineOf(r: Receipt, config: ClientConfig): real {
    match r.basis
    case Instant(e) => EpochDeadline(e, config.buffer, r.mono, r.wall)
    case Lifetime(s) => r.mono + s - config.buffer
    case Fallback => r.mono + config.fallbackTtl
  }

  /**
    With a wall clock `offset` ahead of the monotonic one: at monotonic time `now` more than the
    buffer is left of the stated expiry; without one, the fallback has not run out.
  */
  ghost predicate SafeAt(r: Receipt, config: ClientConfig, offset: real, now: real) {
    match r.basis
    case Instant(e) => now + offset < e - config.buffer
    case Lifetime(s) => now < r.mono + s - config.buffer
    case Fallback => now - r.mono < config.fallbackTtl
  }

  /** Before the deadline it is safe; and where both clocks are read at once, only before it. */
  ghost predicate Keeps(deadline: real, r: Receipt, config: ClientConfig) {
    && (forall offset, now :: r.mono + offset <= r.wall && now < deadline ==> SafeAt(r, config, offset, now))
    && (forall offset, now :: r.mono + offset == r.wall && SafeAt(r, config, offset, now) ==> now < deadline)
  }

  /**
    The margin told from the response itself: more than the buffer is left of `expires_at`, a
    number or a text that reads as a number or else as a date; where that is unusable, of
    `expires_in`; then of the access token's and of the ID token's `exp`; where nothing is
    stated, the fallback has not run out. The response was stored at monotonic time `mono`.
  */
  ghost predicate MarginLeft(data: TokenData, mono: real, config: ClientConfig, offset: real, now: real) {
    match data.expiresAt
    case Number(v) => now + offset < v - config.buffer
    case Text(Some(v), _) => now + offset < v - config.buffer
    case Text(None, Some(v)) => now + offset < v - config.buffer
    case _ => LifetimeLeft(data, mono, config, offset, now)
  }

  ghost predicate LifetimeLeft(data: TokenData, mono: real, config: ClientConfig, offset: real, now: real) {
    match data.expiresIn
    case Number(s) => now - mono < s - config.buffer
    case Text(Some(s), _) => now - mono < s - config.buffer
    case Flag(true) => now - mono < 1.0 - config.buffer
    case Flag(false) => now - mono < 0.0 - config.buffer
    case _ => BearerMarginLeft(if data.accessExp.Some? then data.accessExp else data.idExp, mono, config, offset, now)
  }

  ghost predicate BearerMarginLeft(exp: Option<int>, mono: real, config: ClientConfig, offset: real, now: real) {
    match exp
    case Some(e) => now + offset < e as real - config.buffer
    case None => now - mono < config.fallbackTtl
  }

  lemma MarginIsSafe(data: TokenData, mono: real, wall: real, config: ClientConfig, offset: real, now: real)
    ensures MarginLeft(data, mono, config, offset, now) <==> SafeAt(Receipt(BasisOf(data), mono, wall), config, offset, now)
  {
    var candidates := Candidates(data);
    if candidates[0].Some? {
      FirstUsable(candidates, 0);
    } else if candidates[1].Some? {
      FirstUsable(candidates, 1);
    } else if candidates[2].Some? {
      FirstUsable(candidates, 2);
    } else if candidates[3].Some? {
      FirstUsable(candidates, 3);
    } else {
      FirstUsable(candidates, 4);
    }
  }

  // ---------- Deadlines ----------

  lemma {:induction false} FirstUsable(candidates: seq<Option<Basis>>, i: nat)
    requires i <= |candidates| && forall j :: 0 <= j < i ==> candidates[j].None?
    ensures FirstOf(candidates) == if i == |candidates| then Fallback
                                   else if candidates[i].Some? then candidates[i].value
                                   else FirstOf(candidates[i..])
  {
    if i > 0 {
      FirstUsable(candidates[1..], i - 1);
    }
  }

  /** The first usable source of the documented order decides. */
  method ComputeExpiresAt(data: TokenData, config: ClientConfig, mono: real, wall: real) returns (deadline: real)
    ensures deadline == DeadlineOf(Receipt(BasisOf(data), mono, wall), config)
    ensures Keeps(deadline, Receipt(BasisOf(data), mono, wall), config)
    ensures forall offset, now :: mono + offset == wall ==> (now < deadline <==> MarginLeft(data, mono, config, offset, now))
    ensures forall v :: data.expiresAt == Number(v) ==> deadline == mono + (v - wall) - config.buffer
  {
    forall offset, now
      ensures MarginLeft(data, mono, config, offset, now) <==> SafeAt(Receipt(BasisOf(data), mono, wall), config, offset, now)
    {
      MarginIsSafe(data, mono, wall, config, offset, now);
    }
    ghost var candidates := Candidates(data);
    var expiresAt := ParseExpiresAt(data.expiresAt);
    if expiresAt.Some? {
      return EpochDeadline(expiresAt.value, config.buffer, mono, wall);
    }
    var expiresIn := ParseExpiresIn(data.expiresIn);
    if expiresIn.Some? {
      FirstUsable(candidates, 1);
      return mono + expiresIn.value - config.buffer;
    }
    var claims := [data.accessExp, data.idExp];
    for i := 0 to 2
      invariant forall j :: 0 <= j < 2 + i ==> candidates[j].None?
    {
      if claims[i].Some? {
        FirstUsable(candidates, 2 + i);
        return EpochDeadline(claims[i].value as real, config.buffer, mono, wall);
      }
    }
    FirstUsable(candidates, 4);
    return mono + config.fallbackTtl;
  }

  method ComputeExpiresAtFromBearer(exp: Option<int>, config: ClientConfig, mono: real, wall: real) returns (deadline: real)
    ensures deadline == DeadlineOf(Receipt(BasisOfBearer(exp), mono, wall), config)
    ensures Keeps(deadline, Receipt(BasisOfBearer(exp), mono, wall), config)
    ensures forall offset, now :: mono + offset == wall ==> (now < deadline <==> BearerMarginLeft(exp, mono, config, offset, now))
  {
    if exp.Some? {
      return EpochDeadline(exp.value as real, config.buffer, mono, wall);
    }
    return mono + config.fallbackTtl;
  }

  // ---------- The cache fed from responses ----------

  /** What a client does with its token cache: file a response or a bearer header under a key, ask, invalidate. */
  datatype Call =
    | FileResponse(key: string, text: string, data: TokenData, mono: real, wall: real)
    | FileBearer(key: string, text: string, exp: Option<int>, mono: real, wall: real)
    | Ask(key: string, now: real)
    | Drop(key: string)

  predicate Files(call: Call) {
    call.FileResponse? || call.FileBearer?
  }

  function ReceiptOf(call: Call): Receipt
    requires Files(call)
  {
    Receipt(if call.FileResponse? then BasisOf(call.data) else BasisOfBearer(call.exp), call.mono, call.wall)
  }

  function OpOf(call: Call, config: ClientConfig): Op {
    match call
    case Ask(key, now) => Get(key, now)
    case Drop(key) => Invalidate(key)
    case _ => Set(call.key, Cached(call.text, Some(DeadlineOf(ReceiptOf(call), config))))
  }

  function OpsOf(calls: seq<Call>, config: ClientConfig): seq<Op> {
    seq(|calls|, i requires 0 <= i < |calls| => OpOf(calls[i], config))
  }

  /** The wall clock runs `offset` ahead of the monotonic one, and is read after it. */
  ghost predicate ClocksTogether(calls: seq<Call>, offset: real) {
    forall i :: 0 <= i < |calls| && Files(calls[i]) ==> calls[i].mono + offset <= calls[i].wall
  }

  /** The margin of a filed token, told from its response or its bearer header. */
  ghost predicate LeavesMargin(call: Call, config: ClientConfig, offset: real, now: real) {
    match call
    case FileResponse(_, _, data, mono, _) => MarginLeft(data, mono, config, offset, now)
    case FileBearer(_, _, exp, mono, _) => BearerMarginLeft(exp, mono, config, offset, now)
    case _ => false
  }

  lemma LeavesMarginIsSafe(call: Call, config: ClientConfig, offset: real, now: real)
    requires Files(call)
    ensures LeavesMargin(call, config, offset, now) <==> SafeAt(ReceiptOf(call), config, offset, now)
  {
    if call.FileResponse? {
      MarginIsSafe(call.data, call.mono, call.wall, config, offset, now);
    }
  }

  /** `text` was the last to be filed under `key`, was not dropped, and still has the margin its response stated. */
  ghost predicate FiledSafely(calls: seq<Call>, config: ClientConfig, offset: real, key: string, text: string, now: real) {
    exists i :: 0 <= i < |calls| && (calls[i].FileResponse? || calls[i].FileBearer?) && calls[i].key == key
                && calls[i].text == text && LeavesMargin(calls[i], config, offset, now) && OnlyAsked(calls[i + 1..], key)
  }

  ghost predicate OnlyAsked(calls: seq<Call>, key: string) {
    forall call :: call in calls && call.key == key ==> call.Ask?
  }

  lemma {:induction false} LatestWasSet(trace: seq<Op>, key: string) returns (i: nat)
    requires Latest(trace, key).Some?
    ensures i < |trace| && trace[i] == Set(key, Latest(trace, key).value)
    ensures forall j :: i < j < |trace| ==> trace[j].Get? || (!trace[j].Clear? && trace[j].key != key)
  {
    var last := trace[|trace| - 1];
    if last.Set? && last.key == key {
      i := |trace| - 1;
    } else {
      i := LatestWasSet(trace[..|trace| - 1], key);
    }
  }

  /** Over any calls, a hit is a token that was filed under this key and still has the margin its response stated. */
  lemma HitsKeepTheMargin(bound: nat, calls: seq<Call>, config: ClientConfig, offset: real, key: string, now: real)
    requires ClocksTogether(calls, offset)
    requires Answer(Run(bound, OpsOf(calls, config)), key, now).Some?
    ensures FiledSafely(calls, config, offset, key, Answer(Run(bound, OpsOf(calls, config)), key, now).value, now)
  {
    var trace := OpsOf(calls, config);
    CacheNeverInvents(bound, trace, key, now);
    var i := LatestWasSet(trace, key);
    assert trace[i] == OpOf(calls[i], config) && Files(calls[i]);
    forall call | call in calls[i + 1..] && call.key == key
      ensures call.Ask?
    {
      var j :| i < j < |calls| && calls[j] == call;
      assert trace[j] == OpOf(calls[j], config);
    }
    assert Keeps(trace[i].cached.deadline.value, ReceiptOf(calls[i]), config);
    LeavesMarginIsSafe(calls[i], config, offset, now);
  }

  method ServeOne(cache: TokenCache, config: ClientConfig, call: Call) returns (answer: Option<string>)
    requires cache.Valid()
    modifies cache
    ensures cache.Valid() && cache.systemTokens == Apply(cache.maxSystem, old(cache.systemTokens), OpOf(call, config))
    ensures answer == if call.Ask? then Answer(old(cache.systemTokens), call.key, call.now) else None
  {
    answer := None;
    match call
    case FileResponse(key, text, data, mono, wall) =>
      var deadline := ComputeExpiresAt(data, config, mono, wall);
      cache.SetSystemToken(text, deadline, key);
    case FileBearer(key, text, exp, mono, wall) =>
      var deadline := ComputeExpiresAtFromBearer(exp, config, mono, wall);
      cache.SetSystemToken(text, deadline, key);
    case Ask(key, now) => answer := cache.GetSystemToken(key, now);
    case Drop(key) => cache.InvalidateSystemToken(key);
  }

  function CacheAfter(bound: nat, calls: seq<Call>, config: ClientConfig): seq<Entry> {
    Run(bound, OpsOf(calls, config))
  }

  lemma OneMoreCall(bound: nat, calls: seq<Call>, i: nat, config: ClientConfig)
    requires i < |calls|
    ensures CacheAfter(bound, calls[..i + 1], config) == Apply(bound, CacheAfter(bound, calls[..i], config), OpOf(calls[i], config))
  {
    assert OpsOf(calls[..i + 1], config)[..i] == OpsOf(calls[..i], config);
  }

  /** The calls against the cache itself, with the deadlines the two methods compute: every hit keeps its margin. */
  method Serve(cache: TokenCache, config: ClientConfig, calls: seq<Call>) returns (answers: seq<Option<string>>)
    requires cache.Valid() && cache.systemTokens == []
    modifies cache
    ensures cache.Valid() && cache.systemTokens == CacheAfter(cache.maxSystem, calls, config)
    ensures |answers| == |calls|
    ensures forall i, offset :: 0 <= i < |calls| && answers[i].Some? && ClocksTogether(calls[..i], offset) ==>
              calls[i].Ask? && FiledSafely(calls[..i], config, offset, calls[i].key, answers[i].value, calls[i].now)
  {
    answers := [];
    for i := 0 to |calls|
      invariant cache.Valid() && cache.systemTokens == CacheAfter(cache.maxSystem, calls[..i], config)
      invariant |answers| == i
      invariant forall j, offset :: 0 <= j < i && answers[j].Some? && ClocksTogether(calls[..j], offset) ==>
                  calls[j].Ask? && FiledSafely(calls[..j], config, offset, calls[j].key, answers[j].value, calls[j].now)
    {
      ghost var before := calls[..i];
      var answer := ServeOne(cache, config, calls[i]);
      OneMoreCall(cache.maxSystem, calls, i, config);
      if answer.Some? {
        forall offset | ClocksTogether(before, offset)
          ensures FiledSafely(before, config, offset, calls[i].key, answer.value, calls[i].now)
        {
          HitsKeepTheMargin(cache.maxSystem, before, config, offset, calls[i].key, calls[i].now);
        }
      }
      answers := answers + [answer];
    }
    assert calls[..|calls|] == calls;
  }

  /**
    Conversely, a token just filed is served exactly as long as its response leaves the margin,
    with the wall clock as far ahead as when it was filed.
  */
  lemma FiledTokenServedExactly(bound: nat, calls: seq<Call>, file: Call, config: ClientConfig, now: real)
    requires (file.FileResponse? || file.FileBearer?) && bound >= 1
    ensures Answer(Run(bound, OpsOf(calls + [file], config)), file.key, now)
            == if LeavesMargin(file, config, file.wall - file.mono, now) then Some(file.text) else None
  {
    var trace := OpsOf(calls, config);
    var deadline := DeadlineOf(ReceiptOf(file), config);
    var all := OpsOf(calls + [file], config);
    assert all == trace + [Set(file.key, Cached(file.text, Some(deadline)))] && all[..|calls|] == trace;
    JustSet(bound, trace, file.key, file.text, deadline, now);
    assert Keeps(deadline, ReceiptOf(file), config);
    LeavesMarginIsSafe(file, config, file.wall - file.mono, now);
  }

  /** What was just set is held, and answered before its deadline. */
  lemma JustSet(bound: nat, trace: seq<Op>, key: string, text: string, deadline: real, now: real)
    requires bound >= 1
    ensures Answer(Run(bound, trace + [Set(key, Cached(text, Some(deadline)))]), key, now)
            == if now < deadline then Some(text) else None
  {
    var es := Run(bound, trace);
    var c := Cached(text, Some(deadline));
    RunBounded(bound, trace);
    assert (trace + [Set(key, c)])[..|trace|] == trace;
    AssignMoves(es, key, c);
    OwnUseKeeps(bound, es, key, c);
  }

  /** So one that leaves no more than the buffer when it is filed is never served, not even once, whatever the bound. */
  lemma NoMarginNoHit(bound: nat, calls: seq<Call>, file: Call, config: ClientConfig, now: real)
    requires (file.FileResponse? || file.FileBearer?) && now >= file.mono
    requires !LeavesMargin(file, config, file.wall - file.mono, file.mono)
    ensures Answer(Run(bound, OpsOf(calls + [file], config)), file.key, now).None?
  {
    var all := calls + [file];
    var trace := OpsOf(all, config);
    CacheNeverInvents(bound, trace, file.key, now);
    assert trace[|calls|] == OpOf(file, config);
    LeavesMarginIsSafe(file, config, file.wall - file.mono, file.mono);
    assert Keeps(DeadlineOf(ReceiptOf(file), config), ReceiptOf(file), config);
  }
}
