/**
  What every interleaving of the CSRF protocol keeps: provenance of the cached tokens, one
  token per root between two evictions, no rejected token sent twice, bounded work.
*/
module CsrfSafety {
  import opened Options
  import opened CsrfProtocol

  // ---------- The invariant ----------

  /** Each entry was fetched for its own root, by a fetch that has been stored. */
  ghost predicate Provenance(s: State) {
    && s.tokens.Keys == s.origin.Keys
    && (forall r :: r in s.origin ==>
          && s.origin[r] in s.settled
          && s.origin[r] < |s.log|
          && s.log[s.origin[r]] == FetchRecord(r, s.tokens[r]))
    && (forall f :: f in s.settled ==> f < |s.log|)
  }

  /** `h` is a stored answer for `root`. */
  ghost predicate Genuine(s: State, root: string, h: Held) {
    h.fetch in s.settled && h.fetch < |s.log| && s.log[h.fetch] == FetchRecord(root, h.token)
  }

  /** Fetch `f` supplies no entry of the map. */
  ghost predicate Gone(s: State, f: nat) {
    forall r :: r in s.origin ==> s.origin[r] != f
  }

  /** A sender before its eviction has sent nothing; afterwards it holds one 403, and that token is gone. */
  ghost predicate History(s: State, x: Sender) {
    && |x.sent| <= (if x.evicted then 2 else 1)
    && x.fetches <= (if x.evicted then 2 else 1)
    && (forall i :: 0 <= i < |x.sent| ==> Genuine(s, x.root, x.sent[i].held))
    && (!x.pc.Done? && !x.evicted ==> |x.sent| == if x.pc.Rejected? then 1 else 0)
    && (x.evicted ==>
          && |x.sent| >= 1
          && x.sent[0].answer == Responded(FORBIDDEN)
          && Gone(s, x.sent[0].held.fetch)
          && !x.pc.Rejected?
          && (!x.pc.Done? ==> |x.sent| == 1))
    && (|x.sent| == 2 ==> x.evicted && x.sent[1].held.fetch != x.sent[0].held.fetch)
  }

  ghost predicate AtPc(s: State, x: Sender) {
    match x.pc
    case Lookup => x.fetches <= if x.evicted then 1 else 0
    case Fetching => true
    case Storing(h) => h.fetch < |s.log| && h.fetch !in s.settled && s.log[h.fetch] == FetchRecord(x.root, h.token)
    case Sending(h) => Genuine(s, x.root, h) && (x.evicted && |x.sent| == 1 ==> h.fetch != x.sent[0].held.fetch)
    case Rejected(h) => x.sent == [Exchange(h, Responded(FORBIDDEN))]
    case Done(o) => Concluded(x, o)
  }

  /** A send fails with 403 only after two refusals; any other ending is the last answer's. */
  ghost predicate Concluded(x: Sender, o: Outcome) {
    && (o == HttpFailure(Some(FORBIDDEN)) ==> |x.sent| == 2)
    && (o.Success? || o.NotFound? || (o.HttpFailure? && o.status.Some?) ==>
          |x.sent| > 0 && EndsAfter(x.sent[|x.sent| - 1].answer, o))
    && (!x.evicted && |x.sent| == 1 ==> x.sent[0].answer != Responded(FORBIDDEN))
  }

  ghost predicate Senders(s: State) {
    forall i :: 0 <= i < |s.senders| ==> History(s, s.senders[i]) && AtPc(s, s.senders[i])
  }

  /** Two senders never store the same fetch. */
  ghost predicate OwnFetches(s: State) {
    forall i, j :: 0 <= i < j < |s.senders| && s.senders[i].pc.Storing? && s.senders[j].pc.Storing? ==>
                     s.senders[i].pc.csrf.fetch != s.senders[j].pc.csrf.fetch
  }

  /** Within one epoch of a root every return is the same token, and it is the cached one in the current epoch. */
  ghost predicate Epochs(s: State) {
    && (forall i :: 0 <= i < |s.handed| ==>
          && s.handed[i].epoch <= EpochOf(s, s.handed[i].root)
          && Genuine(s, s.handed[i].root, s.handed[i].held)
          && (s.handed[i].epoch == EpochOf(s, s.handed[i].root) ==>
                s.handed[i].root in s.origin && s.origin[s.handed[i].root] == s.handed[i].held.fetch))
    && (forall i, j :: 0 <= i < |s.handed| && 0 <= j < |s.handed|
                       && s.handed[i].root == s.handed[j].root && s.handed[i].epoch == s.handed[j].epoch ==>
                         s.handed[i].held == s.handed[j].held)
  }

  ghost predicate Inv(s: State) {
    Provenance(s) && Senders(s) && OwnFetches(s) && Epochs(s)
  }

  // ---------- Every step keeps it ----------

  lemma StartInv(bases: seq<Option<string>>)
    ensures Inv(Start(bases))
  {
  }

  /** A step moves one sender and nobody else. */
  lemma OneMoves(s: State, e: Event)
    requires Enabled(s, e)
    ensures var t := Step(s, e);
            |t.senders| == |s.senders| && t.senders == s.senders[e.sender := t.senders[e.sender]]
  {
  }

  /** Answers stay, settled fetches stay settled, and a fetch enters the map only when it is stored. */
  ghost predicate Grows(s: State, t: State, storing: set<nat>) {
    && s.log <= t.log && s.settled <= t.settled
    && (forall r :: r in t.origin ==> if r in s.origin then t.origin[r] == s.origin[r] else t.origin[r] in storing)
    && (forall f :: f in t.settled ==> f in s.settled || f in storing)
  }

  function StoringNow(s: State, e: Event): set<nat>
    requires Enabled(s, e)
  {
    var pc := s.senders[e.sender].pc;
    if pc.Storing? then {pc.csrf.fetch} else {}
  }

  lemma StepGrows(s: State, e: Event)
    requires Enabled(s, e) && s.tokens.Keys == s.origin.Keys
    ensures Grows(s, Step(s, e), StoringNow(s, e))
  {
  }

  lemma StoreProvenance(s: State, i: nat, h: Held)
    requires Provenance(s) && i < |s.senders| && h.fetch < |s.log| && s.log[h.fetch] == FetchRecord(s.senders[i].root, h.token)
    ensures Provenance(Store(s, i, h))
  {
  }

  lemma StepProvenance(s: State, e: Event)
    requires Inv(s) && Enabled(s, e)
    ensures Provenance(Step(s, e))
  {
    var me := s.senders[e.sender];
    assert AtPc(s, me);
    match me.pc
    case Storing(h) => StoreProvenance(s, e.sender, h);
    case Rejected(h) => assert Provenance(Evict(s, e.sender, h));
    case Fetching => assert Provenance(Fetch(s, e.sender, e.answer));
    case _ =>
  }

  /** What the other senders know stays true. */
  lemma OthersKeep(s: State, t: State, storing: set<nat>, x: Sender)
    requires Grows(s, t, storing) && storing !! s.settled
    requires History(s, x) && AtPc(s, x) && (x.pc.Storing? ==> x.pc.csrf.fetch !in storing)
    ensures History(t, x) && AtPc(t, x)
  {
  }

  /** The compare-and-evict removes the rejected fetch's entry, whoever cached it. */
  lemma EvictionForgets(s: State, i: nat, h: Held)
    requires Provenance(s) && i < |s.senders| && Genuine(s, s.senders[i].root, h)
    ensures Gone(Evict(s, i, h), h.fetch)
  {
  }

  /** The sender that took the step: a cached token in hand is never the rejected fetch's. */
  lemma HandKeeps(s: State, i: nat, held: Held)
    requires i < |s.senders| && var x := s.senders[i];
             History(s, x) && !x.pc.Done? && !x.pc.Rejected?
             && Genuine(s, x.root, held) && x.root in s.origin && s.origin[x.root] == held.fetch
    ensures var t := Hand(s, i, held); History(t, t.senders[i]) && AtPc(t, t.senders[i])
  {
  }

  lemma StoreKeeps(s: State, i: nat, h: Held)
    requires Inv(s) && i < |s.senders| && s.senders[i].pc == Storing(h)
    ensures var t := Store(s, i, h); History(t, t.senders[i]) && AtPc(t, t.senders[i])
  {
  }

  lemma EvictKeeps(s: State, i: nat, h: Held)
    requires Inv(s) && i < |s.senders| && s.senders[i].pc == Rejected(h)
    ensures var t := Evict(s, i, h); History(t, t.senders[i]) && AtPc(t, t.senders[i])
  {
  }

  lemma SendKeeps(s: State, i: nat, h: Held, answer: Answer)
    requires i < |s.senders| && s.senders[i].pc == Sending(h) && History(s, s.senders[i]) && AtPc(s, s.senders[i])
    ensures var t := Send(s, i, h, answer); History(t, t.senders[i]) && AtPc(t, t.senders[i])
  {
  }

  lemma FetchKeeps(s: State, i: nat, answer: Answer)
    requires Provenance(s)
    requires i < |s.senders| && s.senders[i].pc.Fetching? && History(s, s.senders[i])
    requires answer.Fetched? || answer.TransportFailed? || answer.AuthFailed?
    ensures var t := Fetch(s, i, answer); History(t, t.senders[i]) && AtPc(t, t.senders[i])
  {
  }

  lemma StepOwn(s: State, e: Event)
    requires Inv(s) && Enabled(s, e)
    ensures var t := Step(s, e); History(t, t.senders[e.sender]) && AtPc(t, t.senders[e.sender])
  {
    var x := s.senders[e.sender];
    assert History(s, x) && AtPc(s, x);
    match x.pc
    case Lookup =>
      if x.root in s.tokens {
        HandKeeps(s, e.sender, Held(s.tokens[x.root], s.origin[x.root]));
      }
    case Fetching => FetchKeeps(s, e.sender, e.answer);
    case Storing(h) => StoreKeeps(s, e.sender, h);
    case Sending(h) => SendKeeps(s, e.sender, h, e.answer);
    case Rejected(h) => EvictKeeps(s, e.sender, h);
  }

  lemma StepSenders(s: State, e: Event)
    requires Inv(s) && Enabled(s, e)
    ensures Senders(Step(s, e))
  {
    var t := Step(s, e);
    StepGrows(s, e);
    OneMoves(s, e);
    StepOwn(s, e);
    assert AtPc(s, s.senders[e.sender]);
    forall i | 0 <= i < |t.senders| && i != e.sender
      ensures History(t, t.senders[i]) && AtPc(t, t.senders[i])
    {
      assert History(s, s.senders[i]) && AtPc(s, s.senders[i]);
      OthersKeep(s, t, StoringNow(s, e), s.senders[i]);
    }
  }

  lemma StepOwnFetches(s: State, e: Event)
    requires Inv(s) && Enabled(s, e)
    ensures OwnFetches(Step(s, e))
  {
    OneMoves(s, e);
    forall i | 0 <= i < |s.senders| && s.senders[i].pc.Storing?
      ensures s.senders[i].pc.csrf.fetch < |s.log|
    {
      assert AtPc(s, s.senders[i]);
    }
  }

  /** Returning the cached token keeps the epochs in agreement. */
  lemma HandEpochs(s: State, i: nat, held: Held)
    requires Epochs(s) && i < |s.senders|
    requires var r := s.senders[i].root; r in s.origin && s.origin[r] == held.fetch && Genuine(s, r, held)
    ensures Epochs(Hand(s, i, held))
  {
  }

  lemma StoreEpochs(s: State, i: nat, h: Held)
    requires Inv(s) && i < |s.senders| && s.senders[i].pc == Storing(h)
    ensures Epochs(Store(s, i, h))
  {
    var x := s.senders[i];
    assert AtPc(s, x);
    var s1 := Settle(s, x.root, h);
    assert Epochs(s1);
    assert x.root in s.origin ==> s.log[s.origin[x.root]] == FetchRecord(x.root, s.tokens[x.root]);
    HandEpochs(s1, i, Held(s1.tokens[x.root], s1.origin[x.root]));
  }

  lemma EvictEpochs(s: State, i: nat, h: Held)
    requires Epochs(s) && i < |s.senders|
    ensures Epochs(Evict(s, i, h))
  {
  }

  lemma StepEpochs(s: State, e: Event)
    requires Inv(s) && Enabled(s, e)
    ensures Epochs(Step(s, e))
  {
    var x := s.senders[e.sender];
    match x.pc
    case Lookup =>
      if x.root in s.tokens {
        assert s.log[s.origin[x.root]] == FetchRecord(x.root, s.tokens[x.root]);
        HandEpochs(s, e.sender, Held(s.tokens[x.root], s.origin[x.root]));
      }
    case Storing(h) => StoreEpochs(s, e.sender, h);
    case Rejected(h) => EvictEpochs(s, e.sender, h);
    case _ =>
  }

  lemma StepInv(s: State, e: Event)
    requires Inv(s) && Enabled(s, e)
    ensures Inv(Step(s, e))
  {
    StepProvenance(s, e);
    StepSenders(s, e);
    StepOwnFetches(s, e);
    StepEpochs(s, e);
  }

  lemma {:induction false} RunInv(s: State, events: seq<Event>)
    requires Inv(s) && Run(s, events).Some?
    ensures Inv(Run(s, events).value) && |Run(s, events).value.senders| == |s.senders|
    decreases |events|
  {
    if events != [] {
      StepInv(s, events[0]);
      RunInv(Step(s, events[0]), events[1..]);
    }
  }

  // ---------- Main results ----------

  /**
    In every interleaving, a retry carries the answer of another fetch than the rejected
    request. So it repeats the rejected text exactly if the server gave that text twice.
  */
  lemma RetryIsAnotherFetch(bases: seq<Option<string>>, events: seq<Event>, i: nat)
    requires Run(Start(bases), events).Some?
    requires var x := Run(Start(bases), events).value.senders; i < |x| && |x[i].sent| == 2
    ensures var t := Run(Start(bases), events).value;
            var first, second := t.senders[i].sent[0], t.senders[i].sent[1];
            && first.answer == Responded(FORBIDDEN)
            && first.held.fetch < |t.log| && second.held.fetch < |t.log|
            && first.held.fetch != second.held.fetch
            && t.log[first.held.fetch] == FetchRecord(t.senders[i].root, first.held.token)
            && t.log[second.held.fetch] == FetchRecord(t.senders[i].root, second.held.token)
            && (second.held.token == first.held.token <==>
                t.log[first.held.fetch].token == t.log[second.held.fetch].token)
  {
    StartInv(bases);
    RunInv(Start(bases), events);
    var t := Run(Start(bases), events).value;
    assert History(t, t.senders[i]);
    assert Genuine(t, t.senders[i].root, t.senders[i].sent[0].held);
    assert Genuine(t, t.senders[i].root, t.senders[i].sent[1].held);
  }

  /** The server gives no token of this root twice; other roots may see it. */
  ghost predicate NeverReissued(log: seq<FetchRecord>, root: string) {
    forall i, j :: 0 <= i < j < |log| && log[i].root == log[j].root == root ==> log[i].token != log[j].token
  }

  lemma RetryNeverRepeatsRejectedToken(bases: seq<Option<string>>, events: seq<Event>, i: nat)
    requires Run(Start(bases), events).Some?
    requires var x := Run(Start(bases), events).value.senders; i < |x| && |x[i].sent| == 2
    requires var t := Run(Start(bases), events).value; NeverReissued(t.log, t.senders[i].root)
    ensures var x := Run(Start(bases), events).value.senders[i];
            x.sent[1].held.token != x.sent[0].held.token
  {
    RetryIsAnotherFetch(bases, events, i);
    var t := Run(Start(bases), events).value;
    var f, g := t.senders[i].sent[0].held.fetch, t.senders[i].sent[1].held.fetch;
    assert if f < g then t.log[f].token != t.log[g].token else t.log[g].token != t.log[f].token;
  }

  lemma RunFrom(s: State, events: seq<Event>, t: State)
    requires events != [] && Enabled(s, events[0]) && Run(Step(s, events[0]), events[1..]) == Some(t)
    ensures Run(s, events) == Some(t)
  {
  }

  /** Between two evictions of a root's entry, every `_get_csrf_token` call for that root returns the same token. */
  lemma OneTokenPerEpoch(bases: seq<Option<string>>, events: seq<Event>, i: nat, j: nat)
    requires Run(Start(bases), events).Some?
    requires var h := Run(Start(bases), events).value.handed;
             i < |h| && j < |h| && h[i].root == h[j].root && h[i].epoch == h[j].epoch
    ensures var h := Run(Start(bases), events).value.handed; h[i].held == h[j].held
  {
    StartInv(bases);
    RunInv(Start(bases), events);
  }

  /** Once its entry is gone, an answer that has been stored never supplies an entry again. */
  lemma {:induction false} EvictedNeverReturns(s: State, events: seq<Event>, f: nat)
    requires Inv(s) && Run(s, events).Some? && f in s.settled && Gone(s, f)
    ensures Gone(Run(s, events).value, f)
    decreases |events|
  {
    if events != [] {
      var e := events[0];
      assert AtPc(s, s.senders[e.sender]);
      StepGrows(s, e);
      StepInv(s, e);
      EvictedNeverReturns(Step(s, e), events[1..], f);
    }
  }

  /** Every cached token is the answer to a fetch of that very service root. */
  lemma CachedTokensAreTheRoots(bases: seq<Option<string>>, events: seq<Event>, root: string)
    requires Run(Start(bases), events).Some? && root in Run(Start(bases), events).value.tokens
    ensures var t := Run(Start(bases), events).value;
            exists f :: 0 <= f < |t.log| && t.log[f] == FetchRecord(root, t.tokens[root])
  {
    StartInv(bases);
    RunInv(Start(bases), events);
    var t := Run(Start(bases), events).value;
    assert t.log[t.origin[root]] == FetchRecord(root, t.tokens[root]);
  }

  /**
    An entry changes only by being removed, and only by a sender whose one request carried
    exactly the cached text and was answered 403; the epoch counts those removals.
  */
  lemma OnlyRejectionEvicts(s: State, e: Event, root: string)
    requires Inv(s) && Enabled(s, e) && root in s.tokens
    ensures var t := Step(s, e);
            var x := s.senders[e.sender];
            if root in t.tokens then t.tokens[root] == s.tokens[root] && EpochOf(t, root) == EpochOf(s, root)
            else
              && x.root == root && |x.sent| == 1
              && x.sent[0].answer == Responded(FORBIDDEN) && x.sent[0].held.token == s.tokens[root]
              && EpochOf(t, root) == EpochOf(s, root) + 1
  {
    assert AtPc(s, s.senders[e.sender]);
  }

  /** At most two requests and two fetches per send; a 403 surfaces only after both requests were refused. */
  lemma BoundedSend(bases: seq<Option<string>>, events: seq<Event>, i: nat)
    requires Run(Start(bases), events).Some? && i < |Run(Start(bases), events).value.senders|
    ensures var x := Run(Start(bases), events).value.senders[i];
            && |x.sent| <= 2 && x.fetches <= 2
            && (|x.sent| == 2 ==> x.sent[0].answer == Responded(403))
            && (x.pc == Done(Success) ==> |x.sent| > 0 && var a := x.sent[|x.sent| - 1].answer; a.Responded? && 200 <= a.status < 300)
            && (x.pc == Done(NotFound) ==> |x.sent| > 0 && x.sent[|x.sent| - 1].answer == Responded(404))
            && (x.pc == Done(HttpFailure(Some(403))) ==> |x.sent| == 2 && x.sent[1].answer == Responded(403))
            && (x.pc.Done? && |x.sent| == 1 && !x.evicted ==> x.sent[0].answer != Responded(403))
  {
    StartInv(bases);
    RunInv(Start(bases), events);
    var t := Run(Start(bases), events).value;
    assert History(t, t.senders[i]) && AtPc(t, t.senders[i]);
  }

  // ---------- Tokens are the headers the server sent ----------

  function Roots(s: State): seq<string> {
    seq(|s.senders|, i requires 0 <= i < |s.senders| => s.senders[i].root)
  }

  /** What the answered fetches of a run brought, in order, and for which root. */
  function Records(roots: seq<string>, events: seq<Event>): seq<FetchRecord> {
    if events == [] then []
    else RecordsOf(roots, events[0]) + Records(roots, events[1..])
  }

  function RecordsOf(roots: seq<string>, e: Event): seq<FetchRecord> {
    if e.sender >= |roots| then []
    else
      match e.answer
      case Fetched(Some(text)) => [FetchRecord(roots[e.sender], text)]
      case Fetched(None) => [FetchRecord(roots[e.sender], "")]
      case _ => []
  }

  lemma StepLogs(s: State, e: Event)
    requires Enabled(s, e)
    ensures Step(s, e).log == s.log + RecordsOf(Roots(s), e) && Roots(Step(s, e)) == Roots(s)
  {
    OneMoves(s, e);
  }

  lemma Appended(log: seq<FetchRecord>, first: seq<FetchRecord>, rest: seq<FetchRecord>)
    ensures (log + first) + rest == log + (first + rest)
  {
  }

  /** The log is exactly that. */
  lemma {:induction false} LogIsTheAnswers(s: State, events: seq<Event>)
    requires Run(s, events).Some?
    ensures var t := Run(s, events).value; t.log == s.log + Records(Roots(s), events) && Roots(t) == Roots(s)
    decreases |events|
  {
    if events != [] {
      StepLogs(s, events[0]);
      LogIsTheAnswers(Step(s, events[0]), events[1..]);
      Appended(s.log, RecordsOf(Roots(s), events[0]), Records(Roots(s), events[1..]));
    }
  }

  lemma {:induction false} RecordOccurs(roots: seq<string>, events: seq<Event>, f: nat) returns (e: Event)
    requires f < |Records(roots, events)|
    ensures e in events && e.sender < |roots|
    ensures roots[e.sender] == Records(roots, events)[f].root && Brings(e.answer, Records(roots, events)[f].token)
  {
    var here := |RecordsOf(roots, events[0])|;
    if f < here {
      e := events[0];
    } else {
      e := RecordOccurs(roots, events[1..], f - here);
    }
  }

  /** Two senders work on the same service: no service base is as good as the empty one. */
  ghost predicate SameService(a: Option<string>, b: Option<string>) {
    a == b || (a in {None, Some("")} && b in {None, Some("")})
  }

  lemma SameRootExactly(a: Option<string>, b: Option<string>)
    ensures RootOf(a) == RootOf(b) <==> SameService(a, b)
  {
  }

  /** Some fetch of the run for that service brought this token. */
  ghost predicate BroughtFor(bases: seq<Option<string>>, events: seq<Event>, base: Option<string>, token: string) {
    exists e :: e in events && Brings(e.answer, token) && e.sender < |bases| && SameService(bases[e.sender], base)
  }

  /** A record of the log, told as the event that made it. */
  lemma RecordWasBrought(bases: seq<Option<string>>, events: seq<Event>, f: nat, base: Option<string>)
    requires Run(Start(bases), events).Some?
    requires f < |Run(Start(bases), events).value.log| && Run(Start(bases), events).value.log[f].root == RootOf(base)
    ensures BroughtFor(bases, events, base, Run(Start(bases), events).value.log[f].token)
  {
    LogIsTheAnswers(Start(bases), events);
    var e := RecordOccurs(Roots(Start(bases)), events, f);
    SameRootExactly(bases[e.sender], base);
  }

  /**
    In every interleaving, whatever a request carries is a header text that some sender of the
    same service was sent in this run, or the empty text where its answer had no header.
  */
  lemma RequestsCarryHeaders(bases: seq<Option<string>>, events: seq<Event>, i: nat, k: nat)
    requires Run(Start(bases), events).Some? && i < |bases|
    requires var x := Run(Start(bases), events).value.senders; i < |x| && k < |x[i].sent|
    ensures BroughtFor(bases, events, bases[i], Run(Start(bases), events).value.senders[i].sent[k].held.token)
  {
    StartInv(bases);
    RunInv(Start(bases), events);
    var t := Run(Start(bases), events).value;
    LogIsTheAnswers(Start(bases), events);
    assert History(t, t.senders[i]);
    assert Genuine(t, t.senders[i].root, t.senders[i].sent[k].held);
    assert Roots(t)[i] == Roots(Start(bases))[i];
    RecordWasBrought(bases, events, t.senders[i].sent[k].held.fetch, bases[i]);
  }

  // ---------- History is only recorded ----------

  /** What of a sender's place a step can look at: the token in hand, not the fetch it came from. */
  datatype Place = AtLookup | AtFetch | AtStore(token: string) | AtSend(token: string) | AtReject(token: string) | AtEnd(outcome: Outcome)

  function PlaceOf(pc: Pc): Place {
    match pc
    case Lookup => AtLookup
    case Fetching => AtFetch
    case Storing(h) => AtStore(h.token)
    case Sending(h) => AtSend(h.token)
    case Rejected(h) => AtReject(h.token)
    case Done(o) => AtEnd(o)
  }

  ghost predicate SamePlace(x: Sender, y: Sender) {
    x.root == y.root && x.evicted == y.evicted && PlaceOf(x.pc) == PlaceOf(y.pc)
  }

  /** Two states that differ in history alone. */
  ghost predicate SameVisible(s: State, t: State) {
    && s.tokens == t.tokens && |s.senders| == |t.senders|
    && forall i :: 0 <= i < |s.senders| ==> SamePlace(s.senders[i], t.senders[i])
  }

  datatype Move = Move(tokens: map<string, string>, evicted: bool, place: Place)

  /** The same step, told without any history. */
  function VisibleStep(tokens: map<string, string>, root: string, evicted: bool, place: Place, answer: Answer): Move {
    match place
    case AtLookup => Move(tokens, evicted, if root in tokens then AtSend(tokens[root]) else AtFetch)
    case AtFetch => Move(tokens, evicted, if answer.Fetched? then AtStore(HeaderOf(answer)) else AtEnd(OutcomeOf(answer)))
    case AtStore(token) => Move(SetDefault(tokens, root, token), evicted, AtSend(SetDefault(tokens, root, token)[root]))
    case AtSend(token) =>
      Move(tokens, evicted, if answer == Responded(FORBIDDEN) && !evicted then AtReject(token) else AtEnd(OutcomeOf(answer)))
    case AtReject(token) => Move(EvictRejected(tokens, root, token), true, AtLookup)
    case AtEnd(_) => Move(tokens, evicted, place)
  }

  ghost predicate MovedAs(t: State, i: nat, root: string, m: Move) {
    && i < |t.senders| && t.senders[i].root == root
    && t.tokens == m.tokens && t.senders[i].evicted == m.evicted && PlaceOf(t.senders[i].pc) == m.place
  }

  lemma StoreMoves(s: State, i: nat, h: Held)
    requires i < |s.senders|
    ensures var x := s.senders[i];
            MovedAs(Store(s, i, h), i, x.root, VisibleStep(s.tokens, x.root, x.evicted, AtStore(h.token), NoNetwork))
  {
  }

  lemma EvictMoves(s: State, i: nat, h: Held)
    requires i < |s.senders|
    ensures var x := s.senders[i];
            MovedAs(Evict(s, i, h), i, x.root, VisibleStep(s.tokens, x.root, x.evicted, AtReject(h.token), NoNetwork))
  {
  }

  lemma SendMoves(s: State, i: nat, h: Held, answer: Answer)
    requires i < |s.senders|
    ensures var x := s.senders[i];
            MovedAs(Send(s, i, h, answer), i, x.root, VisibleStep(s.tokens, x.root, x.evicted, AtSend(h.token), answer))
  {
  }

  lemma FetchMoves(s: State, i: nat, answer: Answer)
    requires i < |s.senders|
    ensures var x := s.senders[i];
            MovedAs(Fetch(s, i, answer), i, x.root, VisibleStep(s.tokens, x.root, x.evicted, AtFetch, answer))
  {
  }

  lemma LookUpMoves(s: State, i: nat)
    requires i < |s.senders|
    ensures var x := s.senders[i];
            MovedAs(LookUp(s, i), i, x.root, VisibleStep(s.tokens, x.root, x.evicted, AtLookup, NoNetwork))
  {
  }

  lemma MovesVisibly(s: State, e: Event)
    requires Enabled(s, e)
    ensures var x := s.senders[e.sender];
            MovedAs(Step(s, e), e.sender, x.root, VisibleStep(s.tokens, x.root, x.evicted, PlaceOf(x.pc), e.answer))
  {
    match s.senders[e.sender].pc
    case Lookup => LookUpMoves(s, e.sender);
    case Fetching => FetchMoves(s, e.sender, e.answer);
    case Storing(h) => StoreMoves(s, e.sender, h);
    case Sending(h) => SendMoves(s, e.sender, h, e.answer);
    case Rejected(h) => EvictMoves(s, e.sender, h);
  }

  lemma StepIgnoresHistory(s: State, t: State, e: Event)
    requires SameVisible(s, t)
    ensures Enabled(s, e) <==> Enabled(t, e)
    ensures Enabled(s, e) ==> SameVisible(Step(s, e), Step(t, e))
  {
    if e.sender < |s.senders| {
      assert SamePlace(s.senders[e.sender], t.senders[e.sender]);
      if Enabled(s, e) {
        MovesVisibly(s, e);
        MovesVisibly(t, e);
        OneMoves(s, e);
        OneMoves(t, e);
      }
    }
  }

  /** Whatever the history says, the same steps can be taken, and they end alike. */
  lemma {:induction false} HistoryIgnored(s: State, t: State, events: seq<Event>)
    requires SameVisible(s, t)
    ensures Run(s, events).Some? <==> Run(t, events).Some?
    ensures Run(s, events).Some? ==> SameVisible(Run(s, events).value, Run(t, events).value)
    decreases |events|
  {
    if events != [] {
      StepIgnoresHistory(s, t, events[0]);
      if Enabled(s, events[0]) {
        HistoryIgnored(Step(s, events[0]), Step(t, events[0]), events[1..]);
      }
    }
  }

  // ---------- Progress ----------

  /** Steps a sender can still take. */
  function Remaining(x: Sender): nat {
    var later := if x.evicted then 0 else 5;
    match x.pc
    case Lookup => later + 4
    case Fetching => later + 3
    case Storing(_) => later + 2
    case Sending(_) => later + 1
    case Rejected(_) => 5
    case Done(_) => 0
  }

  function TotalRemaining(senders: seq<Sender>): nat {
    if senders == [] then 0 else Remaining(senders[0]) + TotalRemaining(senders[1..])
  }

  lemma {:induction false} TotalAfterUpdate(senders: seq<Sender>, i: nat, x: Sender)
    requires i < |senders|
    ensures TotalRemaining(senders[i := x]) == TotalRemaining(senders) - Remaining(senders[i]) + Remaining(x)
  {
    if i == 0 {
      assert senders[0 := x][1..] == senders[1..];
    } else {
      TotalAfterUpdate(senders[1..], i - 1, x);
      assert senders[i := x][1..] == senders[1..][i - 1 := x];
    }
  }

  lemma OwnDecreases(s: State, e: Event)
    requires Inv(s) && Enabled(s, e)
    ensures Remaining(Step(s, e).senders[e.sender]) < Remaining(s.senders[e.sender])
  {
    assert History(s, s.senders[e.sender]);
  }

  lemma StepDecreases(s: State, e: Event)
    requires Inv(s) && Enabled(s, e)
    ensures TotalRemaining(Step(s, e).senders) < TotalRemaining(s.senders)
  {
    var t := Step(s, e);
    OneMoves(s, e);
    TotalAfterUpdate(s.senders, e.sender, t.senders[e.sender]);
    OwnDecreases(s, e);
  }

  lemma {:induction false} RunLength(s: State, events: seq<Event>)
    requires Inv(s) && Run(s, events).Some?
    ensures |events| <= TotalRemaining(s.senders)
    decreases |events|
  {
    if events != [] {
      StepInv(s, events[0]);
      StepDecreases(s, events[0]);
      RunLength(Step(s, events[0]), events[1..]);
    }
  }

  lemma {:induction false} FreshTotal(senders: seq<Sender>)
    requires forall i :: 0 <= i < |senders| ==> senders[i].pc.Lookup? && !senders[i].evicted
    ensures TotalRemaining(senders) == 9 * |senders|
  {
    if senders != [] {
      FreshTotal(senders[1..]);
    }
  }

  /**
    No interleaving is longer than nine steps a sender, and one that cannot be
    continued has finished every send.
  */
  lemma EveryRunEnds(bases: seq<Option<string>>, events: seq<Event>)
    requires Run(Start(bases), events).Some?
    ensures |events| <= 9 * |bases|
    ensures var t := Run(Start(bases), events).value;
            (exists e :: Enabled(t, e)) || (forall i :: 0 <= i < |t.senders| ==> t.senders[i].pc.Done?)
  {
    StartInv(bases);
    RunLength(Start(bases), events);
    FreshTotal(Start(bases).senders);
    var t := Run(Start(bases), events).value;
    if i :| 0 <= i < |t.senders| && !t.senders[i].pc.Done? {
      var answer := match t.senders[i].pc
        case Fetching => Fetched(None)
        case Sending(_) => Responded(200)
        case _ => NoNetwork;
      assert Enabled(t, Event(i, answer));
    }
  }

  // ---------- The client's own code is a run of the protocol ----------

  /** One sender about to start, beside a map that others filled. */
  ghost predicate LoneStart(s: State, root: string) {
    && s.tokens.Keys == s.origin.Keys
    && s.senders == [Sender(root, false, Lookup, [], 0)]
  }

  function GetEvents(cached: bool, fetch: Answer): seq<Event> {
    if cached then [Event(0, NoNetwork)]
    else if fetch.Fetched? then [Event(0, NoNetwork), Event(0, fetch), Event(0, NoNetwork)]
    else [Event(0, NoNetwork), Event(0, fetch)]
  }

  lemma {:induction false} RunConcat(s: State, a: seq<Event>, b: seq<Event>)
    requires Run(s, a).Some?
    ensures Run(s, a + b) == Run(Run(s, a).value, b)
    decreases |a|
  {
    if a == [] {
      assert a + b == b;
    } else {
      assert (a + b)[1..] == a[1..] + b;
      RunConcat(Step(s, a[0]), a[1..], b);
    }
  }

  /** `_get_csrf_token` of a lone sender: its two or three steps, and where they lead. */
  lemma GetRun(s: State, fetch: Answer)
    requires |s.senders| == 1 && s.senders[0].pc.Lookup? && s.tokens.Keys == s.origin.Keys
    requires fetch.Fetched? || fetch.TransportFailed? || fetch.AuthFailed?
    ensures var x := s.senders[0];
            var t := Run(s, GetEvents(x.root in s.tokens, fetch));
            && t.Some? && |t.value.senders| == 1
            && t.value.tokens.Keys == t.value.origin.Keys
            && var y := t.value.senders[0];
               && (y.root, y.evicted, y.sent) == (x.root, x.evicted, x.sent)
               && if x.root in s.tokens then
                    t.value.tokens == s.tokens && y.pc.Sending? && y.pc.held.token == s.tokens[x.root]
                  else if fetch.Fetched? then
                    t.value.tokens == s.tokens[x.root := HeaderOf(fetch)] && y.pc.Sending? && y.pc.held.token == HeaderOf(fetch)
                  else t.value.tokens == s.tokens && y.pc == Done(OutcomeOf(fetch))
  {
    var x := s.senders[0];
    var s1 := Step(s, Event(0, NoNetwork));
    if x.root in s.tokens {
      RunFrom(s, [Event(0, NoNetwork)], s1);
    } else {
      var s2 := Step(s1, Event(0, fetch));
      if fetch.Fetched? {
        var s3 := Step(s2, Event(0, NoNetwork));
        RunFrom(s2, [Event(0, NoNetwork)], s3);
        RunFrom(s1, [Event(0, fetch), Event(0, NoNetwork)], s3);
        RunFrom(s, [Event(0, NoNetwork), Event(0, fetch), Event(0, NoNetwork)], s3);
      } else {
        RunFrom(s1, [Event(0, fetch)], s2);
        RunFrom(s, [Event(0, NoNetwork), Event(0, fetch)], s2);
      }
    }
  }

  /** A lone sender gets its token and its request is answered by `send`. */
  lemma AnsweredRun(s: State, fetch: Answer, send: Answer) returns (events: seq<Event>, t: State)
    requires |s.senders| == 1 && s.senders[0].pc.Lookup? && s.tokens.Keys == s.origin.Keys
    requires s.senders[0].root in s.tokens || fetch.Fetched?
    requires fetch.Fetched? || fetch.TransportFailed? || fetch.AuthFailed?
    requires send.Responded? || send.TransportFailed? || send.AuthFailed?
    ensures Run(s, events) == Some(t) && |t.senders| == 1 && t.tokens.Keys == t.origin.Keys
    ensures var x, y := s.senders[0], t.senders[0];
            && t.tokens == SetDefault(s.tokens, x.root, HeaderOf(fetch))
            && (y.root, y.evicted) == (x.root, x.evicted)
            && |y.sent| == |x.sent| + 1 && y.sent[..|x.sent|] == x.sent
            && y.sent[|x.sent|].answer == send && y.sent[|x.sent|].held.token == t.tokens[x.root]
            && y.pc == if send == Responded(FORBIDDEN) && !x.evicted then Rejected(y.sent[|x.sent|].held)
                       else Done(OutcomeOf(send))
  {
    var get := GetEvents(s.senders[0].root in s.tokens, fetch);
    GetRun(s, fetch);
    var s1 := Run(s, get).value;
    t := Step(s1, Event(0, send));
    RunFrom(s1, [Event(0, send)], t);
    RunConcat(s, get, [Event(0, send)]);
    events := get + [Event(0, send)];
  }

  /** A lone sender's first request is refused, and it has evicted the token. */
  lemma RefusedRun(s: State, root: string, fetch: Answer) returns (events: seq<Event>, t: State)
    requires LoneStart(s, root) && (root in s.tokens || fetch.Fetched?)
    requires fetch.Fetched? || fetch.TransportFailed? || fetch.AuthFailed?
    ensures Run(s, events) == Some(t) && |t.senders| == 1 && t.tokens.Keys == t.origin.Keys
    ensures var y := t.senders[0];
            && y.root == root && y.evicted && y.pc == Lookup && |y.sent| == 1
            && y.sent[0] == Exchange(Held(SetDefault(s.tokens, root, HeaderOf(fetch))[root], y.sent[0].held.fetch), Responded(FORBIDDEN))
            && t.tokens == SetDefault(s.tokens, root, HeaderOf(fetch)) - {root}
  {
    var some, s1 := AnsweredRun(s, fetch, Responded(FORBIDDEN));
    t := Step(s1, Event(0, NoNetwork));
    RunFrom(s1, [Event(0, NoNetwork)], t);
    RunConcat(s, some, [Event(0, NoNetwork)]);
    events := some + [Event(0, NoNetwork)];
  }

  lemma LoneFirst(s: State, root: string, fetch1: Answer, send1: Answer, fetch2: Answer, send2: Answer)
    requires LoneStart(s, root)
    requires fetch1.Fetched? || fetch1.TransportFailed? || fetch1.AuthFailed?
    requires send1.Responded? || send1.TransportFailed? || send1.AuthFailed?
    requires (root !in s.tokens && !fetch1.Fetched?) || send1 != Responded(FORBIDDEN)
    ensures exists events :: EndsAs(Run(s, events), Alone(s.tokens, root, fetch1, send1, fetch2, send2))
  {
    if root !in s.tokens && !fetch1.Fetched? {
      GetRun(s, fetch1);
      assert EndsAs(Run(s, GetEvents(false, fetch1)), Ending(s.tokens, OutcomeOf(fetch1), []));
    } else {
      var events, t := AnsweredRun(s, fetch1, send1);
      var held := SetDefault(s.tokens, root, HeaderOf(fetch1));
      assert EndsAs(Run(s, events), Ending(held, OutcomeOf(send1), [held[root]]));
    }
  }

  lemma LoneRetry(s: State, root: string, fetch1: Answer, fetch2: Answer, send2: Answer)
    requires LoneStart(s, root) && (root in s.tokens || fetch1.Fetched?) && fetch2.Fetched?
    requires fetch1.Fetched? || fetch1.TransportFailed? || fetch1.AuthFailed?
    requires send2.Responded? || send2.TransportFailed? || send2.AuthFailed?
    ensures exists events :: EndsAs(Run(s, events), Alone(s.tokens, root, fetch1, Responded(FORBIDDEN), fetch2, send2))
  {
    var some, s1 := RefusedRun(s, root, fetch1);
    var more, t := AnsweredRun(s1, fetch2, send2);
    RunConcat(s, some, more);
    var x, y := s1.senders[0], t.senders[0];
    assert y.sent[0] == y.sent[..1][0] == x.sent[0];
    var held := SetDefault(s.tokens, root, HeaderOf(fetch1));
    assert EndsAs(Run(s, some + more), Ending((held - {root})[root := HeaderOf(fetch2)], OutcomeOf(send2), [held[root], HeaderOf(fetch2)]));
  }

  lemma LoneRetryFails(s: State, root: string, fetch1: Answer, fetch2: Answer, send2: Answer)
    requires LoneStart(s, root) && (root in s.tokens || fetch1.Fetched?) && (fetch2.TransportFailed? || fetch2.AuthFailed?)
    requires fetch1.Fetched? || fetch1.TransportFailed? || fetch1.AuthFailed?
    ensures exists events :: EndsAs(Run(s, events), Alone(s.tokens, root, fetch1, Responded(FORBIDDEN), fetch2, send2))
  {
    var some, s1 := RefusedRun(s, root, fetch1);
    var more := GetEvents(false, fetch2);
    GetRun(s1, fetch2);
    RunConcat(s, some, more);
    var held := SetDefault(s.tokens, root, HeaderOf(fetch1));
    assert EndsAs(Run(s, some + more), Ending(held - {root}, OutcomeOf(fetch2), [held[root]]));
  }

  /** What `CsrfTokens.SendWithCsrf` does is what the protocol's sender does when it runs undisturbed. */
  lemma LoneSendIsARun(s: State, root: string, fetch1: Answer, send1: Answer, fetch2: Answer, send2: Answer)
    requires LoneStart(s, root)
    requires fetch1.Fetched? || fetch1.TransportFailed? || fetch1.AuthFailed?
    requires fetch2.Fetched? || fetch2.TransportFailed? || fetch2.AuthFailed?
    requires send1.Responded? || send1.TransportFailed? || send1.AuthFailed?
    requires send2.Responded? || send2.TransportFailed? || send2.AuthFailed?
    ensures exists events :: EndsAs(Run(s, events), Alone(s.tokens, root, fetch1, send1, fetch2, send2))
  {
    if (root !in s.tokens && !fetch1.Fetched?) || send1 != Responded(FORBIDDEN) {
      LoneFirst(s, root, fetch1, send1, fetch2, send2);
    } else if fetch2.Fetched? {
      LoneRetry(s, root, fetch1, fetch2, send2);
    } else {
      LoneRetryFails(s, root, fetch1, fetch2, send2);
    }
  }

  ghost predicate EndsAs(end: Option<State>, goal: Ending) {
    && end.Some? && |end.value.senders| == 1
    && var x := end.value.senders[0];
       end.value.tokens == goal.tokens && x.pc == Done(goal.outcome) && Carried(x.sent) == goal.sent
  }

  /** The tokens that requests carried. */
  function Carried(sent: seq<Exchange>): seq<string> {
    seq(|sent|, i requires 0 <= i < |sent| => sent[i].held.token)
  }

  /** A server that leaves the header out twice makes a sender repeat the rejected (empty) token. */
  lemma MissingHeaderRepeats(serviceBase: Option<string>)
    ensures exists events :: SendsTwice(Run(Start([serviceBase]), events), "")
  {
    var s := Start([serviceBase]);
    var some, s1 := RefusedRun(s, RootOf(serviceBase), Fetched(None));
    var more, t := AnsweredRun(s1, Fetched(None), Responded(FORBIDDEN));
    RunConcat(s, some, more);
    assert t.senders[0].sent[0] == s1.senders[0].sent[0];
    assert SendsTwice(Run(s, some + more), "");
  }

  ghost predicate SendsTwice(end: Option<State>, token: string) {
    && end.Some? && |end.value.senders| == 1
    && var sent := end.value.senders[0].sent;
       && |sent| == 2 && sent[0].held.token == sent[1].held.token == token
       && sent[0].answer == Responded(FORBIDDEN)
  }
}
