/**
  The CSRF fetch-and-carry protocol of the ADM client, for any number of senders
  (threads or coroutines) that share one token map.

  A sender's code is cut into steps: one step for each region it runs under the lock and
  one for each network call. Between two steps of one sender the others may run. Network
  answers are inputs of the steps. `log` (every answered token fetch), `origin` (which
  fetch an entry of the map came from), `settled`, `epochs`, `handed`, `sent` and `fetches`
  are history, and so is the fetch recorded with a token in hand: no step's control flow
  looks at them (`CsrfSafety.HistoryIgnored`).
*/
module CsrfProtocol {
  import opened Options

  const FORBIDDEN: int := 403
  const NOT_FOUND: int := 404

  // ---------- The token map, as the three lock regions change it ----------

  /** `service_base or ""`: no service base and the empty one are the same root. */
  function RootOf(serviceBase: Option<string>): string {
    if serviceBase.Some? then serviceBase.value else ""
  }

  function SetDefault(tokens: map<string, string>, root: string, csrf: string): map<string, string> {
    if root in tokens then tokens else tokens[root := csrf]
  }

  function EvictRejected(tokens: map<string, string>, root: string, csrf: string): map<string, string> {
    if root in tokens && tokens[root] == csrf then tokens - {root} else tokens
  }

  // ---------- Senders ----------

  /** A token in a sender's hands, and the fetch whose answer it is. */
  datatype Held = Held(token: string, fetch: nat)

  /** What the network answers to a token fetch or to a request. */
  datatype Answer =
    | NoNetwork                            // the step runs under the lock
    | Fetched(header: Option<string>)      // any status: only the header is read
    | Responded(status: int)
    | TransportFailed                      // surfaces as HttpError without a status
    | AuthFailed                           // no bearer token

  datatype Outcome =
    | Success
    | NotFound
    | HttpFailure(status: Option<int>)
    | AuthFailure

  datatype Pc =
    | Lookup
    | Fetching
    | Storing(csrf: Held)
    | Sending(held: Held)
    | Rejected(held: Held)
    | Done(outcome: Outcome)

  datatype Exchange = Exchange(held: Held, answer: Answer)

  datatype Sender = Sender(
    root: string,
    evicted: bool,           // the compare-and-evict after a 403 has run
    pc: Pc,
    sent: seq<Exchange>,     // requests so far, with their answers
    fetches: nat             // token fetches so far
  )

  datatype FetchRecord = FetchRecord(root: string, token: string)

  /** One return of `_get_csrf_token`. */
  datatype Return = Return(root: string, held: Held, epoch: nat)

  datatype State = State(
    tokens: map<string, string>,
    senders: seq<Sender>,
    log: seq<FetchRecord>,
    origin: map<string, nat>,
    settled: set<nat>,
    epochs: map<string, nat>,
    handed: seq<Return>
  )

  function EpochOf(s: State, root: string): nat {
    if root in s.epochs then s.epochs[root] else 0
  }

  /** Where a root's entry came from. */
  function OriginOf(s: State, root: string): nat {
    if root in s.origin then s.origin[root] else 0
  }

  function Start(serviceBases: seq<Option<string>>): State {
    State(map[], seq(|serviceBases|, i requires 0 <= i < |serviceBases| =>
                       Sender(RootOf(serviceBases[i]), false, Lookup, [], 0)),
          [], map[], {}, map[], [])
  }

  // ---------- Steps ----------

  datatype Event = Event(sender: nat, answer: Answer)

  predicate Enabled(s: State, e: Event) {
    && e.sender < |s.senders|
    && match s.senders[e.sender].pc
       case Lookup | Storing(_) | Rejected(_) => e.answer.NoNetwork?
       case Fetching => e.answer.Fetched? || e.answer.TransportFailed? || e.answer.AuthFailed?
       case Sending(_) => e.answer.Responded? || e.answer.TransportFailed? || e.answer.AuthFailed?
       case Done(_) => false
  }

  /** The token in a fetch's answer: a missing header reads as the empty text. */
  function HeaderOf(a: Answer): string {
    if a.Fetched? && a.header.Some? then a.header.value else ""
  }

  /** The end of a request whose answer does not lead to a retry. */
  function OutcomeOf(a: Answer): Outcome {
    match a
    case Responded(status) =>
      if status == NOT_FOUND then NotFound
      else if 200 <= status < 300 then Success
      else HttpFailure(Some(status))
    case AuthFailed => AuthFailure
    case _ => HttpFailure(None)
  }

  function Step(s: State, e: Event): State
    requires Enabled(s, e)
  {
    match s.senders[e.sender].pc
    case Lookup => LookUp(s, e.sender)
    case Fetching => Fetch(s, e.sender, e.answer)
    case Storing(h) => Store(s, e.sender, h)
    case Sending(h) => Send(s, e.sender, h, e.answer)
    case Rejected(h) => Evict(s, e.sender, h)
  }

  /** The locked lookup of `_get_csrf_token`. */
  function LookUp(s: State, i: nat): State
    requires i < |s.senders|
  {
    var me := s.senders[i];
    if me.root in s.tokens then
      Hand(s, i, Held(s.tokens[me.root], OriginOf(s, me.root)))
    else
      s.(senders := s.senders[i := me.(pc := Fetching, fetches := me.fetches + 1)])
  }

  /** The fetch of a token, outside the lock. */
  function Fetch(s: State, i: nat, answer: Answer): State
    requires i < |s.senders|
  {
    var me := s.senders[i];
    if answer.Fetched? then
      s.(log := s.log + [FetchRecord(me.root, HeaderOf(answer))],
         senders := s.senders[i := me.(pc := Storing(Held(HeaderOf(answer), |s.log|)))])
    else
      s.(senders := s.senders[i := me.(pc := Done(OutcomeOf(answer)))])
  }

  /** The locked `setdefault` of `_get_csrf_token`. */
  function Store(s: State, i: nat, h: Held): State
    requires i < |s.senders|
  {
    var me := s.senders[i];
    var stored := Settle(s, me.root, h);
    Hand(stored, i, Held(stored.tokens[me.root], OriginOf(stored, me.root)))
  }

  function Settle(s: State, root: string, h: Held): (t: State)
    ensures root in t.tokens && t.senders == s.senders
  {
    s.(tokens := SetDefault(s.tokens, root, h.token),
       origin := if root in s.origin then s.origin else s.origin[root := h.fetch],
       settled := s.settled + {h.fetch})
  }

  /** The answer to a request. */
  function Send(s: State, i: nat, h: Held, answer: Answer): State
    requires i < |s.senders|
  {
    var me := s.senders[i];
    var pc := if answer == Responded(FORBIDDEN) && !me.evicted then Rejected(h) else Done(OutcomeOf(answer));
    s.(senders := s.senders[i := me.(pc := pc, sent := me.sent + [Exchange(h, answer)])])
  }

  /** The locked compare-and-evict after a 403; the sender starts over. */
  function Evict(s: State, i: nat, h: Held): State
    requires i < |s.senders|
  {
    var me := s.senders[i];
    var tokens := EvictRejected(s.tokens, me.root, h.token);
    var removed := me.root in s.tokens && me.root !in tokens;
    s.(tokens := tokens,
       origin := if removed then s.origin - {me.root} else s.origin,
       epochs := if removed then s.epochs[me.root := EpochOf(s, me.root) + 1] else s.epochs,
       senders := s.senders[i := me.(pc := Lookup, evicted := true)])
  }

  /** `_get_csrf_token` returns `held`; the request goes out. */
  function Hand(s: State, i: nat, held: Held): State
    requires i < |s.senders|
  {
    var me := s.senders[i];
    s.(senders := s.senders[i := me.(pc := Sending(held))],
       handed := s.handed + [Return(me.root, held, EpochOf(s, me.root))])
  }

  /** The state after `events`, if each was enabled in its turn. */
  function Run(s: State, events: seq<Event>): Option<State>
    decreases |events|
  {
    if events == [] then Some(s)
    else if Enabled(s, events[0]) then Run(Step(s, events[0]), events[1..])
    else None
  }

  /** How a send ends whose last request was answered so: only a 2xx is success, and 404 has an ending of its own. */
  ghost predicate EndsAfter(answer: Answer, outcome: Outcome) {
    match answer
    case Responded(status) =>
      && (outcome == Success <==> 200 <= status <= 299)
      && (outcome == NotFound <==> status == 404)
      && (outcome == HttpFailure(Some(status)) <==> status != 404 && !(200 <= status <= 299))
    case TransportFailed => outcome == HttpFailure(None)
    case AuthFailed => outcome == AuthFailure
    case _ => false
  }

  // ---------- The lock regions and the send, as the client runs them ----------

  class CsrfTokens {
    var tokens: map<string, string>

    constructor ()
      ensures tokens == map[]
    {
      tokens := map[];
    }

    method Find(root: string) returns (found: Option<string>)
      ensures found == if root in tokens then Some(tokens[root]) else None
    {
      if root in tokens {
        return Some(tokens[root]);
      }
      return None;
    }

    method StoreDefault(root: string, csrf: string) returns (current: string)
      modifies this
      ensures tokens == SetDefault(old(tokens), root, csrf)
      ensures root in tokens && current == tokens[root]
    {
      if root !in tokens {
        tokens := tokens[root := csrf];
      }
      current := tokens[root];
    }

    method Evict(root: string, csrf: string)
      modifies this
      ensures tokens == EvictRejected(old(tokens), root, csrf)
    {
      var cached := if root in tokens then Some(tokens[root]) else None;
      if cached == Some(csrf) {
        tokens := tokens - {root};
      }
    }

    /** `_get_csrf_token`, when nobody interferes. The fetch answers `answer` if it is made. */
    method GetToken(serviceBase: Option<string>, answer: Answer) returns (csrf: Option<string>, failure: Outcome)
      requires answer.Fetched? || answer.TransportFailed? || answer.AuthFailed?
      modifies this
      ensures csrf == if RootOf(serviceBase) in tokens then Some(tokens[RootOf(serviceBase)]) else None
      ensures RootOf(serviceBase) in old(tokens) ==> tokens == old(tokens)
      ensures RootOf(serviceBase) !in old(tokens) && answer.Fetched? ==>
                tokens == old(tokens)[RootOf(serviceBase) := HeaderOf(answer)]
      ensures RootOf(serviceBase) !in old(tokens) && !answer.Fetched? ==> tokens == old(tokens) && failure == OutcomeOf(answer)
      ensures RootOf(serviceBase) !in old(tokens) && answer.Fetched? ==>
                csrf == Some(match answer.header case Some(text) => text case None => "")
    {
      var root := RootOf(serviceBase);
      failure := HttpFailure(None);
      csrf := Find(root);
      if csrf.Some? {
        return;
      }
      if !answer.Fetched? {
        failure := OutcomeOf(answer);
        return;
      }
      var current := StoreDefault(root, HeaderOf(answer));
      csrf := Some(current);
    }

    /** What follows a 403: the compare-and-evict, a token, and the second request. */
    method Resend(serviceBase: Option<string>, rejected: string, fetch: Answer, send: Answer)
      returns (outcome: Outcome, sent: seq<string>)
      requires fetch.Fetched? || fetch.TransportFailed? || fetch.AuthFailed?
      modifies this
      ensures var root := RootOf(serviceBase);
              var rest := EvictRejected(old(tokens), root, rejected);
              if root !in rest && !fetch.Fetched? then tokens == rest && outcome == OutcomeOf(fetch) && sent == []
              else tokens == SetDefault(rest, root, HeaderOf(fetch)) && outcome == OutcomeOf(send) && sent == [tokens[root]]
    {
      Evict(RootOf(serviceBase), rejected);
      var csrf, failure := GetToken(serviceBase, fetch);
      if csrf.None? {
        return failure, [];
      }
      return OutcomeOf(send), [csrf.value];
    }

    /** `_send_with_csrf`, when nobody interferes, and the tokens its requests carry: exactly a run of the protocol with one sender. */
    method SendWithCsrf(serviceBase: Option<string>, fetch1: Answer, send1: Answer, fetch2: Answer, send2: Answer)
      returns (outcome: Outcome, sent: seq<string>)
      requires fetch1.Fetched? || fetch1.TransportFailed? || fetch1.AuthFailed?
      requires fetch2.Fetched? || fetch2.TransportFailed? || fetch2.AuthFailed?
      requires send1.Responded? || send1.TransportFailed? || send1.AuthFailed?
      requires send2.Responded? || send2.TransportFailed? || send2.AuthFailed?
      modifies this
      ensures Ending(tokens, outcome, sent) == Alone(old(tokens), RootOf(serviceBase), fetch1, send1, fetch2, send2)
      ensures ToldAlone(old(tokens), serviceBase, fetch1, send1, fetch2, send2, Ending(tokens, outcome, sent))
    {
      sent := [];
      var csrf, failure := GetToken(serviceBase, fetch1);
      if csrf.None? {
        outcome := failure;
      } else {
        sent := [csrf.value];
        if send1 != Responded(FORBIDDEN) {
          outcome := OutcomeOf(send1);
        } else {
          var more;
          outcome, more := Resend(serviceBase, csrf.value, fetch2, send2);
          sent := sent + more;
        }
      }
      assert Ending(tokens, outcome, sent) == Alone(old(tokens), RootOf(serviceBase), fetch1, send1, fetch2, send2);
      AloneIsTold(old(tokens), serviceBase, fetch1, send1, fetch2, send2);
    }
  }

  /** What a send leaves in the map, how it ends, and which tokens its requests carried. */
  datatype Ending = Ending(tokens: map<string, string>, outcome: Outcome, sent: seq<string>)

  /** The ending of a send nobody interferes with. */
  function Alone(tokens: map<string, string>, root: string, fetch1: Answer, send1: Answer, fetch2: Answer, send2: Answer): Ending {
    if root !in tokens && !fetch1.Fetched? then Ending(tokens, OutcomeOf(fetch1), [])
    else
      var held := SetDefault(tokens, root, HeaderOf(fetch1));
      if send1 != Responded(FORBIDDEN) then Ending(held, OutcomeOf(send1), [held[root]])
      else if !fetch2.Fetched? then Ending(held - {root}, OutcomeOf(fetch2), [held[root]])
      else Ending((held - {root})[root := HeaderOf(fetch2)], OutcomeOf(send2), [held[root], HeaderOf(fetch2)])
  }

  /** The header an answer brings, or the empty text. */
  ghost predicate Brings(answer: Answer, token: string) {
    answer == Fetched(Some(token)) || (answer == Fetched(None) && token == "")
  }

  /**
    The ending told from the call's own arguments: the first request carries the cached token, or
    else the header fetched for it; a second one is made exactly after a 403, carries what the
    second fetch brought, and that is then cached; the last answer decides how the send ends.
  */
  ghost predicate ToldAlone(
    tokens: map<string, string>, serviceBase: Option<string>, fetch1: Answer, send1: Answer, fetch2: Answer, send2: Answer, end: Ending)
  {
    var root := match serviceBase case Some(base) => base case None => "";
    && (end.sent == [] <==> root !in tokens && !fetch1.Fetched?)
    && (end.sent == [] ==> end.tokens == tokens)
    && |end.sent| <= 2
    && (end.sent != [] ==> if root in tokens then end.sent[0] == tokens[root] else Brings(fetch1, end.sent[0]))
    && (|end.sent| == 1 && send1 != Responded(403) ==> end.tokens == tokens[root := end.sent[0]] && EndsAfter(send1, end.outcome))
    && (|end.sent| == 2 <==> end.sent != [] && send1 == Responded(403) && fetch2.Fetched?)
    && (|end.sent| == 1 && send1 == Responded(403) ==> end.tokens == tokens - {root})
    && (|end.sent| == 2 ==>
          Brings(fetch2, end.sent[1]) && end.tokens == tokens[root := end.sent[1]] && EndsAfter(send2, end.outcome))
  }

  lemma OutcomeTold(answer: Answer)
    requires answer.Responded? || answer.TransportFailed? || answer.AuthFailed?
    ensures EndsAfter(answer, OutcomeOf(answer))
  {
  }

  lemma AloneIsTold(tokens: map<string, string>, serviceBase: Option<string>, fetch1: Answer, send1: Answer, fetch2: Answer, send2: Answer)
    requires send1.Responded? || send1.TransportFailed? || send1.AuthFailed?
    requires send2.Responded? || send2.TransportFailed? || send2.AuthFailed?
    ensures ToldAlone(tokens, serviceBase, fetch1, send1, fetch2, send2, Alone(tokens, RootOf(serviceBase), fetch1, send1, fetch2, send2))
  {
    OutcomeTold(send1);
    OutcomeTold(send2);
    var root := RootOf(serviceBase);
    var held := SetDefault(tokens, root, HeaderOf(fetch1));
    Replaced(tokens, root, HeaderOf(fetch1));
    Replaced(tokens, root, HeaderOf(fetch2));
    assert held == tokens[root := held[root]] && held - {root} == tokens - {root};
  }

  lemma Replaced(tokens: map<string, string>, root: string, text: string)
    ensures tokens[root := text] - {root} == tokens - {root}
    ensures (tokens - {root})[root := text] == tokens[root := text]
    ensures root in tokens ==> tokens[root := tokens[root]] == tokens
  {
  }
}
