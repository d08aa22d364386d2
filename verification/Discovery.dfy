/**
  Concurrent tool discovery: one fetch per server, at most so many in flight, failures
  isolated, results merged in the order of the servers. Both flows share the fan-out.
*/
module Discovery {
  import opened Options

  datatype Tool = Tool(name: string, server: string, url: string)

  /** What one server's fetch comes to. */
  datatype Outcome = Tools(tools: seq<Tool>) | Failed

  // ---------- The fan-out: gather over semaphore-guarded tasks ----------

  datatype Task = Queued | Running | Finished(outcome: Outcome)

  /** `free` is the semaphore's counter. */
  datatype State = State(tasks: seq<Task>, free: int)

  datatype Event = Acquire(task: nat) | Release(task: nat)

  function Start(n: nat, bound: nat): State {
    State(seq(n, _ => Queued), bound)
  }

  predicate Enabled(s: State, e: Event) {
    && e.task < |s.tasks|
    && match e
       case Acquire(i) => s.tasks[i].Queued? && s.free > 0
       case Release(i) => s.tasks[i].Running?
  }

  /** `answers[i]` is what server `i` answers, whenever it is asked. */
  function Step(s: State, answers: seq<Outcome>, e: Event): State
    requires Enabled(s, e) && |answers| == |s.tasks|
  {
    match e
    case Acquire(i) => State(s.tasks[i := Running], s.free - 1)
    case Release(i) => State(s.tasks[i := Finished(answers[i])], s.free + 1)
  }

  function Run(s: State, answers: seq<Outcome>, events: seq<Event>): Option<State>
    requires |answers| == |s.tasks|
    decreases |events|
  {
    if events == [] then Some(s)
    else if Enabled(s, events[0]) then Run(Step(s, answers, events[0]), answers, events[1..])
    else None
  }

  predicate Complete(s: State) {
    forall i :: 0 <= i < |s.tasks| ==> s.tasks[i].Finished?
  }

  function InFlight(tasks: seq<Task>): nat {
    if tasks == [] then 0 else (if tasks[0].Running? then 1 else 0) + InFlight(tasks[1..])
  }

  /** Steps still to come: two for a queued task, one for a running one. */
  function Remaining(tasks: seq<Task>): nat {
    if tasks == [] then 0
    else (if tasks[0].Queued? then 2 else if tasks[0].Running? then 1 else 0) + Remaining(tasks[1..])
  }

  lemma {:induction false} AfterUpdate(tasks: seq<Task>, i: nat, x: Task)
    requires i < |tasks|
    ensures InFlight(tasks[i := x]) == InFlight(tasks) - (if tasks[i].Running? then 1 else 0) + (if x.Running? then 1 else 0)
    ensures Remaining(tasks[i := x]) == Remaining(tasks)
              - (if tasks[i].Queued? then 2 else if tasks[i].Running? then 1 else 0)
              + (if x.Queued? then 2 else if x.Running? then 1 else 0)
  {
    if i == 0 {
      assert tasks[0 := x][1..] == tasks[1..];
    } else {
      AfterUpdate(tasks[1..], i - 1, x);
      assert tasks[i := x][1..] == tasks[1..][i - 1 := x];
    }
  }

  lemma {:induction false} NoneRunning(tasks: seq<Task>)
    requires forall i :: 0 <= i < |tasks| ==> !tasks[i].Running?
    ensures InFlight(tasks) == 0
  {
    if tasks != [] {
      NoneRunning(tasks[1..]);
    }
  }

  lemma {:induction false} FreshRemaining(n: nat)
    ensures Remaining(seq(n, _ => Queued)) == 2 * n && InFlight(seq(n, _ => Queued)) == 0
  {
    if n > 0 {
      FreshRemaining(n - 1);
      assert seq(n, _ => Queued)[1..] == seq(n - 1, _ => Queued);
    }
  }

  /** The semaphore's books balance, and every finished task holds its own server's answer. */
  ghost predicate Inv(s: State, answers: seq<Outcome>, bound: nat) {
    && |answers| == |s.tasks|
    && s.free >= 0 && s.free + InFlight(s.tasks) == bound
    && forall i :: 0 <= i < |s.tasks| && s.tasks[i].Finished? ==> s.tasks[i].outcome == answers[i]
  }

  lemma {:induction false} RunInv(s: State, answers: seq<Outcome>, bound: nat, events: seq<Event>)
    requires Inv(s, answers, bound) && Run(s, answers, events).Some?
    ensures var t := Run(s, answers, events).value;
            Inv(t, answers, bound) && |events| + Remaining(t.tasks) == Remaining(s.tasks)
    decreases |events|
  {
    if events != [] {
      var e := events[0];
      AfterUpdate(s.tasks, e.task, if e.Acquire? then Running else Finished(answers[e.task]));
      RunInv(Step(s, answers, e), answers, bound, events[1..]);
    }
  }

  /** At no time are more fetches in flight than the bound, and the whole fan-out takes at most two steps a task. */
  lemma {:induction false} FanOutBounded(answers: seq<Outcome>, bound: nat, events: seq<Event>)
    requires Run(Start(|answers|, bound), answers, events).Some?
    ensures InFlight(Run(Start(|answers|, bound), answers, events).value.tasks) <= bound
    ensures |events| <= 2 * |answers|
  {
    FreshRemaining(|answers|);
    RunInv(Start(|answers|, bound), answers, bound, events);
  }

  /** Whatever the completion order, gather's list is the servers' answers in server order. */
  lemma FanOutReturnsAnswers(answers: seq<Outcome>, bound: nat, events: seq<Event>)
    requires Run(Start(|answers|, bound), answers, events).Some?
    requires Complete(Run(Start(|answers|, bound), answers, events).value)
    ensures Results(Run(Start(|answers|, bound), answers, events).value) == answers
  {
    FreshRemaining(|answers|);
    RunInv(Start(|answers|, bound), answers, bound, events);
  }

  function Results(s: State): seq<Outcome>
    requires Complete(s)
  {
    seq(|s.tasks|, i requires 0 <= i < |s.tasks| => s.tasks[i].outcome)
  }

  /** The fan-out can get stuck exactly if the bound is zero and there is something to fetch. */
  lemma DeadlockFreeExactly(answers: seq<Outcome>, bound: nat)
    ensures (bound >= 1 || answers == []) <==>
            forall events :: Run(Start(|answers|, bound), answers, events).Some? ==>
              var t := Run(Start(|answers|, bound), answers, events).value;
              Complete(t) || exists e :: Enabled(t, e)
  {
    if bound >= 1 || answers == [] {
      forall events | Run(Start(|answers|, bound), answers, events).Some?
        ensures var t := Run(Start(|answers|, bound), answers, events).value;
                Complete(t) || exists e :: Enabled(t, e)
      {
        NotStuck(answers, bound, events);
      }
    } else {
      var s := Start(|answers|, bound);
      assert Run(s, answers, []) == Some(s);
      assert s.tasks[0].Queued?;
    }
  }

  lemma NotStuck(answers: seq<Outcome>, bound: nat, events: seq<Event>)
    requires bound >= 1 || answers == []
    requires Run(Start(|answers|, bound), answers, events).Some?
    ensures var t := Run(Start(|answers|, bound), answers, events).value;
            Complete(t) || exists e :: Enabled(t, e)
  {
    FreshRemaining(|answers|);
    RunInv(Start(|answers|, bound), answers, bound, events);
    var t := Run(Start(|answers|, bound), answers, events).value;
    if i :| 0 <= i < |t.tasks| && t.tasks[i].Running? {
      assert Enabled(t, Release(i));
    } else {
      NoneRunning(t.tasks);
      if i :| 0 <= i < |t.tasks| && !t.tasks[i].Finished? {
        assert Enabled(t, Acquire(i));
      }
    }
  }

  // ---------- Merging ----------

  function Flatten(results: seq<Outcome>): seq<Tool> {
    if results == [] then []
    else (if results[0].Tools? then results[0].tools else []) + Flatten(results[1..])
  }

  /** An empty name filter keeps everything. */
  function Named(tools: seq<Tool>, names: seq<string>): seq<Tool> {
    if tools == [] then []
    else (if names == [] || tools[0].name in names then [tools[0]] else []) + Named(tools[1..], names)
  }

  lemma {:induction false} FlattenAppend(results: seq<Outcome>, r: Outcome)
    ensures Flatten(results + [r]) == Flatten(results) + if r.Tools? then r.tools else []
  {
    if results == [] {
      assert [] + [r] == [r];
    } else {
      var longer := results + [r];
      assert longer[0] == results[0] && longer[1..] == results[1..] + [r];
      FlattenAppend(results[1..], r);
      var first, rest, last := if results[0].Tools? then results[0].tools else [], Flatten(results[1..]), if r.Tools? then r.tools else [];
      assert first + (rest + last) == (first + rest) + last;
    }
  }

  lemma {:induction false} NamedAppend(a: seq<Tool>, b: seq<Tool>, names: seq<string>)
    ensures Named(a + b, names) == Named(a, names) + Named(b, names)
  {
    if a == [] {
      assert a + b == b;
    } else {
      var all := a + b;
      assert all[0] == a[0] && all[1..] == a[1..] + b;
      NamedAppend(a[1..], b, names);
      var first, rest, last := if names == [] || a[0].name in names then [a[0]] else [], Named(a[1..], names), Named(b, names);
      assert first + (rest + last) == (first + rest) + last;
    }
  }

  lemma {:induction false} NamedAll(tools: seq<Tool>)
    ensures Named(tools, []) == tools
  {
    if tools != [] {
      NamedAll(tools[1..]);
    }
  }

  /** The merge loop and the name filter. */
  method MergeResults(results: seq<Outcome>, names: seq<string>) returns (tools: seq<Tool>)
    ensures tools == Named(Flatten(results), names)
  {
    tools := [];
    for i := 0 to |results|
      invariant tools == Flatten(results[..i])
    {
      if results[i].Tools? {
        tools := tools + results[i].tools;
      }
      FlattenAppend(results[..i], results[i]);
      assert results[..i] + [results[i]] == results[..i + 1];
    }
    assert results[..|results|] == results;
    if names != [] {
      var all := tools;
      tools := [];
      for i := 0 to |all|
        invariant tools == Named(all[..i], names)
      {
        if all[i].name in names {
          tools := tools + [all[i]];
        }
        NamedAppend(all[..i], [all[i]], names);
        assert all[..i] + [all[i]] == all[..i + 1];
      }
      assert all[..|all|] == all;
    } else {
      NamedAll(tools);
    }
  }

  // ---------- The customer flow ----------

  datatype Dependency = Dependency(ordId: string, globalTenantId: string)

  /** An entry of the dependency list, and what its server answers to the request made for this entry. */
  datatype Listed = Listed(dep: Dependency, answer: Outcome)

  datatype Filter = Filter(ordIds: seq<string>, names: seq<string>)

  function Wanted(deps: seq<Listed>, ordIds: seq<string>): seq<Listed> {
    if deps == [] then []
    else (if ordIds == [] || deps[0].dep.ordId in ordIds then [deps[0]] else []) + Wanted(deps[1..], ordIds)
  }

  function Asked(deps: seq<Listed>): seq<Outcome> {
    seq(|deps|, i requires 0 <= i < |deps| => deps[i].answer)
  }

  /** The reference: one server after the other, failures skipped, names filtered as they come. */
  function Sequential(deps: seq<Listed>, f: Filter): seq<Tool> {
    if deps == [] then []
    else
      var rest := Sequential(deps[1..], f);
      if f.ordIds != [] && deps[0].dep.ordId !in f.ordIds then rest
      else if deps[0].answer.Failed? then rest
      else Named(deps[0].answer.tools, f.names) + rest
  }

  lemma {:induction false} MergedIsSequential(deps: seq<Listed>, f: Filter)
    ensures Named(Flatten(Asked(Wanted(deps, f.ordIds))), f.names) == Sequential(deps, f)
  {
    if deps != [] {
      var rest := Wanted(deps[1..], f.ordIds);
      MergedIsSequential(deps[1..], f);
      if f.ordIds == [] || deps[0].dep.ordId in f.ordIds {
        assert Wanted(deps, f.ordIds) == [deps[0]] + rest;
        assert Asked(Wanted(deps, f.ordIds))[1..] == Asked(rest);
        var own := if deps[0].answer.Tools? then deps[0].answer.tools else [];
        NamedAppend(own, Flatten(Asked(rest)), f.names);
      } else {
        assert Wanted(deps, f.ordIds) == rest;
      }
    }
  }

  /**
    For every completion order and every set of failing servers, concurrent discovery returns
    what the sequential loop returns.
  */
  lemma ScheduleIndependent(deps: seq<Listed>, f: Filter, bound: nat, events: seq<Event>)
    requires var answers := Asked(Wanted(deps, f.ordIds));
             Run(Start(|answers|, bound), answers, events).Some? && Complete(Run(Start(|answers|, bound), answers, events).value)
    ensures var answers := Asked(Wanted(deps, f.ordIds));
            Named(Flatten(Results(Run(Start(|answers|, bound), answers, events).value)), f.names)
            == Sequential(deps, f)
  {
    FanOutReturnsAnswers(Asked(Wanted(deps, f.ordIds)), bound, events);
    MergedIsSequential(deps, f);
  }

  /** A tool together with the ORD ID of the server it came from. */
  function Labelled(deps: seq<Listed>): seq<(string, Tool)> {
    if deps == [] then []
    else
      var own := if deps[0].answer.Tools? then deps[0].answer.tools else [];
      seq(|own|, i requires 0 <= i < |own| => (deps[0].dep.ordId, own[i])) + Labelled(deps[1..])
  }

  function Kept(labelled: seq<(string, Tool)>, f: Filter): seq<Tool> {
    if labelled == [] then []
    else
      (if (f.ordIds == [] || labelled[0].0 in f.ordIds) && (f.names == [] || labelled[0].1.name in f.names)
       then [labelled[0].1] else []) + Kept(labelled[1..], f)
  }

  lemma {:induction false} KeptAppend(a: seq<(string, Tool)>, b: seq<(string, Tool)>, f: Filter)
    ensures Kept(a + b, f) == Kept(a, f) + Kept(b, f)
  {
    if a == [] {
      assert a + b == b;
    } else {
      assert (a + b)[1..] == a[1..] + b;
      KeptAppend(a[1..], b, f);
    }
  }

  lemma {:induction false} KeptOfOne(ordId: string, own: seq<Tool>, f: Filter)
    ensures Kept(seq(|own|, i requires 0 <= i < |own| => (ordId, own[i])), f)
            == if f.ordIds == [] || ordId in f.ordIds then Named(own, f.names) else []
  {
    if own != [] {
      var all := seq(|own|, i requires 0 <= i < |own| => (ordId, own[i]));
      assert all[1..] == seq(|own[1..]|, i requires 0 <= i < |own[1..]| => (ordId, own[1..][i]));
      KeptOfOne(ordId, own[1..], f);
    }
  }

  /** Asking only the wanted servers gives what asking all of them and filtering by ORD ID afterwards gives. */
  lemma {:induction false} PrefilterIsPostfilter(deps: seq<Listed>, f: Filter)
    ensures Sequential(deps, f) == Kept(Labelled(deps), f)
  {
    if deps != [] {
      PrefilterIsPostfilter(deps[1..], f);
      var own := if deps[0].answer.Tools? then deps[0].answer.tools else [];
      KeptOfOne(deps[0].dep.ordId, own, f);
      KeptAppend(seq(|own|, i requires 0 <= i < |own| => (deps[0].dep.ordId, own[i])), Labelled(deps[1..]), f);
    }
  }

  // ---------- The LoB flow ----------

  /** A fragment's two spellings of the URL property; the empty text is as good as none. */
  datatype Fragment = Fragment(name: string, upperUrl: string, lowerUrl: string)

  function UrlOf(fr: Fragment): string {
    if fr.upperUrl != "" then fr.upperUrl else fr.lowerUrl
  }

  /** What the fragment gives as its URL, which may be the empty text: the upper-case property, or else the lower-case one. */
  ghost predicate Says(fr: Fragment, text: string) {
    (fr.upperUrl == text && text != "") || (fr.upperUrl == "" && fr.lowerUrl == text)
  }

  datatype Target = Target(name: string, url: string)

  /** Fragments with a URL whose ORD ID is wanted, in fragment order. */
  function Targets(fragments: seq<Fragment>, ordIdOf: string -> string, ordIds: seq<string>): seq<Target> {
    if fragments == [] then []
    else
      (if UrlOf(fragments[0]) != "" && (ordIds == [] || ordIdOf(UrlOf(fragments[0])) in ordIds)
       then [Target(fragments[0].name, UrlOf(fragments[0]))] else [])
      + Targets(fragments[1..], ordIdOf, ordIds)
  }

  lemma {:induction false} TargetsAppend(a: seq<Fragment>, fr: Fragment, ordIdOf: string -> string, ordIds: seq<string>)
    ensures Targets(a + [fr], ordIdOf, ordIds) == Targets(a, ordIdOf, ordIds) + Targets([fr], ordIdOf, ordIds)
  {
    if a == [] {
      assert a + [fr] == [fr];
    } else {
      assert (a + [fr])[1..] == a[1..] + [fr];
      TargetsAppend(a[1..], fr, ordIdOf, ordIds);
    }
  }

  lemma TargetsUpTo(fragments: seq<Fragment>, i: nat, ordIdOf: string -> string, ordIds: seq<string>)
    requires i < |fragments|
    ensures Targets(fragments[..i + 1], ordIdOf, ordIds)
            == Targets(fragments[..i], ordIdOf, ordIds) + Targets([fragments[i]], ordIdOf, ordIds)
  {
    TargetsAppend(fragments[..i], fragments[i], ordIdOf, ordIds);
    assert fragments[..i] + [fragments[i]] == fragments[..i + 1];
  }

  /** The comprehension before any fetch: it looks only at the ORD ID its text says, also for fragments without a URL. */
  function Chosen(fragments: seq<Fragment>, ordIdOf: string -> string, ordIds: seq<string>): seq<Fragment> {
    if fragments == [] then []
    else
      (if ordIds == [] || ordIdOf(UrlOf(fragments[0])) in ordIds then [fragments[0]] else [])
      + Chosen(fragments[1..], ordIdOf, ordIds)
  }

  lemma {:induction false} TargetsOfChosen(fragments: seq<Fragment>, ordIdOf: string -> string, ordIds: seq<string>)
    ensures Targets(Chosen(fragments, ordIdOf, ordIds), ordIdOf, []) == Targets(fragments, ordIdOf, ordIds)
  {
    if fragments != [] {
      var rest := Chosen(fragments[1..], ordIdOf, ordIds);
      TargetsOfChosen(fragments[1..], ordIdOf, ordIds);
      if Chosen(fragments, ordIdOf, ordIds) != rest {
        assert Chosen(fragments, ordIdOf, ordIds)[1..] == rest;
      }
    }
  }

  lemma {:induction false} ChosenAppend(a: seq<Fragment>, fr: Fragment, ordIdOf: string -> string, ordIds: seq<string>)
    ensures Chosen(a + [fr], ordIdOf, ordIds)
            == Chosen(a, ordIdOf, ordIds) + if ordIds == [] || ordIdOf(UrlOf(fr)) in ordIds then [fr] else []
  {
    if a == [] {
      assert a + [fr] == [fr];
    } else {
      var longer := a + [fr];
      assert longer[0] == a[0] && longer[1..] == a[1..] + [fr];
      ChosenAppend(a[1..], fr, ordIdOf, ordIds);
      var rest, last := Chosen(a[1..], ordIdOf, ordIds), if ordIds == [] || ordIdOf(UrlOf(fr)) in ordIds then [fr] else [];
      assert [a[0]] + (rest + last) == [a[0]] + rest + last;
    }
  }

  /** Exactly the fragments whose URL, or the empty text where there is none, says a wanted ORD ID. */
  method FilterFragments(fragments: seq<Fragment>, ordIdOf: string -> string, ordIds: seq<string>) returns (chosen: seq<Fragment>)
    ensures chosen == Chosen(fragments, ordIdOf, ordIds)
    ensures Targets(chosen, ordIdOf, []) == Targets(fragments, ordIdOf, ordIds)
    ensures ordIds == [] ==> chosen == fragments
    ensures forall fr, text :: Says(fr, text) ==>
              (fr in chosen <==> fr in fragments && (ordIds == [] || ordIdOf(text) in ordIds))
  {
    chosen := [];
    for i := 0 to |fragments|
      invariant chosen == Chosen(fragments[..i], ordIdOf, ordIds)
      invariant ordIds == [] ==> chosen == fragments[..i]
      invariant forall fr :: fr in chosen ==> fr in fragments[..i] && (ordIds == [] || ordIdOf(UrlOf(fr)) in ordIds)
      invariant forall fr :: fr in fragments[..i] && (ordIds == [] || ordIdOf(UrlOf(fr)) in ordIds) ==> fr in chosen
    {
      ChosenAppend(fragments[..i], fragments[i], ordIdOf, ordIds);
      assert fragments[..i] + [fragments[i]] == fragments[..i + 1];
      if ordIds == [] || ordIdOf(UrlOf(fragments[i])) in ordIds {
        chosen := chosen + [fragments[i]];
      }
    }
    assert fragments[..|fragments|] == fragments;
    TargetsOfChosen(fragments, ordIdOf, ordIds);
  }

  /** The fragment has this URL, and its ORD ID is wanted. */
  ghost predicate WantedAs(fr: Fragment, ordIdOf: string -> string, ordIds: seq<string>, url: string) {
    Says(fr, url) && url != "" && (ordIds == [] || ordIdOf(url) in ordIds)
  }

  ghost predicate IsWanted(fr: Fragment, ordIdOf: string -> string, ordIds: seq<string>) {
    exists url :: WantedAs(fr, ordIdOf, ordIds, url)
  }

  /** The targets stand for the fragments at these places: in order, exactly the wanted ones, each with its name and URL. */
  ghost predicate TargetsAt(
    fragments: seq<Fragment>, ordIdOf: string -> string, ordIds: seq<string>, tasks: seq<Target>, places: seq<nat>)
  {
    && |places| == |tasks|
    && (forall i, j :: 0 <= i < j < |places| ==> places[i] < places[j])
    && (forall i :: 0 <= i < |places| ==>
          && places[i] < |fragments|
          && tasks[i].name == fragments[places[i]].name && WantedAs(fragments[places[i]], ordIdOf, ordIds, tasks[i].url))
    && (forall k :: 0 <= k < |fragments| ==> (k in places <==> IsWanted(fragments[k], ordIdOf, ordIds)))
  }

  ghost predicate TargetsInOrder(fragments: seq<Fragment>, ordIdOf: string -> string, ordIds: seq<string>, tasks: seq<Target>) {
    exists places :: TargetsAt(fragments, ordIdOf, ordIds, tasks, places)
  }

  /** A fragment says one text only. */
  lemma WantedExactly(fr: Fragment, ordIdOf: string -> string, ordIds: seq<string>)
    ensures IsWanted(fr, ordIdOf, ordIds) <==> UrlOf(fr) != "" && (ordIds == [] || ordIdOf(UrlOf(fr)) in ordIds)
    ensures IsWanted(fr, ordIdOf, ordIds) <==> WantedAs(fr, ordIdOf, ordIds, UrlOf(fr))
  {
    if UrlOf(fr) != "" && (ordIds == [] || ordIdOf(UrlOf(fr)) in ordIds) {
      assert WantedAs(fr, ordIdOf, ordIds, UrlOf(fr));
    }
    if url :| WantedAs(fr, ordIdOf, ordIds, url) {
      assert url == UrlOf(fr);
    }
  }

  lemma OneMoreTarget(
    before: seq<Fragment>, fr: Fragment, ordIdOf: string -> string, ordIds: seq<string>, tasks: seq<Target>, places: seq<nat>, url: string)
    requires TargetsAt(before, ordIdOf, ordIds, tasks, places) && WantedAs(fr, ordIdOf, ordIds, url)
    ensures TargetsAt(before + [fr], ordIdOf, ordIds, tasks + [Target(fr.name, url)], places + [|before|])
  {
    var all, more := before + [fr], places + [|before|];
    assert forall k :: 0 <= k < |before| ==> all[k] == before[k];
    assert forall k :: k in places ==> k < |before|;
    assert forall k :: k in more <==> k in places || k == |before|;
  }

  lemma NoMoreTarget(
    before: seq<Fragment>, fr: Fragment, ordIdOf: string -> string, ordIds: seq<string>, tasks: seq<Target>, places: seq<nat>)
    requires TargetsAt(before, ordIdOf, ordIds, tasks, places) && !IsWanted(fr, ordIdOf, ordIds)
    ensures TargetsAt(before + [fr], ordIdOf, ordIds, tasks, places)
  {
    assert forall k :: k in places ==> k < |before|;
  }

  lemma {:induction false} TargetPlaces(fragments: seq<Fragment>, ordIdOf: string -> string, ordIds: seq<string>) returns (places: seq<nat>)
    ensures TargetsAt(fragments, ordIdOf, ordIds, Targets(fragments, ordIdOf, ordIds), places)
  {
    if fragments == [] {
      places := [];
    } else {
      var before, fr := fragments[..|fragments| - 1], fragments[|fragments| - 1];
      places := TargetPlaces(before, ordIdOf, ordIds);
      TargetsSnoc(fragments, ordIdOf, ordIds);
      WantedExactly(fr, ordIdOf, ordIds);
      assert fragments == before + [fr];
      if IsWanted(fr, ordIdOf, ordIds) {
        OneMoreTarget(before, fr, ordIdOf, ordIds, Targets(before, ordIdOf, ordIds), places, UrlOf(fr));
        places := places + [|before|];
      } else {
        NoMoreTarget(before, fr, ordIdOf, ordIds, Targets(before, ordIdOf, ordIds), places);
      }
    }
  }

  lemma TargetsSnoc(fragments: seq<Fragment>, ordIdOf: string -> string, ordIds: seq<string>)
    requires fragments != []
    ensures var before, fr := fragments[..|fragments| - 1], fragments[|fragments| - 1];
            Targets(fragments, ordIdOf, ordIds)
            == Targets(before, ordIdOf, ordIds)
               + if UrlOf(fr) != "" && (ordIds == [] || ordIdOf(UrlOf(fr)) in ordIds) then [Target(fr.name, UrlOf(fr))] else []
  {
    var before, fr := fragments[..|fragments| - 1], fragments[|fragments| - 1];
    assert fragments == before + [fr] && [fr][1..] == [];
    TargetsAppend(before, fr, ordIdOf, ordIds);
  }

  lemma TargetsTold(fragments: seq<Fragment>, ordIdOf: string -> string, ordIds: seq<string>)
    ensures TargetsInOrder(fragments, ordIdOf, ordIds, Targets(fragments, ordIdOf, ordIds))
  {
    var places := TargetPlaces(fragments, ordIdOf, ordIds);
  }

  /** The filter by ORD ID first, the fragments without a URL after it. */
  method CollectTargets(fragments: seq<Fragment>, ordIdOf: string -> string, ordIds: seq<string>) returns (tasks: seq<Target>)
    ensures tasks == Targets(fragments, ordIdOf, ordIds)
    ensures TargetsInOrder(fragments, ordIdOf, ordIds, tasks)
  {
    var chosen := FilterFragments(fragments, ordIdOf, ordIds);
    tasks := [];
    for i := 0 to |chosen|
      invariant tasks == Targets(chosen[..i], ordIdOf, [])
    {
      TargetsUpTo(chosen, i, ordIdOf, []);
      if UrlOf(chosen[i]) != "" {
        tasks := tasks + [Target(chosen[i].name, UrlOf(chosen[i]))];
      }
    }
    assert chosen[..|chosen|] == chosen;
    TargetsTold(fragments, ordIdOf, ordIds);
  }

  /** A fragment, and what its server answers to the request made for it. */
  datatype Offer = Offer(fragment: Fragment, answer: Outcome)

  function Fragments(offers: seq<Offer>): seq<Fragment> {
    seq(|offers|, i requires 0 <= i < |offers| => offers[i].fragment)
  }

  predicate Sought(offer: Offer, ordIdOf: string -> string, ordIds: seq<string>) {
    UrlOf(offer.fragment) != "" && (ordIds == [] || ordIdOf(UrlOf(offer.fragment)) in ordIds)
  }

  /** The answers gathered, in fragment order. */
  function Gathered(offers: seq<Offer>, ordIdOf: string -> string, ordIds: seq<string>): seq<Outcome> {
    if offers == [] then []
    else (if Sought(offers[0], ordIdOf, ordIds) then [offers[0].answer] else []) + Gathered(offers[1..], ordIdOf, ordIds)
  }

  /** One answer for each target. */
  lemma {:induction false} OneAnswerATarget(offers: seq<Offer>, ordIdOf: string -> string, ordIds: seq<string>)
    ensures |Gathered(offers, ordIdOf, ordIds)| == |Targets(Fragments(offers), ordIdOf, ordIds)|
  {
    if offers != [] {
      OneAnswerATarget(offers[1..], ordIdOf, ordIds);
      assert Fragments(offers)[1..] == Fragments(offers[1..]);
    }
  }

  /** The reference for the LoB flow. */
  function LobSequential(offers: seq<Offer>, ordIdOf: string -> string, f: Filter): seq<Tool> {
    if offers == [] then []
    else
      var rest := LobSequential(offers[1..], ordIdOf, f);
      var url := UrlOf(offers[0].fragment);
      if url == "" || (f.ordIds != [] && ordIdOf(url) !in f.ordIds) then rest
      else
        match offers[0].answer
        case Failed => rest
        case Tools(tools) => Named(tools, f.names) + rest
  }

  lemma {:induction false} LobMerged(offers: seq<Offer>, ordIdOf: string -> string, f: Filter)
    ensures Named(Flatten(Gathered(offers, ordIdOf, f.ordIds)), f.names) == LobSequential(offers, ordIdOf, f)
  {
    if offers != [] {
      var rest := Gathered(offers[1..], ordIdOf, f.ordIds);
      LobMerged(offers[1..], ordIdOf, f);
      if Sought(offers[0], ordIdOf, f.ordIds) {
        assert Gathered(offers, ordIdOf, f.ordIds)[1..] == rest;
        var own := if offers[0].answer.Tools? then offers[0].answer.tools else [];
        NamedAppend(own, Flatten(rest), f.names);
      } else {
        assert Gathered(offers, ordIdOf, f.ordIds) == rest;
      }
    }
  }

  /** For every completion order and every set of failing servers, the LoB flow returns what its sequential loop returns. */
  lemma LobScheduleIndependent(offers: seq<Offer>, ordIdOf: string -> string, f: Filter, bound: nat, events: seq<Event>)
    requires var answers := Gathered(offers, ordIdOf, f.ordIds);
             Run(Start(|answers|, bound), answers, events).Some? && Complete(Run(Start(|answers|, bound), answers, events).value)
    ensures var answers := Gathered(offers, ordIdOf, f.ordIds);
            Named(Flatten(Results(Run(Start(|answers|, bound), answers, events).value)), f.names)
            == LobSequential(offers, ordIdOf, f)
  {
    FanOutReturnsAnswers(Gathered(offers, ordIdOf, f.ordIds), bound, events);
    LobMerged(offers, ordIdOf, f);
  }

  /** A tool together with the ORD ID that its fragment's URL says. */
  function LobLabelled(offers: seq<Offer>, ordIdOf: string -> string): seq<(string, Tool)> {
    if offers == [] then []
    else
      var url := UrlOf(offers[0].fragment);
      var own := if url != "" && offers[0].answer.Tools? then offers[0].answer.tools else [];
      seq(|own|, i requires 0 <= i < |own| => (ordIdOf(url), own[i])) + LobLabelled(offers[1..], ordIdOf)
  }

  /** Here too, asking only the wanted servers gives what asking all of them and filtering afterwards gives. */
  lemma {:induction false} LobPrefilterIsPostfilter(offers: seq<Offer>, ordIdOf: string -> string, f: Filter)
    ensures LobSequential(offers, ordIdOf, f) == Kept(LobLabelled(offers, ordIdOf), f)
  {
    if offers != [] {
      LobPrefilterIsPostfilter(offers[1..], ordIdOf, f);
      var url := UrlOf(offers[0].fragment);
      var own := if url != "" && offers[0].answer.Tools? then offers[0].answer.tools else [];
      KeptOfOne(ordIdOf(url), own, f);
      KeptAppend(seq(|own|, i requires 0 <= i < |own| => (ordIdOf(url), own[i])), LobLabelled(offers[1..], ordIdOf), f);
    }
  }
}
