/**
  The watcher that reloads AI Core credentials when the mounted secret changes, against a
  rotator that may run between any two file accesses. Secret contents are identified by the
  version of the volume they were read from; `mtime` gives each version's modification time.
  A poll is described by the versions the disk happened to hold at its file accesses.
*/
module SecretWatcher {
  import opened Options

  /** The version each loaded environment variable came from; with transparent TLS there is no secret. */
  datatype Env = Env(clientId: nat, authUrl: nat, baseUrl: nat, resourceGroup: nat, clientSecret: Option<nat>)

  /** One file read: the version on disk, and whether a value could be read from the file. */
  datatype Read = Read(version: nat, ok: bool)

  /**
    One poll: the version when the directory is looked at, and whether it could be inspected;
    the five file reads in program order; and after how many of the five writes an exception
    ends the reload, if one does.
  */
  datatype Poll = Poll(dir: nat, inspected: bool, clientId: Read, authUrl: Read, baseUrl: Read, resourceGroup: Read,
                       clientSecret: Read, raisesAfter: Option<nat>)

  /** An unreadable file falls back to the environment variable, that is, to what was loaded before. */
  function Loaded(r: Read, before: nat): nat {
    if r.ok then r.version else before
  }

  /** The environment after the first `writes` writes of a reload. */
  function Reloaded(e: Env, p: Poll, transparentTls: bool, writes: nat): Env {
    Env(if writes >= 1 then Loaded(p.clientId, e.clientId) else e.clientId,
        if writes >= 2 then Loaded(p.authUrl, e.authUrl) else e.authUrl,
        if writes >= 3 then Loaded(p.baseUrl, e.baseUrl) else e.baseUrl,
        if writes >= 4 then Loaded(p.resourceGroup, e.resourceGroup) else e.resourceGroup,
        if writes < 5 then e.clientSecret
        else if transparentTls then None
        else if p.clientSecret.ok then Some(p.clientSecret.version)
        else e.clientSecret)
  }

  /** A variable after its write: what the file held, or what was there if the file could not be read. */
  ghost predicate Holds(after: nat, before: nat, r: Read) {
    after == if r.ok then r.version else before
  }

  /** The secret after its write: with transparent TLS it is dropped. */
  ghost predicate HoldsSecret(after: Option<nat>, before: Option<nat>, r: Read, transparentTls: bool) {
    after == if transparentTls then None else if r.ok then Some(r.version) else before
  }

  /**
    What a reload leaves: of the five variables, in program order, exactly those written before
    the exception have a new value, or all of them without one.
  */
  ghost predicate WrittenInOrder(before: Env, after: Env, p: Poll, transparentTls: bool, raised: bool) {
    && raised == p.raisesAfter.Some?
    && (if raised && p.raisesAfter.value <= 0 then after.clientId == before.clientId
        else Holds(after.clientId, before.clientId, p.clientId))
    && (if raised && p.raisesAfter.value <= 1 then after.authUrl == before.authUrl
        else Holds(after.authUrl, before.authUrl, p.authUrl))
    && (if raised && p.raisesAfter.value <= 2 then after.baseUrl == before.baseUrl
        else Holds(after.baseUrl, before.baseUrl, p.baseUrl))
    && (if raised && p.raisesAfter.value <= 3 then after.resourceGroup == before.resourceGroup
        else Holds(after.resourceGroup, before.resourceGroup, p.resourceGroup))
    && (if raised && p.raisesAfter.value <= 4 then after.clientSecret == before.clientSecret
        else HoldsSecret(after.clientSecret, before.clientSecret, p.clientSecret, transparentTls))
  }

  datatype State = State(lastMtime: real, env: Env)

  /** A directory that cannot be inspected has time zero. */
  const NO_DIRECTORY := 0.0

  function DirTime(mtime: nat -> real, p: Poll): real {
    if p.inspected then mtime(p.dir) else NO_DIRECTORY
  }

  predicate Quiet(mtime: nat -> real, s: State, p: Poll) {
    DirTime(mtime, p) == s.lastMtime
  }

  function AfterPoll(mtime: nat -> real, s: State, p: Poll, transparentTls: bool): State {
    if Quiet(mtime, s, p) then s
    else match p.raisesAfter
         case Some(n) => s.(env := Reloaded(s.env, p, transparentTls, n))
         case None => State(DirTime(mtime, p), Reloaded(s.env, p, transparentTls, 5))
  }

  function Run(mtime: nat -> real, s: State, polls: seq<Poll>, transparentTls: bool): State {
    if polls == [] then s
    else AfterPoll(mtime, Run(mtime, s, polls[..|polls| - 1], transparentTls), polls[|polls| - 1], transparentTls)
  }

  // ---------- The watcher thread ----------

  class Watcher {
    const transparentTls: bool
    var lastMtime: real
    var env: Env

    constructor (transparentTls: bool, lastMtime: real, env: Env)
      ensures this.transparentTls == transparentTls && Contents() == State(lastMtime, env)
    {
      this.transparentTls, this.lastMtime, this.env := transparentTls, lastMtime, env;
    }

    ghost function Contents(): State
      reads this
    {
      State(lastMtime, env)
    }

    /** Four reads, their four writes, then the secret: read and written, or dropped. */
    method ConfigureDirectMode(p: Poll) returns (raised: bool)
      modifies this`env
      ensures raised == p.raisesAfter.Some?
      ensures env == Reloaded(old(env), p, transparentTls, if raised then p.raisesAfter.value else 5)
      ensures WrittenInOrder(old(env), env, p, transparentTls, raised)
    {
      var clientId := Loaded(p.clientId, env.clientId);
      var authUrl := Loaded(p.authUrl, env.authUrl);
      var baseUrl := Loaded(p.baseUrl, env.baseUrl);
      var resourceGroup := Loaded(p.resourceGroup, env.resourceGroup);
      if p.raisesAfter == Some(0) { return true; }
      env := env.(clientId := clientId);
      if p.raisesAfter == Some(1) { return true; }
      env := env.(authUrl := authUrl);
      if p.raisesAfter == Some(2) { return true; }
      env := env.(baseUrl := baseUrl);
      if p.raisesAfter == Some(3) { return true; }
      env := env.(resourceGroup := resourceGroup);
      if p.raisesAfter == Some(4) { return true; }
      if transparentTls {
        env := env.(clientSecret := None);
      } else if p.clientSecret.ok {
        env := env.(clientSecret := Some(p.clientSecret.version));
      }
      return p.raisesAfter.Some?;
    }

    /** The thread's loop, until the stop event is set after `|polls|` rounds. */
    method Watch(mtime: nat -> real, polls: seq<Poll>)
      modifies this
      ensures Contents() == Run(mtime, old(Contents()), polls, transparentTls)
    {
      var round := 0;
      while round < |polls|
        invariant 0 <= round <= |polls|
        invariant Contents() == Run(mtime, old(Contents()), polls[..round], transparentTls)
      {
        var p := polls[round];
        var currentMtime := DirTime(mtime, p);
        if currentMtime != lastMtime {
          var raised := ConfigureDirectMode(p);
          if !raised {
            lastMtime := currentMtime;
          }
        }
        assert polls[..round + 1][..round] == polls[..round];
        round := round + 1;
      }
      assert polls[..|polls|] == polls;
    }
  }

  // ---------- Runs beside a rotator ----------

  /** The disk only moves to later versions, during a poll and from one poll to the next. */
  ghost predicate Advancing(from: nat, polls: seq<Poll>)
    decreases |polls|
  {
    polls != [] ==>
      var p := polls[0];
      && from <= p.dir <= p.clientId.version <= p.authUrl.version <= p.baseUrl.version
      && p.baseUrl.version <= p.resourceGroup.version <= p.clientSecret.version
      && Advancing(p.clientSecret.version, polls[1..])
  }

  /** Different versions have different times, and none has the time that stands for no directory. */
  ghost predicate DistinctTimes(mtime: nat -> real) {
    (forall v, w :: mtime(v) == mtime(w) ==> v == w) && (forall v :: mtime(v) != 0.0)
  }

  /** Files can be read wherever the directory could be inspected. */
  predicate ReadsSucceed(p: Poll, transparentTls: bool) {
    p.inspected ==> AllRead(p, transparentTls)
  }

  predicate AllRead(p: Poll, transparentTls: bool) {
    p.clientId.ok && p.authUrl.ok && p.baseUrl.ok && p.resourceGroup.ok && (transparentTls || p.clientSecret.ok)
  }

  predicate NoOlder(e: Env, v: nat, transparentTls: bool) {
    && v <= e.clientId && v <= e.authUrl && v <= e.baseUrl && v <= e.resourceGroup
    && (!transparentTls ==> e.clientSecret.Some? && v <= e.clientSecret.value)
  }

  predicate NoNewer(e: Env, v: nat) {
    && e.clientId <= v && e.authUrl <= v && e.baseUrl <= v && e.resourceGroup <= v
    && (e.clientSecret.Some? ==> e.clientSecret.value <= v)
  }

  /** Every loaded field is version `v`: nothing stale, nothing torn. */
  predicate Current(e: Env, v: nat, transparentTls: bool) {
    NoOlder(e, v, transparentTls) && NoNewer(e, v)
  }

  /** `lastMtime` is the time of version `last`, or of no directory. */
  ghost predicate TimeOf(mtime: nat -> real, lastMtime: real, last: Option<nat>) {
    lastMtime == if last.Some? then mtime(last.value) else 0.0
  }

  /** The fields are at least as new as `last`, or the disk has already moved past it, or there was no directory. */
  predicate FreshEnough(e: Env, last: Option<nat>, disk: nat, transparentTls: bool) {
    last.Some? ==> disk > last.value || NoOlder(e, last.value, transparentTls)
  }

  ghost predicate Settled(mtime: nat -> real, s: State, last: Option<nat>, disk: nat, transparentTls: bool) {
    && TimeOf(mtime, s.lastMtime, last) && (last.Some? ==> last.value <= disk) && NoNewer(s.env, disk)
    && FreshEnough(s.env, last, disk, transparentTls)
  }

  /** One poll whose reads succeed keeps that, however the rotator interferes and wherever the reload fails. */
  lemma PollSettles(mtime: nat -> real, s: State, last: Option<nat>, disk: nat, p: Poll, transparentTls: bool) returns (last': Option<nat>)
    requires DistinctTimes(mtime) && Settled(mtime, s, last, disk, transparentTls)
    requires Advancing(disk, [p]) && ReadsSucceed(p, transparentTls)
    ensures Settled(mtime, AfterPoll(mtime, s, p, transparentTls), last', p.clientSecret.version, transparentTls)
    ensures Quiet(mtime, s, p) && p.inspected ==> Current(s.env, p.dir, transparentTls)
  {
    last' := if Quiet(mtime, s, p) || p.raisesAfter.Some? then last else if p.inspected then Some(p.dir) else None;
  }

  lemma {:induction false} AdvancingPrefix(from: nat, polls: seq<Poll>)
    requires polls != [] && Advancing(from, polls)
    ensures Advancing(from, polls[..|polls| - 1])
    ensures Advancing(DiskAfter(from, polls[..|polls| - 1]), [polls[|polls| - 1]])
    decreases |polls|
  {
    if |polls| > 1 {
      AdvancingPrefix(polls[0].clientSecret.version, polls[1..]);
      assert polls[..|polls| - 1][1..] == polls[1..][..|polls[1..]| - 1];
    }
  }

  /** The version on disk when the last poll ended. */
  function DiskAfter(from: nat, polls: seq<Poll>): nat
    decreases |polls|
  {
    if polls == [] then from else DiskAfter(polls[0].clientSecret.version, polls[1..])
  }

  lemma {:induction false} DiskAfterLast(from: nat, polls: seq<Poll>)
    requires polls != []
    ensures DiskAfter(from, polls) == polls[|polls| - 1].clientSecret.version
    decreases |polls|
  {
    if |polls| > 1 {
      DiskAfterLast(polls[0].clientSecret.version, polls[1..]);
    }
  }

  lemma {:induction false} RunSettles(mtime: nat -> real, s: State, last: Option<nat>, disk: nat, polls: seq<Poll>, transparentTls: bool)
    returns (last': Option<nat>)
    requires DistinctTimes(mtime) && Settled(mtime, s, last, disk, transparentTls) && Advancing(disk, polls)
    requires forall i :: 0 <= i < |polls| ==> ReadsSucceed(polls[i], transparentTls)
    ensures Settled(mtime, Run(mtime, s, polls, transparentTls), last', DiskAfter(disk, polls), transparentTls)
  {
    if polls == [] {
      last' := last;
    } else {
      var before, p := polls[..|polls| - 1], polls[|polls| - 1];
      AdvancingPrefix(disk, polls);
      var mid := RunSettles(mtime, s, last, disk, before, transparentTls);
      last' := PollSettles(mtime, Run(mtime, s, before, transparentTls), mid, DiskAfter(disk, before), p, transparentTls);
      DiskAfterLast(disk, polls);
    }
  }

  // ---------- Main results ----------

  /** Nothing the rotator does and no failing reload makes the watcher rest on stale or torn credentials. */
  ghost predicate NeverRestsOnStale(mtime: nat -> real, s: State, disk: nat, transparentTls: bool) {
    forall polls, p ::
      && Advancing(disk, polls + [p])
      && (forall i :: 0 <= i < |polls| ==> ReadsSucceed(polls[i], transparentTls))
      && Quiet(mtime, Run(mtime, s, polls, transparentTls), p) && p.inspected
      ==> Current(Run(mtime, s, polls, transparentTls).env, p.dir, transparentTls)
  }

  lemma FreshLoadSuffices(mtime: nat -> real, s: State, last: Option<nat>, disk: nat, transparentTls: bool)
    requires DistinctTimes(mtime) && Settled(mtime, s, last, disk, transparentTls)
    ensures NeverRestsOnStale(mtime, s, disk, transparentTls)
  {
    forall polls, p |
        && Advancing(disk, polls + [p])
        && (forall i :: 0 <= i < |polls| ==> ReadsSucceed(polls[i], transparentTls))
        && Quiet(mtime, Run(mtime, s, polls, transparentTls), p) && p.inspected
      ensures Current(Run(mtime, s, polls, transparentTls).env, p.dir, transparentTls)
    {
      AdvancingPrefix(disk, polls + [p]);
      assert (polls + [p])[..|polls|] == polls;
      var last' := RunSettles(mtime, s, last, disk, polls, transparentTls);
      assert Advancing(DiskAfter(disk, polls), [p]);
    }
  }

  /** A rotation between the initial load and the first directory time goes unnoticed until the next one. */
  lemma StaleStartRests(mtime: nat -> real, s: State, disk: nat, transparentTls: bool)
    requires s.lastMtime == mtime(disk) && !NoOlder(s.env, disk, transparentTls)
    ensures !NeverRestsOnStale(mtime, s, disk, transparentTls)
  {
    var r := Read(disk, true);
    var p := Poll(disk, true, r, r, r, r, r, None);
    assert [] + [p] == [p] && [p][1..] == [];
    assert Quiet(mtime, Run(mtime, s, [], transparentTls), p);
    assert Advancing(disk, [] + [p]);
  }

  /**
    Started with the directory time of version `last`, or of no directory, while the disk holds
    `disk`, the watcher never finds the time of a directory unchanged while a field is not
    current, exactly if the initial load was no older than that version, or the disk has moved
    on since, or there was no directory.
  */
  lemma WatcherCorrectExactly(mtime: nat -> real, s: State, last: Option<nat>, disk: nat, transparentTls: bool)
    requires DistinctTimes(mtime) && TimeOf(mtime, s.lastMtime, last) && (last.Some? ==> last.value <= disk)
    requires NoNewer(s.env, disk)
    ensures NeverRestsOnStale(mtime, s, disk, transparentTls) <==> FreshEnough(s.env, last, disk, transparentTls)
  {
    if FreshEnough(s.env, last, disk, transparentTls) {
      FreshLoadSuffices(mtime, s, last, disk, transparentTls);
    } else {
      StaleStartRests(mtime, s, disk, transparentTls);
    }
  }

  /** On a disk that holds still, one poll that raises nothing leaves every field current: torn loads are repaired. */
  lemma {:induction false} StillDiskRepairs(mtime: nat -> real, s: State, last: Option<nat>, disk: nat, polls: seq<Poll>, p: Poll, transparentTls: bool)
    requires DistinctTimes(mtime) && Settled(mtime, s, last, disk, transparentTls) && Advancing(disk, polls + [p])
    requires forall i :: 0 <= i < |polls| ==> ReadsSucceed(polls[i], transparentTls)
    requires p.inspected && ReadsSucceed(p, transparentTls) && p.raisesAfter.None? && p.clientSecret.version == p.dir
    ensures Current(Run(mtime, s, polls + [p], transparentTls).env, p.dir, transparentTls)
    ensures Run(mtime, s, polls + [p], transparentTls).lastMtime == mtime(p.dir)
  {
    AdvancingPrefix(disk, polls + [p]);
    assert (polls + [p])[..|polls|] == polls;
    var last' := RunSettles(mtime, s, last, disk, polls, transparentTls);
    var t := Run(mtime, s, polls, transparentTls);
    var _ := PollSettles(mtime, t, last', DiskAfter(disk, polls), p, transparentTls);
  }

  /** Each file could be read, or its field was new enough already. */
  predicate BroughtUp(e: Env, p: Poll, transparentTls: bool) {
    && (p.clientId.ok || p.dir <= e.clientId)
    && (p.authUrl.ok || p.dir <= e.authUrl)
    && (p.baseUrl.ok || p.dir <= e.baseUrl)
    && (p.resourceGroup.ok || p.dir <= e.resourceGroup)
    && (transparentTls || p.clientSecret.ok || (e.clientSecret.Some? && p.dir <= e.clientSecret.value))
  }

  /** What a swallowed read costs: a completed reload brings every field up to the version it records exactly then. */
  lemma ReloadUpToDateExactly(mtime: nat -> real, s: State, p: Poll, disk: nat, transparentTls: bool)
    requires Advancing(disk, [p]) && p.raisesAfter.None? && !Quiet(mtime, s, p)
    ensures var t := AfterPoll(mtime, s, p, transparentTls);
            && t.lastMtime == DirTime(mtime, p)
            && (NoOlder(t.env, p.dir, transparentTls) <==> BroughtUp(s.env, p, transparentTls))
  {
  }

  /** And it is not repaired: while the directory's time stays, every further poll is quiet and changes nothing. */
  lemma {:induction false} SwallowedReadSticks(mtime: nat -> real, s: State, polls: seq<Poll>, transparentTls: bool)
    requires forall i :: 0 <= i < |polls| ==> Quiet(mtime, s, polls[i])
    ensures Run(mtime, s, polls, transparentTls) == s
  {
    if polls != [] {
      SwallowedReadSticks(mtime, s, polls[..|polls| - 1], transparentTls);
    }
  }

  lemma {:induction false} RunSplit(mtime: nat -> real, s: State, a: seq<Poll>, b: seq<Poll>, transparentTls: bool)
    ensures Run(mtime, s, a + b, transparentTls) == Run(mtime, Run(mtime, s, a, transparentTls), b, transparentTls)
    decreases |b|
  {
    if b == [] {
      assert a + b == a;
    } else {
      RunSplit(mtime, s, a, b[..|b| - 1], transparentTls);
      assert (a + b)[..|a + b| - 1] == a + b[..|b| - 1];
    }
  }

  /**
    Over whole runs, whatever the reads before: from a completed reload on, for as long as the
    directory's time stays, the credentials are at least as new as the recorded version exactly
    if that one reload could read each file or found its field new enough.
  */
  lemma RestsUpToDateExactly(
    mtime: nat -> real, s: State, before: seq<Poll>, p: Poll, after: seq<Poll>, transparentTls: bool)
    requires Advancing(p.dir, [p]) && p.raisesAfter.None? && !Quiet(mtime, Run(mtime, s, before, transparentTls), p)
    requires forall i :: 0 <= i < |after| ==> DirTime(mtime, after[i]) == DirTime(mtime, p)
    ensures NoOlder(Run(mtime, s, before + [p] + after, transparentTls).env, p.dir, transparentTls)
            <==> BroughtUp(Run(mtime, s, before, transparentTls).env, p, transparentTls)
  {
    RunSplit(mtime, s, before + [p], after, transparentTls);
    assert (before + [p])[..|before|] == before;
    var t := AfterPoll(mtime, Run(mtime, s, before, transparentTls), p, transparentTls);
    ReloadUpToDateExactly(mtime, Run(mtime, s, before, transparentTls), p, p.dir, transparentTls);
    SwallowedReadSticks(mtime, t, after, transparentTls);
  }
}
