/**
  Laws of the bounded cache over whole traces: the larger cache never misses where the
  smaller one hits, and the cache is an unbounded time-to-live dictionary that forgets only
  keys which enough other keys have overtaken.
*/
module CacheLaws {
  import opened Options
  import opened OrderedCache

  // ---------- Inclusion ----------

  /** `a` is a subsequence of `b`: same entries, same order, some left out. */
  ghost predicate Subsequence(a: seq<Entry>, b: seq<Entry>) {
    || a == []
    || (b != [] && ((a[0] == b[0] && Subsequence(a[1..], b[1..])) || Subsequence(a, b[1..])))
  }

  lemma {:induction false} SubsequenceMembers(a: seq<Entry>, b: seq<Entry>)
    requires Subsequence(a, b)
    ensures forall e :: e in a ==> e in b
    ensures |a| <= |b|
  {
    if a != [] {
      assert a == [a[0]] + a[1..];
      if a[0] == b[0] && Subsequence(a[1..], b[1..]) {
        SubsequenceMembers(a[1..], b[1..]);
      } else {
        SubsequenceMembers(a, b[1..]);
      }
    }
  }

  lemma {:induction false} TailSubsequence(a: seq<Entry>, b: seq<Entry>)
    requires Subsequence(a, b) && a != []
    ensures b != [] && Subsequence(a[1..], b[1..])
  {
    if !(a[0] == b[0] && Subsequence(a[1..], b[1..])) {
      TailSubsequence(a, b[1..]);
    }
  }

  lemma {:induction false} SkipHead(a: seq<Entry>, b: seq<Entry>)
    requires Subsequence(a, b) && a != []
    ensures Subsequence(a[1..], b)
  {
    TailSubsequence(a, b);
  }

  /** Dropping at least as many from the front of the shorter one. */
  lemma {:induction false} DropSubsequence(a: seq<Entry>, b: seq<Entry>, i: nat, j: nat)
    requires Subsequence(a, b) && i <= j <= |a| && i <= |b|
    ensures Subsequence(a[j..], b[i..])
    decreases j
  {
    if j > 0 {
      if i > 0 {
        TailSubsequence(a, b);
        DropSubsequence(a[1..], b[1..], i - 1, j - 1);
        assert a[1..][j - 1..] == a[j..] && b[1..][i - 1..] == b[i..];
      } else {
        SkipHead(a, b);
        DropSubsequence(a[1..], b, 0, j - 1);
        assert a[1..][j - 1..] == a[j..];
      }
    }
  }

  lemma {:induction false} WithoutSubsequence(a: seq<Entry>, b: seq<Entry>, key: string)
    requires Subsequence(a, b)
    ensures Subsequence(Without(a, key), Without(b, key))
  {
    if a != [] {
      var wb := Without(b, key);
      if a[0] == b[0] && Subsequence(a[1..], b[1..]) {
        WithoutSubsequence(a[1..], b[1..], key);
        if a[0].key != key {
          assert Without(a, key)[1..] == Without(a[1..], key) && wb[1..] == Without(b[1..], key);
        } else {
          assert Without(a, key) == Without(a[1..], key) && wb == Without(b[1..], key);
        }
      } else {
        WithoutSubsequence(a, b[1..], key);
        if b[0].key != key {
          assert wb[1..] == Without(b[1..], key);
        } else {
          assert wb == Without(b[1..], key);
        }
      }
    }
  }

  lemma {:induction false} AppendSubsequence(a: seq<Entry>, b: seq<Entry>, e: Entry)
    requires Subsequence(a, b)
    ensures Subsequence(a + [e], b + [e]) && Subsequence(a, b + [e])
    decreases b
  {
    if b == [] {
      assert a == [] && Subsequence([e], [e]);
      assert a + [e] == [e] && b + [e] == [e];
    } else {
      assert (b + [e])[1..] == b[1..] + [e];
      if a == [] {
        AppendSubsequence([], b[1..], e);
        assert [] + [e] == [e];
      } else if a[0] == b[0] && Subsequence(a[1..], b[1..]) {
        AppendSubsequence(a[1..], b[1..], e);
        assert (a + [e])[1..] == a[1..] + [e];
      } else {
        AppendSubsequence(a, b[1..], e);
      }
    }
  }

  lemma AbsentWithout(es: seq<Entry>, key: string)
    requires Lookup(es, key).None?
    ensures Without(es, key) == es
  {
  }

  lemma SubsequenceLookup(a: seq<Entry>, b: seq<Entry>, key: string)
    requires Subsequence(a, b) && Unique(b) && Lookup(a, key).Some?
    ensures Lookup(b, key) == Lookup(a, key)
  {
    SubsequenceMembers(a, b);
    LookupHasKey(a, key);
    var e := Entry(key, Lookup(a, key).value);
    var i :| 0 <= i < |b| && b[i] == e;
    UniqueLookup(b, i);
  }

  /** The smaller cache is a subsequence of the larger, which has at most the difference of the bounds more. */
  ghost predicate Included(small: nat, large: nat, a: seq<Entry>, b: seq<Entry>) {
    && Unique(a) && Unique(b) && |a| <= small && |b| <= large
    && Subsequence(a, b) && |b| - |a| <= large - small
  }

  lemma TrimIncluded(small: nat, large: nat, a: seq<Entry>, b: seq<Entry>)
    requires small <= large && Unique(a) && Unique(b) && Subsequence(a, b) && |b| - |a| <= large - small
    ensures Included(small, large, Trim(small, a), Trim(large, b))
  {
    var j := if |a| > small then |a| - small else 0;
    var i := if |b| > large then |b| - large else 0;
    DropSubsequence(a, b, i, j);
  }

  lemma WithoutIncluded(small: nat, large: nat, a: seq<Entry>, b: seq<Entry>, key: string)
    requires small <= large && Included(small, large, a, b)
    ensures Included(small, large, Without(a, key), Without(b, key))
  {
    WithoutSubsequence(a, b, key);
    WithoutFacts(a, key);
    WithoutFacts(b, key);
    if Lookup(a, key).Some? {
      SubsequenceLookup(a, b, key);
    }
  }

  lemma TouchIncluded(small: nat, large: nat, a: seq<Entry>, b: seq<Entry>, key: string)
    requires small <= large && Included(small, large, a, b)
    ensures Included(small, large, MoveToEnd(a, key), MoveToEnd(b, key))
  {
    match Lookup(b, key)
    case None =>
      if Lookup(a, key).Some? {
        SubsequenceLookup(a, b, key);
      }
    case Some(c) =>
      WithoutIncluded(small, large, a, b, key);
      WithoutFacts(a, key);
      WithoutFacts(b, key);
      AppendSubsequence(Without(a, key), Without(b, key), Entry(key, c));
      if Lookup(a, key).Some? {
        SubsequenceLookup(a, b, key);
      } else {
        AbsentWithout(a, key);
      }
  }

  lemma ApplyIncluded(small: nat, large: nat, a: seq<Entry>, b: seq<Entry>, op: Op)
    requires small <= large && Included(small, large, a, b)
    ensures Included(small, large, Apply(small, a, op), Apply(large, b, op))
  {
    match op
    case Get(key, now) =>
      TouchIncluded(small, large, a, b, key);
      WithoutIncluded(small, large, a, b, key);
      if Lookup(a, key).Some? {
        SubsequenceLookup(a, b, key);
      } else {
        AbsentWithout(a, key);
      }
    case Set(key, c) =>
      var e := Entry(key, c);
      AssignMoves(a, key, c);
      AssignMoves(b, key, c);
      WithoutIncluded(small, large, a, b, key);
      WithoutFacts(a, key);
      WithoutFacts(b, key);
      AppendSubsequence(Without(a, key), Without(b, key), e);
      TrimIncluded(small, large, Without(a, key) + [e], Without(b, key) + [e]);
    case Invalidate(key) => WithoutIncluded(small, large, a, b, key);
    case Clear =>
  }

  /** Inclusion over every trace: same operations, same clock readings, two bounds. */
  lemma {:induction false} LargerCacheIncludesSmaller(small: nat, large: nat, trace: seq<Op>)
    requires small <= large
    ensures Included(small, large, Run(small, trace), Run(large, trace))
  {
    if trace != [] {
      var before := trace[..|trace| - 1];
      LargerCacheIncludesSmaller(small, large, before);
      ApplyIncluded(small, large, Run(small, before), Run(large, before), trace[|trace| - 1]);
    }
  }

  lemma LargerCacheHitsMore(small: nat, large: nat, trace: seq<Op>, key: string, now: real)
    requires small <= large && Answer(Run(small, trace), key, now).Some?
    ensures Answer(Run(large, trace), key, now) == Answer(Run(small, trace), key, now)
  {
    LargerCacheIncludesSmaller(small, large, trace);
    SubsequenceLookup(Run(small, trace), Run(large, trace), key);
  }

  // ---------- The unbounded dictionary ----------

  /** What was last set for `key`, unless it was invalidated since. */
  function Latest(trace: seq<Op>, key: string): Option<Cached> {
    if trace == [] then None
    else
      var before, op := trace[..|trace| - 1], trace[|trace| - 1];
      match op
      case Set(k, c) => if k == key then Some(c) else Latest(before, key)
      case Invalidate(k) => if k == key then None else Latest(before, key)
      case Clear => None
      case Get(_, _) => Latest(before, key)
  }

  /** The answer of a dictionary that never evicts. */
  function TtlAnswer(trace: seq<Op>, key: string, now: real): Option<string> {
    match Latest(trace, key)
    case None => None
    case Some(c) => if Live(c, now) then Some(c.text) else None
  }

  lemma {:induction false} EntriesAreLatest(bound: nat, trace: seq<Op>, e: Entry)
    requires e in Run(bound, trace)
    ensures Latest(trace, e.key) == Some(e.cached)
  {
    if trace != [] {
      var before, op := trace[..|trace| - 1], trace[|trace| - 1];
      var es := Run(bound, before);
      RunBounded(bound, before);
      ApplyAdds(bound, es, op, e);
      if e in es {
        EntriesAreLatest(bound, before, e);
        if !op.Clear? && op.key == e.key {
          WithoutFacts(es, op.key);
          if op.Set? {
            AssignMoves(es, op.key, op.cached);
          }
        }
      }
    }
  }

  /** A cache answer is a miss, or the answer of the dictionary that never evicts. */
  lemma CacheNeverInvents(bound: nat, trace: seq<Op>, key: string, now: real)
    ensures Answer(Run(bound, trace), key, now) in {None, TtlAnswer(trace, key, now)}
    ensures |Run(bound, trace)| <= bound
  {
    RunBounded(bound, trace);
    LookupHasKey(Run(bound, trace), key);
    if Lookup(Run(bound, trace), key).Some? {
      EntriesAreLatest(bound, trace, Entry(key, Lookup(Run(bound, trace), key).value));
    }
  }

  // ---------- When nothing is forgotten ----------

  /** The other keys that were set or hit since `key` was last set or hit. */
  function Overtakers(bound: nat, trace: seq<Op>, key: string): set<string> {
    if trace == [] then {}
    else
      var before, op := trace[..|trace| - 1], trace[|trace| - 1];
      var used := op.Set? || (op.Get? && Answer(Run(bound, before), op.key, op.now).Some?);
      if !used then Overtakers(bound, before, key)
      else if op.key == key then {}
      else Overtakers(bound, before, key) + {op.key}
  }

  /** Keys behind `key` in the dictionary, that is, used more recently. */
  function After(es: seq<Entry>, key: string): set<string> {
    if es == [] then {}
    else if es[0].key == key then set e | e in es[1..] :: e.key
    else After(es[1..], key)
  }

  /** The monotonic clock never goes back. */
  ghost predicate ClockMonotone(trace: seq<Op>) {
    forall i, j :: 0 <= i < j < |trace| && trace[i].Get? && trace[j].Get? ==> trace[i].now <= trace[j].now
  }

  ghost predicate SeenExpired(trace: seq<Op>, c: Cached) {
    exists i :: 0 <= i < |trace| && trace[i].Get? && !Live(c, trace[i].now)
  }

  ghost predicate Kept(es: seq<Entry>, key: string, c: Cached, overtakers: set<string>) {
    Lookup(es, key) == Some(c) && After(es, key) <= overtakers
  }

  lemma {:induction false} AfterWithout(es: seq<Entry>, key: string, other: string)
    requires key != other
    ensures After(Without(es, other), key) <= After(es, key)
  {
    if es != [] {
      AfterWithout(es[1..], key, other);
      WithoutFacts(es[1..], other);
      if es[0].key == other {
        assert Without(es, other) == Without(es[1..], other);
      } else {
        assert Without(es, other)[1..] == Without(es[1..], other);
      }
    }
  }

  lemma {:induction false} AfterAppend(es: seq<Entry>, key: string, e: Entry)
    ensures After(es + [e], key) <= After(es, key) + {e.key}
    ensures Lookup(es, key).None? ==> After(es + [e], key) == {}
  {
    if es != [] {
      assert (es + [e])[1..] == es[1..] + [e];
      AfterAppend(es[1..], key, e);
    }
  }

  lemma {:induction false} KeyCount(es: seq<Entry>)
    requires Unique(es)
    ensures |set e | e in es :: e.key| == |es|
  {
    if es != [] {
      assert Unique(es[1..]);
      KeyCount(es[1..]);
      var rest := set e | e in es[1..] :: e.key;
      assert forall e :: e in es ==> e == es[0] || e in es[1..];
      assert (set e | e in es :: e.key) == {es[0].key} + rest;
    }
  }

  /** Popping the oldest entry loses `key` only if every other entry has overtaken it. */
  lemma TrimKeeps(bound: nat, es: seq<Entry>, key: string, c: Cached, overtakers: set<string>)
    requires Unique(es) && |es| <= bound + 1 && Kept(es, key, c, overtakers) && |overtakers| < bound
    ensures Kept(Trim(bound, es), key, c, overtakers)
  {
    if |es| > bound && es[0].key == key {
      assert Unique(es[1..]);
      KeyCount(es[1..]);
      SubsetSize(After(es, key), overtakers);
    }
  }

  /** Another key used: it lands at the end. */
  lemma UseKeeps(bound: nat, es: seq<Entry>, key: string, c: Cached, other: Entry, overtakers: set<string>)
    requires Unique(es) && |es| <= bound && key != other.key && Kept(es, key, c, overtakers)
    requires |overtakers + {other.key}| < bound
    ensures Kept(Trim(bound, Without(es, other.key) + [other]), key, c, overtakers + {other.key})
  {
    var rest := Without(es, other.key);
    WithoutLookup(es, other.key, key);
    AfterWithout(es, key, other.key);
    LookupAppend(rest, other, key);
    AfterAppend(rest, key, other);
    PutLast(es, other.key, other.cached);
    TrimKeeps(bound, rest + [other], key, c, overtakers + {other.key});
  }

  lemma {:induction false} SubsetSize(a: set<string>, b: set<string>)
    requires a <= b
    ensures |a| <= |b|
  {
    if a != {} {
      var x :| x in a;
      SubsetSize(a - {x}, b - {x});
    }
  }

  /** Setting or hitting `key` itself makes it the most recent. */
  lemma OwnUseKeeps(bound: nat, es: seq<Entry>, key: string, c: Cached)
    requires Unique(es) && |es| <= bound && 0 < bound
    ensures Kept(Trim(bound, Without(es, key) + [Entry(key, c)]), key, c, {})
  {
    var rest := Without(es, key);
    WithoutFacts(es, key);
    WithoutLookup(es, key, key);
    var es' := Trim(bound, rest + [Entry(key, c)]);
    var front := es'[..|es'| - 1];
    assert es' == front + [Entry(key, c)];
    assert forall e :: e in front ==> e in rest;
    LookupHasKey(front, key);
    LookupAppend(front, Entry(key, c), key);
    AfterAppend(front, key, Entry(key, c));
  }

  lemma SeenLater(trace: seq<Op>, c: Cached)
    requires trace != [] && SeenExpired(trace[..|trace| - 1], c)
    ensures SeenExpired(trace, c)
  {
  }

  /** A value that fewer keys than the bound have overtaken is still there, unless a lookup found it expired. */
  lemma {:induction false} KeptUnlessExpired(bound: nat, trace: seq<Op>, key: string)
    requires Latest(trace, key).Some? && |Overtakers(bound, trace, key)| < bound
    ensures var c := Latest(trace, key).value;
            Kept(Run(bound, trace), key, c, Overtakers(bound, trace, key)) || SeenExpired(trace, c)
    decreases |trace|, 1
  {
    var before, op := trace[..|trace| - 1], trace[|trace| - 1];
    var es := Run(bound, before);
    var c := Latest(trace, key).value;
    RunBounded(bound, before);
    if op.Set? && op.key == key {
      AssignMoves(es, key, c);
      OwnUseKeeps(bound, es, key, c);
    } else {
      var seen := Overtakers(bound, before, key);
      if op.Get? && op.key == key {
        KeptAfterOwnGet(bound, trace, key);
      } else {
        SubsetSize(seen, Overtakers(bound, trace, key));
        KeptUnlessExpired(bound, before, key);
        if SeenExpired(before, c) {
          SeenLater(trace, c);
        } else {
          KeptAfterOther(bound, es, key, c, op, seen);
        }
      }
    }
  }

  /** The lookup of `key` itself. */
  lemma {:induction false} KeptAfterOwnGet(bound: nat, trace: seq<Op>, key: string)
    requires trace != [] && var op := trace[|trace| - 1]; op.Get? && op.key == key
    requires Latest(trace, key).Some? && |Overtakers(bound, trace, key)| < bound
    ensures var c := Latest(trace, key).value;
            Kept(Run(bound, trace), key, c, Overtakers(bound, trace, key)) || SeenExpired(trace, c)
    decreases |trace|, 0
  {
    var before, op := trace[..|trace| - 1], trace[|trace| - 1];
    var es := Run(bound, before);
    var c := Latest(trace, key).value;
    RunBounded(bound, before);
    LookupHasKey(es, key);
    if Lookup(es, key).Some? {
      EntriesAreLatest(bound, before, Entry(key, Lookup(es, key).value));
      if Live(c, op.now) {
        OwnUseKeeps(bound, es, key, c);
        WithoutFacts(es, key);
      } else {
        assert trace[|trace| - 1].Get?;
        assert SeenExpired(trace, c);
      }
    } else {
      KeptUnlessExpired(bound, before, key);
      SeenLater(trace, c);
    }
  }

  /** An operation on another key. */
  lemma KeptAfterOther(bound: nat, es: seq<Entry>, key: string, c: Cached, op: Op, seen: set<string>)
    requires Unique(es) && |es| <= bound && Kept(es, key, c, seen) && !op.Clear? && op.key != key
    requires var used := op.Set? || (op.Get? && Answer(es, op.key, op.now).Some?); used ==> |seen + {op.key}| < bound
    ensures var used := op.Set? || (op.Get? && Answer(es, op.key, op.now).Some?);
            Kept(Apply(bound, es, op), key, c, if used then seen + {op.key} else seen)
  {
    WithoutFacts(es, op.key);
    WithoutLookup(es, op.key, key);
    AfterWithout(es, key, op.key);
    if op.Set? {
      AssignMoves(es, op.key, op.cached);
      UseKeeps(bound, es, key, c, Entry(op.key, op.cached), seen);
    } else if op.Get? && Answer(es, op.key, op.now).Some? {
      UseKeeps(bound, es, key, c, Entry(op.key, Lookup(es, op.key).value), seen);
    }
  }

  /**
    The converse: with a clock that never goes back, the answer of the dictionary that
    never evicts is returned if fewer other keys than the bound were set or hit since
    this key was.
  */
  lemma CacheForgetsOnlyOvertaken(bound: nat, trace: seq<Op>, key: string, now: real)
    requires ClockMonotone(trace + [Get(key, now)])
    requires |Overtakers(bound, trace, key)| < bound
    ensures Answer(Run(bound, trace), key, now) == TtlAnswer(trace, key, now)
  {
    CacheNeverInvents(bound, trace, key, now);
    if Latest(trace, key).Some? {
      var c := Latest(trace, key).value;
      KeptUnlessExpired(bound, trace, key);
      if SeenExpired(trace, c) {
        var i :| 0 <= i < |trace| && trace[i].Get? && !Live(c, trace[i].now);
        var all := trace + [Get(key, now)];
        assert all[i].Get? && all[|trace|].Get? && all[i].now <= all[|trace|].now;
      }
    }
  }

  /**
    So, told without the other dictionary: what was last set and not invalidated since is
    answered until its deadline and not from then on, whatever else was asked, as long as fewer
    other keys than the bound were set or hit since.
  */
  lemma AnsweredUntilDeadline(bound: nat, trace: seq<Op>, key: string, now: real, text: string, deadline: Option<real>)
    requires ClockMonotone(trace + [Get(key, now)])
    requires |Overtakers(bound, trace, key)| < bound
    requires Latest(trace, key) == Some(Cached(text, deadline))
    ensures Answer(Run(bound, trace), key, now)
            == if deadline.None? || now < deadline.value then Some(text) else None
  {
    CacheForgetsOnlyOvertaken(bound, trace, key, now);
  }
}
