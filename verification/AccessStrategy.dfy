/**
  The access strategies for subaccount entries, twice: the local store's resolver, which
  searches one list, and the cloud clients' resolver, which asks a fetch function once or twice.
*/
module AccessStrategy {
  import opened Options
  import opened LocalStore
  import Entities

  datatype Strategy = SubscriberOnly | ProviderOnly | SubscriberFirst | ProviderFirst

  /** A result, or one of the two ways in which resolving raises. */
  datatype Outcome<R> = Ok(value: R) | TenantMissing | Malformed

  predicate NeedsTenant(strategy: Strategy) {
    strategy != ProviderOnly
  }

  predicate OfTenant(item: Item, tenant: string) {
    Field(item, "tenant") == Text(tenant)
  }

  // ---------- The local resolver ----------

  function FindByNameAndTenant(n: Naming, lst: seq<Item>, name: string, tenant: string): Option<Item> {
    if lst == [] then None
    else if NameOf(n, lst[0]) == Some(name) && OfTenant(lst[0], tenant) then Some(lst[0])
    else FindByNameAndTenant(n, lst[1..], name, tenant)
  }

  function FindByNameAndNoTenant(n: Naming, lst: seq<Item>, name: string): Option<Item> {
    if lst == [] then None
    else if NameOf(n, lst[0]) == Some(name) && Tenantless(lst[0]) then Some(lst[0])
    else FindByNameAndNoTenant(n, lst[1..], name)
  }

  /** What `from_dict` makes of an entry: an entity, a refusal for missing fields, or another exception. */
  datatype Reading<T> = Good(value: T) | Incomplete | Broken

  function ParsedEntry<T>(parse: Item -> Reading<T>, entry: Option<Item>): Outcome<Option<T>> {
    if entry.None? then Ok(None)
    else if !parse(entry.value).Good? then Malformed
    else Ok(Some(parse(entry.value).value))
  }

  /** The comprehension over the entries that satisfy `keep`; the first malformed one raises. */
  function ParsedWhere<T>(parse: Item -> Reading<T>, keep: Item -> bool, lst: seq<Item>): Outcome<seq<T>> {
    if lst == [] then Ok([])
    else if !keep(lst[0]) then ParsedWhere(parse, keep, lst[1..])
    else if !parse(lst[0]).Good? then Malformed
    else
      var rest := ParsedWhere(parse, keep, lst[1..]);
      if rest.Ok? then Ok([parse(lst[0]).value] + rest.value) else rest
  }

  datatype Side = Subscriber | Provider

  function Order(strategy: Strategy): (order: seq<Side>)
    ensures 1 <= |order| <= 2
  {
    match strategy
    case SubscriberOnly => [Subscriber]
    case ProviderOnly => [Provider]
    case SubscriberFirst => [Subscriber, Provider]
    case ProviderFirst => [Provider, Subscriber]
  }

  function FindOn<T>(n: Naming, parse: Item -> Reading<T>, lst: seq<Item>, name: string, tenant: Option<string>, side: Side)
    : Outcome<Option<T>>
  {
    match side
    case Subscriber =>
      if tenant.None? then Ok(None) else ParsedEntry(parse, FindByNameAndTenant(n, lst, name, tenant.value))
    case Provider => ParsedEntry(parse, FindByNameAndNoTenant(n, lst, name))
  }

  function ListOn<T>(parse: Item -> Reading<T>, lst: seq<Item>, tenant: Option<string>, side: Side): Outcome<seq<T>> {
    match side
    case Subscriber =>
      if tenant.None? then Ok([]) else ParsedWhere(parse, item => OfTenant(item, tenant.value), lst)
    case Provider => ParsedWhere(parse, item => Tenantless(item), lst)
  }

  /** The first side, in order, that finds something. */
  function FirstFound<T>(
    n: Naming, parse: Item -> Reading<T>, lst: seq<Item>, name: string, tenant: Option<string>, order: seq<Side>)
    : Outcome<Option<T>>
  {
    if order == [] then Ok(None)
    else
      var result := FindOn(n, parse, lst, name, tenant, order[0]);
      if result == Ok(None) then FirstFound(n, parse, lst, name, tenant, order[1..]) else result
  }

  function LocalGet<T>(
    n: Naming, parse: Item -> Reading<T>, lst: seq<Item>, name: string, strategy: Strategy, tenant: Option<string>)
    : Outcome<Option<T>>
  {
    if NeedsTenant(strategy) && tenant.None? then TenantMissing
    else FirstFound(n, parse, lst, name, tenant, Order(strategy))
  }

  function LocalList<T>(parse: Item -> Reading<T>, lst: seq<Item>, strategy: Strategy, tenant: Option<string>)
    : Outcome<seq<T>>
  {
    if NeedsTenant(strategy) && tenant.None? then TenantMissing
    else
      var order := Order(strategy);
      var results := ListOn(parse, lst, tenant, order[0]);
      if results == Ok([]) && |order| > 1 then ListOn(parse, lst, tenant, order[1]) else results
  }

  // ---------- The cloud resolver ----------

  function ApplyStrategy<R>(
    strategy: Strategy, tenant: Option<string>, fetch: Option<string> -> Outcome<R>, isEmpty: R -> bool)
    : Outcome<R>
  {
    if NeedsTenant(strategy) && tenant.None? then TenantMissing
    else match strategy
         case SubscriberOnly => fetch(tenant)
         case ProviderOnly => fetch(None)
         case SubscriberFirst =>
           var result := fetch(tenant);
           if result.Ok? && isEmpty(result.value) then fetch(None) else result
         case ProviderFirst =>
           var result := fetch(None);
           if result.Ok? && isEmpty(result.value) then fetch(tenant) else result
  }

  /** What a service shows: a tenant's own entries, or without a tenant those that have none. */
  function Visible(lst: seq<Item>, tenant: Option<string>): seq<Item> {
    if lst == [] then []
    else
      var rest := Visible(lst[1..], tenant);
      if (if tenant.Some? then OfTenant(lst[0], tenant.value) else Tenantless(lst[0])) then [lst[0]] + rest else rest
  }

  function FetchOne<T>(n: Naming, parse: Item -> Reading<T>, lst: seq<Item>, name: string, tenant: Option<string>)
    : Outcome<Option<T>>
  {
    var shown := Visible(lst, tenant);
    var i := IndexOf(n, shown, name);
    ParsedEntry(parse, if i < |shown| then Some(shown[i]) else None)
  }

  /** The list fetch of the fragment and certificate clients, which raises on an entry it cannot parse. */
  function FetchAll<T>(parse: Item -> Reading<T>, lst: seq<Item>, tenant: Option<string>): Outcome<seq<T>> {
    ParsedWhere(parse, item => true, Visible(lst, tenant))
  }

  /** The destination client's list parser skips entries with missing fields; any other exception ends it. */
  function Skipping<T>(parse: Item -> Reading<T>, shown: seq<Item>): (r: Outcome<seq<T>>)
    ensures !r.TenantMissing?
  {
    if shown == [] then Ok([])
    else
      match parse(shown[0])
      case Broken => Malformed
      case Incomplete => Skipping(parse, shown[1..])
      case Good(v) =>
        var rest := Skipping(parse, shown[1..]);
        if rest.Ok? then Ok([v] + rest.value) else rest
  }

  lemma {:induction false} SkippingAppend<T>(parse: Item -> Reading<T>, shown: seq<Item>, e: Item)
    ensures Skipping(parse, shown + [e])
            == if !Skipping(parse, shown).Ok? then Malformed
               else match parse(e)
                    case Broken => Malformed
                    case Incomplete => Skipping(parse, shown)
                    case Good(v) => Ok(Skipping(parse, shown).value + [v])
    decreases |shown|
  {
    if shown == [] {
      assert shown + [e] == [e] && [e][1..] == [];
      if parse(e).Good? {
        var none: seq<T> := [];
        assert [parse(e).value] + none == none + [parse(e).value];
      }
    } else {
      assert (shown + [e])[1..] == shown[1..] + [e];
      SkippingAppend(parse, shown[1..], e);
      var rest := Skipping(parse, shown[1..]);
      if parse(shown[0]).Good? && rest.Ok? && parse(e).Good? {
        assert [parse(shown[0]).value] + (rest.value + [parse(e).value]) == [parse(shown[0]).value] + rest.value + [parse(e).value];
      }
    }
  }

  lemma {:induction false} BrokenStays<T>(parse: Item -> Reading<T>, shown: seq<Item>, k: nat)
    requires k <= |shown| && !Skipping(parse, shown[..k]).Ok?
    ensures Skipping(parse, shown) == Malformed
    decreases |shown| - k
  {
    if k < |shown| {
      SkippingAppend(parse, shown[..k], shown[k]);
      assert shown[..k] + [shown[k]] == shown[..k + 1];
      BrokenStays(parse, shown, k + 1);
    } else {
      assert shown[..k] == shown;
    }
  }

  method ParseDestinations<T>(parse: Item -> Reading<T>, shown: seq<Item>) returns (r: Outcome<seq<T>>)
    ensures r == Skipping(parse, shown)
  {
    var destinations := [];
    for i := 0 to |shown|
      invariant Skipping(parse, shown[..i]) == Ok(destinations)
    {
      SkippingAppend(parse, shown[..i], shown[i]);
      assert shown[..i] + [shown[i]] == shown[..i + 1];
      match parse(shown[i])
      case Good(v) => destinations := destinations + [v];
      case Incomplete =>
      case Broken =>
        BrokenStays(parse, shown, i + 1);
        return Malformed;
    }
    assert shown[..|shown|] == shown;
    return Ok(destinations);
  }

  function FetchSkipping<T>(parse: Item -> Reading<T>, lst: seq<Item>, tenant: Option<string>): Outcome<seq<T>> {
    Skipping(parse, Visible(lst, tenant))
  }

  // ---------- The two agree ----------

  lemma {:induction false} FindIsFetch(n: Naming, lst: seq<Item>, name: string, tenant: Option<string>)
    ensures var shown := Visible(lst, tenant);
            var i := IndexOf(n, shown, name);
            (if tenant.Some? then FindByNameAndTenant(n, lst, name, tenant.value) else FindByNameAndNoTenant(n, lst, name))
            == if i < |shown| then Some(shown[i]) else None
    decreases |lst|
  {
    if lst != [] {
      FindIsFetch(n, lst[1..], name, tenant);
      var shown, rest := Visible(lst, tenant), Visible(lst[1..], tenant);
      if shown != rest {
        assert shown[0] == lst[0] && shown[1..] == rest;
      }
    }
  }

  lemma {:induction false} WhereIsFetch<T>(parse: Item -> Reading<T>, keep: Item -> bool, lst: seq<Item>, tenant: Option<string>)
    requires forall item :: keep(item) == if tenant.Some? then OfTenant(item, tenant.value) else Tenantless(item)
    ensures ParsedWhere(parse, keep, lst) == FetchAll(parse, lst, tenant)
    decreases |lst|
  {
    if lst != [] {
      WhereIsFetch(parse, keep, lst[1..], tenant);
      var shown, rest := Visible(lst, tenant), Visible(lst[1..], tenant);
      if keep(lst[0]) {
        assert shown[0] == lst[0] && shown[1..] == rest;
      }
    }
  }

  lemma SideIsFetch<T>(n: Naming, parse: Item -> Reading<T>, lst: seq<Item>, name: string, tenant: Option<string>)
    ensures tenant.Some? ==>
              && FindOn(n, parse, lst, name, tenant, Subscriber) == FetchOne(n, parse, lst, name, tenant)
              && ListOn(parse, lst, tenant, Subscriber) == FetchAll(parse, lst, tenant)
    ensures FindOn(n, parse, lst, name, tenant, Provider) == FetchOne(n, parse, lst, name, None)
    ensures ListOn(parse, lst, tenant, Provider) == FetchAll(parse, lst, None)
  {
    FindIsFetch(n, lst, name, tenant);
    FindIsFetch(n, lst, name, None);
    WhereIsFetch(parse, item => Tenantless(item), lst, None);
    if tenant.Some? {
      WhereIsFetch(parse, item => OfTenant(item, tenant.value), lst, tenant);
    }
  }

  lemma FirstFoundUnrolled<T>(
    n: Naming, parse: Item -> Reading<T>, lst: seq<Item>, name: string, tenant: Option<string>, order: seq<Side>)
    requires 1 <= |order| <= 2
    ensures FirstFound(n, parse, lst, name, tenant, order)
            == var first := FindOn(n, parse, lst, name, tenant, order[0]);
               if first == Ok(None) && |order| == 2 then FindOn(n, parse, lst, name, tenant, order[1]) else first
  {
  }

  /** For every list, name, tenant and strategy: the same entity, the same refusal, the same failure. */
  lemma SameEntity<T>(
    n: Naming, parse: Item -> Reading<T>, lst: seq<Item>, name: string, strategy: Strategy, tenant: Option<string>)
    ensures LocalGet(n, parse, lst, name, strategy, tenant)
            == ApplyStrategy(strategy, tenant, t => FetchOne(n, parse, lst, name, t), (r: Option<T>) => r.None?)
  {
    if !NeedsTenant(strategy) || tenant.Some? {
      FirstFoundUnrolled(n, parse, lst, name, tenant, Order(strategy));
      SideIsFetch(n, parse, lst, name, tenant);
    }
  }

  /** And the same list, from a client whose list fetch raises where the local one does. */
  lemma SameList<T>(parse: Item -> Reading<T>, lst: seq<Item>, strategy: Strategy, tenant: Option<string>)
    ensures LocalList(parse, lst, strategy, tenant)
            == ApplyStrategy(strategy, tenant, t => FetchAll(parse, lst, t), (r: seq<T>) => |r| == 0)
  {
    SideIsFetch(Naming("name", None), parse, lst, "", tenant);
  }

  // ---------- Where the destination lists agree ----------

  ghost predicate AnyGood<T>(parse: Item -> Reading<T>, shown: seq<Item>) {
    exists e :: e in shown && parse(e).Good?
  }

  ghost predicate AnyIncomplete<T>(parse: Item -> Reading<T>, shown: seq<Item>) {
    exists e :: e in shown && parse(e).Incomplete?
  }

  ghost predicate AnyBroken<T>(parse: Item -> Reading<T>, shown: seq<Item>) {
    exists e :: e in shown && parse(e).Broken?
  }

  /** What raising and skipping make of the same entries. */
  lemma {:induction false} RaisingAndSkipping<T>(parse: Item -> Reading<T>, shown: seq<Item>)
    ensures var raising, skipping := ParsedWhere(parse, item => true, shown), Skipping(parse, shown);
            && !raising.TenantMissing? && !skipping.TenantMissing?
            && (raising.Malformed? <==> AnyBroken(parse, shown) || AnyIncomplete(parse, shown))
            && (raising == Ok([]) <==> shown == [])
            && (skipping.Malformed? <==> AnyBroken(parse, shown))
            && (skipping == Ok([]) <==> !AnyBroken(parse, shown) && !AnyGood(parse, shown))
            && (raising == skipping <==> AnyBroken(parse, shown) || !AnyIncomplete(parse, shown))
    decreases |shown|
  {
    if shown != [] {
      RaisingAndSkipping(parse, shown[1..]);
      assert forall e :: e in shown <==> e == shown[0] || e in shown[1..];
      RestOf(parse, shown);
    }
  }

  lemma RestOf<T>(parse: Item -> Reading<T>, shown: seq<Item>)
    requires shown != []
    ensures AnyGood(parse, shown) <==> parse(shown[0]).Good? || AnyGood(parse, shown[1..])
    ensures AnyIncomplete(parse, shown) <==> parse(shown[0]).Incomplete? || AnyIncomplete(parse, shown[1..])
    ensures AnyBroken(parse, shown) <==> parse(shown[0]).Broken? || AnyBroken(parse, shown[1..])
  {
  }

  function ViewOn(lst: seq<Item>, tenant: Option<string>, side: Side): seq<Item> {
    Visible(lst, if side.Subscriber? then tenant else None)
  }

  /** Nothing on view would be skipped, or something ends the parsing anyway. */
  ghost predicate SkipsNothing<T>(parse: Item -> Reading<T>, shown: seq<Item>) {
    AnyIncomplete(parse, shown) ==> AnyBroken(parse, shown)
  }

  ghost predicate ListsAgree<T>(parse: Item -> Reading<T>, preferred: seq<Item>, other: Option<seq<Item>>) {
    if preferred == [] && other.Some? then SkipsNothing(parse, other.value)
    else
      || SkipsNothing(parse, preferred)
      || (other.Some? && !AnyGood(parse, preferred) && AnyBroken(parse, other.value))
  }

  function OtherView(lst: seq<Item>, strategy: Strategy, tenant: Option<string>): Option<seq<Item>> {
    if |Order(strategy)| == 1 then None else Some(ViewOn(lst, tenant, Order(strategy)[1]))
  }

  /** The local store raises on an entry with missing fields where the destination client skips it. */
  lemma DestinationListsAgreeExactly<T>(parse: Item -> Reading<T>, lst: seq<Item>, strategy: Strategy, tenant: Option<string>)
    requires !NeedsTenant(strategy) || tenant.Some?
    ensures LocalList(parse, lst, strategy, tenant)
            == ApplyStrategy(strategy, tenant, t => FetchSkipping(parse, lst, t), (r: seq<T>) => |r| == 0)
            <==> ListsAgree(parse, ViewOn(lst, tenant, Order(strategy)[0]), OtherView(lst, strategy, tenant))
  {
    SideIsFetch(Naming("name", None), parse, lst, "", tenant);
    RaisingAndSkipping(parse, Visible(lst, tenant));
    RaisingAndSkipping(parse, Visible(lst, None));
  }

  /**
    So where parsing refuses for missing fields only, the lists agree exactly if every entry on
    the preferred side parses and, where that side shows none, every entry on the other one.
  */
  lemma ParsableListsAgree<T>(parse: Item -> Reading<T>, lst: seq<Item>, strategy: Strategy, tenant: Option<string>)
    requires !NeedsTenant(strategy) || tenant.Some?
    requires forall e :: e in lst ==> !parse(e).Broken?
    ensures var preferred, other := ViewOn(lst, tenant, Order(strategy)[0]), OtherView(lst, strategy, tenant);
            LocalList(parse, lst, strategy, tenant)
            == ApplyStrategy(strategy, tenant, t => FetchSkipping(parse, lst, t), (r: seq<T>) => |r| == 0)
            <==> && (forall e :: e in preferred ==> parse(e).Good?)
                 && (preferred == [] && other.Some? ==> forall e :: e in other.value ==> parse(e).Good?)
  {
    DestinationListsAgreeExactly(parse, lst, strategy, tenant);
    ViewsAreEntries(lst, tenant);
    ViewsAreEntries(lst, None);
  }

  lemma ViewsAreEntries(lst: seq<Item>, tenant: Option<string>)
    ensures forall e :: e in Visible(lst, tenant) ==> e in lst
  {
  }

  // ---------- Destinations as entries ----------

  function AsJson(v: Value): Entities.Json {
    match v
    case Null => Entities.Null
    case Text(t) => Entities.Text(t)
    case LabelList(ls) => Entities.Other(ls != [])
    case Other(b) => Entities.Other(b)
  }

  function ReadDestination(item: Item): Reading<Entities.Destination> {
    match Entities.FromDict(map k | k in item :: AsJson(item[k]))
    case Ok(d) => Good(d)
    case MissingFields => Incomplete
    case NotText => Broken
  }

  /** A provider destination without a type: the local store raises, the destination client lists nothing. */
  lemma TypelessDestination()
    ensures var lst := [map["Name" := Text("a")]];
            && LocalList(ReadDestination, lst, ProviderOnly, None) == Malformed
            && ApplyStrategy(ProviderOnly, None, t => FetchSkipping(ReadDestination, lst, t),
                             (r: seq<Entities.Destination>) => |r| == 0) == Ok([])
  {
  }

  // ---------- What the policy guarantees ----------

  /** May an entry be handed out under this strategy to this tenant? */
  ghost predicate Reachable(strategy: Strategy, tenant: Option<string>, item: Item) {
    || (strategy != SubscriberOnly && Lacks(item, "tenant"))
    || (strategy != ProviderOnly && tenant.Some? && "tenant" in item && item["tenant"] == Text(tenant.value))
  }

  lemma EntryTold(n: Naming, item: Item, name: string)
    ensures NameOf(n, item) == Some(name) <==> Named(n, item, name)
    ensures Tenantless(item) <==> Lacks(item, "tenant")
  {
    NameOfTold(n, item, name);
    LacksTold(item, "tenant");
  }

  lemma {:induction false} FoundAreEntries(n: Naming, lst: seq<Item>, name: string, tenant: string)
    ensures var e := FindByNameAndTenant(n, lst, name, tenant);
            && (e.Some? ==> e.value in lst && NameOf(n, e.value) == Some(name) && OfTenant(e.value, tenant))
            && (e.None? ==> forall x :: x in lst && NameOf(n, x) == Some(name) ==> !OfTenant(x, tenant))
    ensures var e := FindByNameAndNoTenant(n, lst, name);
            && (e.Some? ==> e.value in lst && NameOf(n, e.value) == Some(name) && Tenantless(e.value))
            && (e.None? ==> forall x :: x in lst && NameOf(n, x) == Some(name) ==> !Tenantless(x))
    decreases |lst|
  {
    if lst != [] {
      FoundAreEntries(n, lst[1..], name, tenant);
      assert forall x :: x in lst <==> x == lst[0] || x in lst[1..];
    }
  }

  /**
    A lookup never hands out another tenant's entry; and it comes back empty-handed exactly
    when no entry of that name is reachable.
  */
  lemma ResolvesReachable<T>(
    n: Naming, parse: Item -> Reading<T>, lst: seq<Item>, name: string, strategy: Strategy, tenant: Option<string>)
    ensures var r := LocalGet(n, parse, lst, name, strategy, tenant);
            && (r == TenantMissing <==> strategy != ProviderOnly && tenant.None?)
            && (r.Ok? && r.value.Some? ==>
                  exists e :: e in lst && Named(n, e, name) && Reachable(strategy, tenant, e) && parse(e) == Good(r.value.value))
            && (r != TenantMissing ==>
                  (r == Ok(None) <==> forall e :: e in lst && Named(n, e, name) ==> !Reachable(strategy, tenant, e)))
  {
    forall e | e in lst
      ensures NameOf(n, e) == Some(name) <==> Named(n, e, name)
      ensures Tenantless(e) <==> Lacks(e, "tenant")
    {
      EntryTold(n, e, name);
    }
    FoundAreEntries(n, lst, name, if tenant.Some? then tenant.value else "");
    FirstFoundUnrolled(n, parse, lst, name, tenant, Order(strategy));
  }

  /** The entry at place i is the first of the name on that side. */
  ghost predicate FirstOn(n: Naming, lst: seq<Item>, name: string, side: Side, tenant: string, i: nat) {
    && i < |lst| && OnSide(n, lst[i], name, side, tenant)
    && forall j :: 0 <= j < i ==> !OnSide(n, lst[j], name, side, tenant)
  }

  ghost predicate OnSide(n: Naming, e: Item, name: string, side: Side, tenant: string) {
    Named(n, e, name) && if side.Subscriber? then "tenant" in e && e["tenant"] == Text(tenant) else Lacks(e, "tenant")
  }

  lemma {:induction false} FindsFirst(n: Naming, lst: seq<Item>, name: string, side: Side, tenant: string, i: nat)
    requires FirstOn(n, lst, name, side, tenant, i)
    ensures (if side.Subscriber? then FindByNameAndTenant(n, lst, name, tenant) else FindByNameAndNoTenant(n, lst, name)) == Some(lst[i])
    decreases i
  {
    EntryTold(n, lst[0], name);
    assert OnSide(n, lst[0], name, side, tenant) <==> i == 0;
    if i > 0 {
      assert forall j :: 0 <= j < |lst| - 1 ==> lst[1..][j] == lst[j + 1];
      FindsFirst(n, lst[1..], name, side, tenant, i - 1);
    }
  }

  /** On one side the first entry of the name decides: the entity it parses to, or a failure where it does not parse. */
  lemma FirstEntryDecides<T>(
    n: Naming, parse: Item -> Reading<T>, lst: seq<Item>, name: string, side: Side, tenant: string, i: nat)
    requires FirstOn(n, lst, name, side, tenant, i)
    ensures LocalGet(n, parse, lst, name, if side.Subscriber? then SubscriberOnly else ProviderOnly, Some(tenant))
            == match parse(lst[i]) case Good(v) => Ok(Some(v)) case _ => Malformed
  {
    FindsFirst(n, lst, name, side, tenant, i);
    FirstFoundUnrolled(n, parse, lst, name, Some(tenant), if side.Subscriber? then [Subscriber] else [Provider]);
  }

  ghost predicate HasEntry(n: Naming, lst: seq<Item>, name: string, side: Side, tenant: string) {
    exists e :: e in lst && NameOf(n, e) == Some(name) && if side.Subscriber? then OfTenant(e, tenant) else Tenantless(e)
  }

  /** The preferred side decides wherever it has an entry of that name, and only there. */
  lemma PreferredSideWins<T>(n: Naming, parse: Item -> Reading<T>, lst: seq<Item>, name: string, tenant: string)
    ensures LocalGet(n, parse, lst, name, SubscriberFirst, Some(tenant))
            == LocalGet(n, parse, lst, name, if HasEntry(n, lst, name, Subscriber, tenant) then SubscriberOnly else ProviderOnly,
                        Some(tenant))
    ensures LocalGet(n, parse, lst, name, ProviderFirst, Some(tenant))
            == LocalGet(n, parse, lst, name, if HasEntry(n, lst, name, Provider, tenant) then ProviderOnly else SubscriberOnly,
                        Some(tenant))
  {
    FoundAreEntries(n, lst, name, tenant);
    FirstFoundUnrolled(n, parse, lst, name, Some(tenant), Order(SubscriberFirst));
    FirstFoundUnrolled(n, parse, lst, name, Some(tenant), Order(ProviderFirst));
    FirstFoundUnrolled(n, parse, lst, name, Some(tenant), Order(SubscriberOnly));
    FirstFoundUnrolled(n, parse, lst, name, Some(tenant), Order(ProviderOnly));
  }

  lemma {:induction false} NothingKept<T>(parse: Item -> Reading<T>, keep: Item -> bool, lst: seq<Item>)
    ensures ParsedWhere(parse, keep, lst) == Ok([]) <==> forall e :: e in lst ==> !keep(e)
    decreases |lst|
  {
    if lst != [] {
      NothingKept(parse, keep, lst[1..]);
      assert forall e :: e in lst <==> e == lst[0] || e in lst[1..];
    }
  }

  /** The results stand for the entries at these places: in order, exactly those kept, each what it parses to. */
  ghost predicate ParsedAt<T>(parse: Item -> Reading<T>, keep: Item -> bool, lst: seq<Item>, results: seq<T>, places: seq<nat>) {
    && |places| == |results|
    && (forall i, j :: 0 <= i < j < |places| ==> places[i] < places[j])
    && (forall i :: 0 <= i < |places| ==> places[i] < |lst| && parse(lst[places[i]]) == Good(results[i]))
    && (forall k :: 0 <= k < |lst| ==> (k in places <==> keep(lst[k])))
  }

  /** The same places in a list that has one entry more in front. */
  function Later(places: seq<nat>): seq<nat> {
    seq(|places|, i requires 0 <= i < |places| => places[i] + 1)
  }

  lemma LaterPlaces(places: seq<nat>, k: nat)
    ensures k in Later(places) <==> k > 0 && k - 1 in places
  {
    if k > 0 && k - 1 in places {
      var i :| 0 <= i < |places| && places[i] == k - 1;
      assert Later(places)[i] == k;
    }
  }

  lemma LeftOut<T>(parse: Item -> Reading<T>, keep: Item -> bool, lst: seq<Item>, results: seq<T>, rest: seq<nat>)
    requires lst != [] && ParsedAt(parse, keep, lst[1..], results, rest) && !keep(lst[0])
    ensures ParsedAt(parse, keep, lst, results, Later(rest))
  {
    forall k | 0 <= k < |lst|
      ensures k in Later(rest) <==> keep(lst[k])
    {
      LaterPlaces(rest, k);
      assert k > 0 ==> lst[k] == lst[1..][k - 1];
    }
  }

  lemma Taken<T>(parse: Item -> Reading<T>, keep: Item -> bool, lst: seq<Item>, results: seq<T>, rest: seq<nat>, v: T)
    requires lst != [] && ParsedAt(parse, keep, lst[1..], results, rest) && keep(lst[0]) && parse(lst[0]) == Good(v)
    ensures ParsedAt(parse, keep, lst, [v] + results, [0] + Later(rest))
  {
    var places, all := [0] + Later(rest), [v] + results;
    forall i, j | 0 <= i < j < |places|
      ensures places[i] < places[j]
    {
      assert places[j] == rest[j - 1] + 1 && (i > 0 ==> places[i] == rest[i - 1] + 1);
    }
    forall i | 0 <= i < |places|
      ensures places[i] < |lst| && parse(lst[places[i]]) == Good(all[i])
    {
      if i > 0 {
        assert places[i] == rest[i - 1] + 1 && all[i] == results[i - 1];
        assert lst[places[i]] == lst[1..][rest[i - 1]];
      }
    }
    forall k | 0 <= k < |lst|
      ensures k in places <==> keep(lst[k])
    {
      FrontPlace(rest, k);
      assert k > 0 ==> lst[k] == lst[1..][k - 1];
    }
  }

  lemma FrontPlace(rest: seq<nat>, k: nat)
    ensures k in [0] + Later(rest) <==> k == 0 || k - 1 in rest
  {
    LaterPlaces(rest, k);
    var places := [0] + Later(rest);
    assert places[0] == 0;
  }

  lemma {:induction false} WherePlaces<T>(parse: Item -> Reading<T>, keep: Item -> bool, lst: seq<Item>) returns (places: seq<nat>)
    ensures ParsedWhere(parse, keep, lst).Ok? ==> ParsedAt(parse, keep, lst, ParsedWhere(parse, keep, lst).value, places)
    ensures ParsedWhere(parse, keep, lst).Ok? <==> forall e :: e in lst && keep(e) ==> parse(e).Good?
    ensures !ParsedWhere(parse, keep, lst).TenantMissing?
    decreases |lst|
  {
    places := [];
    if lst != [] {
      var rest := WherePlaces(parse, keep, lst[1..]);
      assert forall e :: e in lst <==> e == lst[0] || e in lst[1..];
      if ParsedWhere(parse, keep, lst).Ok? {
        var results := ParsedWhere(parse, keep, lst[1..]).value;
        if keep(lst[0]) {
          Taken(parse, keep, lst, results, rest, parse(lst[0]).value);
          places := [0] + Later(rest);
        } else {
          LeftOut(parse, keep, lst, results, rest);
          places := Later(rest);
        }
      }
    }
  }

  /** On one side a list holds, in order, what exactly the entries of that side parse to; it fails exactly if one of them does not. */
  lemma OneSideLists<T>(parse: Item -> Reading<T>, lst: seq<Item>, side: Side, tenant: string) returns (places: seq<nat>)
    ensures var keep := (e: Item) => if side.Subscriber? then "tenant" in e && e["tenant"] == Text(tenant) else Lacks(e, "tenant");
            var r := LocalList(parse, lst, if side.Subscriber? then SubscriberOnly else ProviderOnly, Some(tenant));
            && (r.Ok? ==> ParsedAt(parse, keep, lst, r.value, places))
            && (r == Malformed <==> exists e :: e in lst && keep(e) && !parse(e).Good?)
  {
    forall e: Item
      ensures Tenantless(e) <==> Lacks(e, "tenant")
    {
      LacksTold(e, "tenant");
    }
    if side.Subscriber? {
      places := WherePlaces(parse, item => OfTenant(item, tenant), lst);
    } else {
      places := WherePlaces(parse, item => Tenantless(item), lst);
    }
  }

  /** So for lists, with any entry at all on the preferred side. */
  lemma PreferredListWins<T>(parse: Item -> Reading<T>, lst: seq<Item>, tenant: string)
    ensures LocalList(parse, lst, SubscriberFirst, Some(tenant))
            == LocalList(parse, lst, if exists e :: e in lst && OfTenant(e, tenant) then SubscriberOnly else ProviderOnly, Some(tenant))
    ensures LocalList(parse, lst, ProviderFirst, Some(tenant))
            == LocalList(parse, lst, if exists e :: e in lst && Tenantless(e) then ProviderOnly else SubscriberOnly, Some(tenant))
  {
    NothingKept(parse, item => OfTenant(item, tenant), lst);
    NothingKept(parse, item => Tenantless(item), lst);
    WhereIsFetch(parse, item => OfTenant(item, tenant), lst, Some(tenant));
    SideIsFetch(Naming("name", None), parse, lst, "", Some(tenant));
  }

  // ---------- Tenant-less and per-tenant entries ----------

  /** The entries shown to the provider, then those shown to each of the tenants. */
  function AllViews(lst: seq<Item>, tenants: seq<string>): seq<Item> {
    if tenants == [] then Visible(lst, None)
    else AllViews(lst, tenants[..|tenants| - 1]) + Visible(lst, Some(tenants[|tenants| - 1]))
  }

  function Views(item: Item, tenants: seq<string>): nat {
    if tenants == [] then if Tenantless(item) then 1 else 0
    else Views(item, tenants[..|tenants| - 1]) + if OfTenant(item, tenants[|tenants| - 1]) then 1 else 0
  }

  lemma {:induction false} ViewsOfFirst(lst: seq<Item>, tenants: seq<string>)
    requires lst != []
    ensures multiset(AllViews(lst, tenants))
            == multiset(AllViews(lst[1..], tenants)) + multiset{}[lst[0] := Views(lst[0], tenants)]
    decreases |tenants|
  {
    if tenants != [] {
      ViewsOfFirst(lst, tenants[..|tenants| - 1]);
    }
  }

  /** An entry with tenant t is in t's view once, if t is among the tenants. */
  lemma {:induction false} ViewedOnce(item: Item, tenants: seq<string>)
    requires forall i, j :: 0 <= i < j < |tenants| ==> tenants[i] != tenants[j]
    requires "" !in tenants
    ensures Views(item, tenants)
            == if Tenantless(item) then 1
               else if Field(item, "tenant").Text? && Field(item, "tenant").text in tenants then 1 else 0
    decreases |tenants|
  {
    if tenants != [] {
      var before, last := tenants[..|tenants| - 1], tenants[|tenants| - 1];
      ViewedOnce(item, before);
      assert forall t :: t in tenants <==> t in before || t == last;
      assert last !in before;
    }
  }

  /** With no empty tenant name, the views share the list out: every entry is in exactly one. */
  lemma {:induction false} ViewsPartition(lst: seq<Item>, tenants: seq<string>)
    requires forall i, j :: 0 <= i < j < |tenants| ==> tenants[i] != tenants[j]
    requires "" !in tenants
    requires forall e :: e in lst && !Tenantless(e) ==> Field(e, "tenant").Text? && Field(e, "tenant").text in tenants
    ensures multiset(AllViews(lst, tenants)) == multiset(lst)
    decreases |lst|
  {
    if lst == [] {
      NothingToView(tenants);
    } else {
      ViewsPartition(lst[1..], tenants);
      ViewsOfFirst(lst, tenants);
      ViewedOnce(lst[0], tenants);
      assert lst == [lst[0]] + lst[1..];
    }
  }

  lemma {:induction false} NothingToView(tenants: seq<string>)
    ensures AllViews([], tenants) == []
    decreases |tenants|
  {
    if tenants != [] {
      NothingToView(tenants[..|tenants| - 1]);
    }
  }

  lemma {:induction false} VisibleMembers(lst: seq<Item>, tenant: Option<string>, e: Item)
    ensures e in Visible(lst, tenant)
            <==> e in lst && (if tenant.Some? then OfTenant(e, tenant.value) else Tenantless(e))
    decreases |lst|
  {
    if lst != [] {
      VisibleMembers(lst[1..], tenant, e);
    }
  }

  /** A tenant's view overlaps the provider's exactly for the empty tenant name, over entries that carry it. */
  lemma OverlapExactly(lst: seq<Item>, tenant: string)
    ensures (exists e :: e in Visible(lst, Some(tenant)) && e in Visible(lst, None))
            <==> tenant == "" && exists e :: e in lst && OfTenant(e, "")
  {
    if e :| tenant == "" && e in lst && OfTenant(e, "") {
      VisibleMembers(lst, Some(tenant), e);
      VisibleMembers(lst, None, e);
    }
    if e :| e in Visible(lst, Some(tenant)) && e in Visible(lst, None) {
      VisibleMembers(lst, Some(tenant), e);
      VisibleMembers(lst, None, e);
      assert tenant == "";
    }
  }
}
