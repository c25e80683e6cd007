/** The collector registry and the planner that closes a selection under dependencies. */
module CollectorPlan {
  import opened Options

  /** conditional is "" for an entry that depends on no feature. */
  datatype Entry = Entry(id: string, weight: int, timeoutSeconds: int, required: bool, conditional: string,
                         channels: seq<string>, dependencies: seq<string>)

  predicate UniqueIds(registry: seq<Entry>) {
    forall i, j :: 0 <= i < j < |registry| ==> registry[i].id != registry[j].id
  }

  predicate KnownDependencies(registry: seq<Entry>) {
    forall e, d :: e in registry && d in e.dependencies ==> d in Ids(registry)
  }

  predicate PositiveNumbers(registry: seq<Entry>) {
    forall e :: e in registry ==> e.weight > 0 && e.timeoutSeconds > 0
  }

  predicate ValidRegistry(registry: seq<Entry>) {
    registry != [] && UniqueIds(registry) && PositiveNumbers(registry) && KnownDependencies(registry)
  }

  function Ids(registry: seq<Entry>): set<string> { set e | e in registry :: e.id }

  method LoadRegistry(collectors: seq<Entry>) returns (ok: bool)
    ensures ok <==> ValidRegistry(collectors)
  {
    if collectors == [] { return false; }
    var seen := {};
    for i := 0 to |collectors|
      invariant seen == Ids(collectors[..i])
      invariant UniqueIds(collectors[..i]) && PositiveNumbers(collectors[..i])
    {
      var item := collectors[i];
      assert item in collectors && item in collectors[..i + 1];
      if item.id in seen {
        var j :| 0 <= j < i && collectors[j].id == item.id;
        return false;
      }
      seen := seen + {item.id};
      assert collectors[..i + 1] == collectors[..i] + [item];
      if item.weight <= 0 || item.timeoutSeconds <= 0 { return false; }
    }
    assert collectors[..|collectors|] == collectors;
    for i := 0 to |collectors|
      invariant forall k, d :: 0 <= k < i && d in collectors[k].dependencies ==> d in seen
    {
      var unknown := (set d | d in collectors[i].dependencies) - seen;
      if unknown != {} {
        var d :| d in unknown;
        assert collectors[i] in collectors;
        return false;
      }
    }
    return true;
  }

  // ---- selections --------------------------------------------------------------------------------------

  predicate Offered(e: Entry, channel: string, features: map<string, bool>) {
    channel in e.channels
    && (e.conditional == "" || (e.conditional in features && features[e.conditional]))
  }

  function ChannelIds(registry: seq<Entry>, channel: string, features: map<string, bool>): set<string> {
    set e | e in registry && Offered(e, channel, features) :: e.id
  }

  function RequiredIds(registry: seq<Entry>, channelIds: set<string>): set<string> {
    set e | e in registry && e.required && e.id in channelIds :: e.id
  }

  function BaseSelection(channelIds: set<string>, required: set<string>, included: set<string>,
                         excluded: set<string>): set<string> {
    (if included == {} then channelIds else required + included * channelIds) - excluded
  }

  ghost predicate Closed(registry: seq<Entry>, s: set<string>) {
    forall e, d :: e in registry && e.id in s && d in e.dependencies ==> d in s
  }

  /** s is the smallest set that contains the base and every dependency of its members. */
  ghost predicate LeastClosure(registry: seq<Entry>, base: set<string>, s: set<string>) {
    base <= s && Closed(registry, s) && forall t :: base <= t && Closed(registry, t) ==> s <= t
  }

  /** x belongs to every closed set around the base. */
  ghost predicate InClosure(registry: seq<Entry>, base: set<string>, x: string) {
    forall t :: base <= t && Closed(registry, t) ==> x in t
  }

  function PlanOf(registry: seq<Entry>, s: set<string>): seq<Entry> {
    if registry == [] then []
    else (if registry[0].id in s then [registry[0]] else []) + PlanOf(registry[1..], s)
  }

  datatype PlanError = UnknownCollectors | CollectorsUnavailable | RequiredExcluded
                     | DependencyUnavailable(id: string) | DependencyExcluded(id: string) | DependencyCycle

  // ---- the planner -------------------------------------------------------------------------------------

  class Planner {
    const registry: seq<Entry>
    const channelIds: set<string>
    const excluded: set<string>
    var selected: set<string>

    constructor (registry: seq<Entry>, channelIds: set<string>, excluded: set<string>, base: set<string>)
      ensures this.registry == registry && this.channelIds == channelIds && this.excluded == excluded
                && selected == base
    {
      this.registry, this.channelIds, this.excluded, selected := registry, channelIds, excluded, base;
    }

    ghost predicate Valid()
      reads this
    {
      UniqueIds(registry) && channelIds <= Ids(registry) && selected <= channelIds - excluded
    }

    /** The dependencies of every id in s are selected. */
    ghost predicate Satisfied(s: set<string>)
      reads this
    {
      forall e, d :: e in registry && e.id in s && d in e.dependencies ==> d in selected
    }

    /** Every closed set around `start` holds all that is selected, and also the dependency an error names. */
    ghost predicate Forced(start: set<string>, error: Option<PlanError>)
      reads this
    {
      forall t :: start <= t && Closed(registry, t) ==>
        selected <= t
        && (error.Some? && (error.value.DependencyUnavailable? || error.value.DependencyExcluded?) ==>
             error.value.id in t)
    }

    ghost predicate Justified(error: PlanError) {
      match error
      case DependencyUnavailable(id) => id !in channelIds
      case DependencyExcluded(id) => id in channelIds && id in excluded
      case DependencyCycle => true
      case _ => false
    }

    method AddDependencies(id: string, trail: seq<string>) returns (error: Option<PlanError>)
      requires Valid() && id in selected
      modifies this
      decreases channelIds - selected
      ensures Valid() && old(selected) <= selected
      ensures error == None ==> Satisfied({id} + (selected - old(selected)))
      ensures error.Some? ==> Justified(error.value)
      ensures Forced(old(selected), error)
      ensures (forall x :: x in trail ==> x in old(selected)) && id !in trail ==> error != Some(DependencyCycle)
    {
      if id in trail { return Some(DependencyCycle); }
      var entry :| entry in registry && entry.id == id;
      assert forall e :: e in registry && e.id == id ==> e == entry;
      for i := 0 to |entry.dependencies|
        invariant Valid() && old(selected) <= selected
        invariant forall j :: 0 <= j < i ==> entry.dependencies[j] in selected
        invariant Satisfied(selected - old(selected))
        invariant Forced(old(selected), None)
      {
        var dependency := entry.dependencies[i];
        assert dependency in entry.dependencies;
        if dependency !in channelIds { return Some(DependencyUnavailable(dependency)); }
        if dependency in excluded { return Some(DependencyExcluded(dependency)); }
        if dependency !in selected {
          ghost var before := selected;
          selected := selected + {dependency};
          label Added:
          error := AddDependencies(dependency, trail + [id]);
          if error.Some? { return; }
          assert selected - old(selected) <= (before - old(selected))
                                             + ({dependency} + (selected - old@Added(selected)));
        }
      }
      return None;
    }
  }

  /** What the selection starts from, before dependencies. */
  function Base(registry: seq<Entry>, channel: string, features: map<string, bool>,
                included: set<string>, excluded: set<string>): set<string>
  {
    var channelIds := ChannelIds(registry, channel, features);
    BaseSelection(channelIds, RequiredIds(registry, channelIds), included, excluded)
  }

  /** What the selection starts from: without an include list all that the channel offers, else the required and the
      included of these; never what is excluded. A collector is offered if its channel list names the channel and the
      feature it depends on, if any, is on. */
  lemma SelectionExactly(registry: seq<Entry>, channel: string, features: map<string, bool>, included: set<string>,
                         excluded: set<string>, id: string)
    requires UniqueIds(registry)
    ensures id in ChannelIds(registry, channel, features) <==>
            exists e :: e in registry && e.id == id && channel in e.channels
                        && (e.conditional != "" ==> e.conditional in features && features[e.conditional])
    ensures id in RequiredIds(registry, ChannelIds(registry, channel, features)) <==>
            exists e :: e in registry && e.id == id && channel in e.channels && e.required
                        && (e.conditional != "" ==> e.conditional in features && features[e.conditional])
    ensures id in Base(registry, channel, features, included, excluded) <==>
            exists e :: e in registry && e.id == id && channel in e.channels && id !in excluded
                        && (e.conditional != "" ==> e.conditional in features && features[e.conditional])
                        && (included != {} ==> e.required || id in included)
  {
    forall e, other | e in registry && other in registry && e.id == other.id ensures e == other {}
  }

  /** The request names known, available collectors and excludes no required one. */
  predicate Acceptable(registry: seq<Entry>, channelIds: set<string>, included: set<string>, excluded: set<string>) {
    included + excluded <= Ids(registry) && included <= channelIds && RequiredIds(registry, channelIds) * excluded == {}
  }

  /** Plans one execution. */
  method BuildPlan(registry: seq<Entry>, channel: string, features: map<string, bool>,
                   included: set<string>, excluded: set<string>)
    returns (plan: Result<seq<Entry>, PlanError>)
    requires ValidRegistry(registry)
    ensures plan == Err(UnknownCollectors) <==> !(included + excluded <= Ids(registry))
    ensures var channelIds := ChannelIds(registry, channel, features);
            && (plan == Err(CollectorsUnavailable) <==>
                  included + excluded <= Ids(registry) && !(included <= channelIds))
            && (plan == Err(RequiredExcluded) <==>
                  included + excluded <= Ids(registry) && included <= channelIds
                  && RequiredIds(registry, channelIds) * excluded != {})
    // An acceptable request fails exactly when the closure leaves what may be run, and the error names a member of the
    // closure that the channel lacks or the caller excluded; a cycle is never reported.
    ensures var channelIds := ChannelIds(registry, channel, features);
            var base := Base(registry, channel, features, included, excluded);
            Acceptable(registry, channelIds, included, excluded) ==>
              && (plan.Err? <==> exists x :: InClosure(registry, base, x) && x !in channelIds - excluded)
              && (plan.Err? ==>
                    && (plan.error.DependencyUnavailable? || plan.error.DependencyExcluded?)
                    && InClosure(registry, base, plan.error.id)
                    && (plan.error.DependencyUnavailable? <==> plan.error.id !in channelIds)
                    && (plan.error.DependencyExcluded? ==> plan.error.id in excluded))
    ensures var channelIds := ChannelIds(registry, channel, features);
            var base := Base(registry, channel, features, included, excluded);
            plan.Ok? ==> exists closure ::
              && LeastClosure(registry, base, closure) && plan.value == PlanOf(registry, closure)
              && RequiredIds(registry, channelIds) <= closure <= channelIds - excluded
  {
    var ids := Ids(registry);
    if !(included + excluded <= ids) { return Err(UnknownCollectors); }
    var channelIds := ChannelIds(registry, channel, features);
    if !(included <= channelIds) { return Err(CollectorsUnavailable); }
    var required := RequiredIds(registry, channelIds);
    if required * excluded != {} { return Err(RequiredExcluded); }
    var base := BaseSelection(channelIds, required, included, excluded);
    var planner := new Planner(registry, channelIds, excluded, base);
    var pending := base;
    while pending != {}
      invariant planner.Valid() && pending <= base <= planner.selected
      invariant planner.registry == registry && planner.channelIds == channelIds && planner.excluded == excluded
      invariant planner.Satisfied(planner.selected - pending)
      invariant planner.Forced(base, None)
      decreases pending
    {
      var id :| id in pending;
      pending := pending - {id};
      ghost var before := planner.selected;
      var error := planner.AddDependencies(id, []);
      if error.Some? {
        assert planner.Justified(error.value) && InClosure(registry, base, error.value.id);
        return Err(error.value);
      }
      assert planner.selected - pending <= (before - (pending + {id})) + ({id} + (planner.selected - before));
    }
    assert LeastClosure(registry, base, planner.selected);
    plan := Ok(PlanOf(registry, planner.selected));
  }

  // ---- what the plan means -----------------------------------------------------------------------------

  /** A dependency chain from a selected collector. */
  ghost predicate Chain(registry: seq<Entry>, base: set<string>, path: seq<string>) {
    && path != [] && path[0] in base
    && forall i :: 0 <= i < |path| - 1 ==> DependsOn(registry, path[i], path[i + 1])
  }

  predicate DependsOn(registry: seq<Entry>, id: string, dependency: string) {
    exists e :: e in registry && e.id == id && dependency in e.dependencies
  }

  lemma {:induction false} ChainStaysInside(registry: seq<Entry>, base: set<string>, s: set<string>, path: seq<string>)
    requires base <= s && Closed(registry, s) && Chain(registry, base, path)
    ensures path[|path| - 1] in s
    decreases |path|
  {
    if |path| > 1 {
      var shorter := path[..|path| - 1];
      assert Chain(registry, base, shorter);
      ChainStaysInside(registry, base, s, shorter);
      assert DependsOn(registry, path[|path| - 2], path[|path| - 1]);
    }
  }

  ghost predicate Reached(registry: seq<Entry>, base: set<string>, x: string) {
    exists path :: Chain(registry, base, path) && path[|path| - 1] == x
  }

  /** The planned set is exactly what dependency chains reach from the base selection. */
  lemma ClosureIsReachability(registry: seq<Entry>, base: set<string>, s: set<string>, x: string)
    requires LeastClosure(registry, base, s)
    ensures x in s <==> Reached(registry, base, x)
  {
    var reached := set y | y in s && Reached(registry, base, y);
    forall y | y in base ensures y in reached {
      assert Chain(registry, base, [y]) && [y][|[y]| - 1] == y;
    }
    forall e, d | e in registry && e.id in reached && d in e.dependencies ensures d in reached {
      var path :| Chain(registry, base, path) && path[|path| - 1] == e.id;
      var longer := path + [d];
      assert DependsOn(registry, e.id, d);
      assert Chain(registry, base, longer) && longer[|longer| - 1] == d;
    }
    assert Closed(registry, reached);
    if Reached(registry, base, x) {
      var path :| Chain(registry, base, path) && path[|path| - 1] == x;
      ChainStaysInside(registry, base, s, path);
    }
  }

  /** `at` picks out the entries of `plan` in registry order. */
  ghost predicate Picks(registry: seq<Entry>, plan: seq<Entry>, at: seq<nat>) {
    && |at| == |plan|
    && (forall i :: 0 <= i < |at| ==> at[i] < |registry| && registry[at[i]] == plan[i])
    && (forall i, j :: 0 <= i < j < |at| ==> at[i] < at[j])
  }

  lemma PicksNext(first: Entry, rest: seq<Entry>, plan: seq<Entry>, at: seq<nat>, taken: bool)
    returns (shifted: seq<nat>)
    requires Picks(rest, plan, at)
    ensures Picks([first] + rest, (if taken then [first] else []) + plan, shifted)
  {
    shifted := (if taken then [0] else []) + seq(|at|, i requires 0 <= i < |at| => at[i] + 1);
  }

  /** The plan lists exactly the closure's entries, each once, in registry order. */
  lemma {:induction false} PlanInRegistryOrder(registry: seq<Entry>, s: set<string>) returns (at: seq<nat>)
    ensures Picks(registry, PlanOf(registry, s), at)
    ensures forall e :: e in PlanOf(registry, s) <==> e in registry && e.id in s
  {
    at := [];
    if registry != [] {
      at := PlanInRegistryOrder(registry[1..], s);
      at := PicksNext(registry[0], registry[1..], PlanOf(registry[1..], s), at, registry[0].id in s);
      assert [registry[0]] + registry[1..] == registry;
    }
  }
}
