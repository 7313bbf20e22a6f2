/** The provider registry behind the service: the view it publishes, the two indexes that answer look-ups, and
    the order in which the resolver lists providers and models. */
module ProviderRegistry {

  datatype Provider = Provider(id: string, models: seq<string>)

  predicate Distinct(ids: seq<string>) {
    forall i, j :: 0 <= i < j < |ids| ==> ids[i] != ids[j]
  }

  function Ids(providers: seq<Provider>): (ids: seq<string>)
    ensures |ids| == |providers| && forall i :: 0 <= i < |ids| ==> ids[i] == providers[i].id
  {
    seq(|providers|, i requires 0 <= i < |providers| => providers[i].id)
  }

  /** No provider occurs twice, and none has a model twice. */
  predicate Indexable(providers: seq<Provider>) {
    Distinct(Ids(providers)) && forall i :: 0 <= i < |providers| ==> Distinct(providers[i].models)
  }

  /** The indexes find exactly what is listed. */
  predicate Indexed(providers: seq<Provider>, byId: map<string, Provider>, models: map<string, set<string>>) {
    && (forall i :: 0 <= i < |providers| ==> providers[i].id in byId && byId[providers[i].id] == providers[i])
    && (forall id :: id in byId ==> byId[id] in providers && byId[id].id == id)
    && models.Keys == byId.Keys
    && (forall id :: id in byId ==> models[id] == set m | m in byId[id].models)
  }

  class ProviderRegistry {
    var revision: nat
    var providers: seq<Provider>
    var providerById: map<string, Provider>
    var modelByProviderId: map<string, set<string>>

    constructor ()
      ensures providers == [] && Indexed(providers, providerById, modelByProviderId)
    {
      revision, providers, providerById, modelByProviderId := 0, [], map[], map[];
    }

    /** replace: the view is replaced first; the indexes follow it exactly if nothing is listed twice, and
        otherwise stay what they were while the error is thrown. */
    method Replace(providers: seq<Provider>) returns (indexed: bool)
      modifies this
      ensures this.providers == providers && revision == old(revision) + 1
      ensures indexed <==> Indexable(providers)
      ensures indexed ==> Indexed(providers, providerById, modelByProviderId)
      ensures !indexed ==> providerById == old(providerById) && modelByProviderId == old(modelByProviderId)
    {
      this.providers, revision := providers, revision + 1;
      var byId, models;
      indexed, byId, models := Indexes(providers);
      if indexed {
        providerById, modelByProviderId := byId, models;
      }
    }
  }

  /** rebuildIndexes: built aside, and given up at the first duplicate. */
  method Indexes(providers: seq<Provider>)
    returns (ok: bool, byId: map<string, Provider>, models: map<string, set<string>>)
    ensures ok <==> Indexable(providers)
    ensures ok ==> Indexed(providers, byId, models)
  {
    byId, models := map[], map[];
    for i := 0 to |providers|
      invariant Indexable(providers[..i]) && Indexed(providers[..i], byId, models)
    {
      var p := providers[i];
      assert providers[..i + 1] == providers[..i] + [p];
      if p.id in byId {
        ListedTwice(providers, i);
        return false, byId, models;
      }
      var distinct, ids := ModelIndex(p.models);
      if !distinct {
        return false, byId, models;
      }
      NotListed(providers[..i], p, byId, models);
      byId, models := byId[p.id := p], models[p.id := ids];
    }
    assert providers[..|providers|] == providers;
    ok := true;
  }

  method ModelIndex(models: seq<string>) returns (ok: bool, ids: set<string>)
    ensures ok <==> Distinct(models)
    ensures ok ==> ids == set m | m in models
  {
    ids := {};
    for i := 0 to |models|
      invariant Distinct(models[..i]) && ids == set m | m in models[..i]
    {
      assert models[..i + 1] == models[..i] + [models[i]];
      if models[i] in ids {
        return false, ids;
      }
      ids := ids + {models[i]};
    }
    assert models[..|models|] == models;
    ok := true;
  }

  lemma ListedTwice(providers: seq<Provider>, i: nat)
    requires i < |providers| && exists k :: 0 <= k < i && providers[k].id == providers[i].id
    ensures !Indexable(providers)
  {
    var k :| 0 <= k < i && providers[k].id == providers[i].id;
    assert Ids(providers)[k] == Ids(providers)[i];
  }

  lemma NotListed(before: seq<Provider>, p: Provider, byId: map<string, Provider>, models: map<string, set<string>>)
    requires Indexable(before) && Indexed(before, byId, models) && p.id !in byId && Distinct(p.models)
    ensures Indexable(before + [p])
    ensures Indexed(before + [p], byId[p.id := p], models[p.id := set m | m in p.models])
  {
    var after := before + [p];
    assert after[|before|] == p;
    assert forall i :: 0 <= i < |before| ==> after[i] == before[i];
  }

  // ---------- The resolver's lists ----------

  function Unique(values: seq<string>): seq<string> {
    if values == [] then []
    else
      var before := Unique(values[..|values| - 1]);
      if values[|values| - 1] in before then before else before + [values[|values| - 1]]
  }

  lemma {:induction false} UniqueIsDistinct(values: seq<string>)
    ensures Distinct(Unique(values)) && forall x :: x in Unique(values) <==> x in values
  {
    if values != [] {
      var before, last := values[..|values| - 1], values[|values| - 1];
      UniqueIsDistinct(before);
      assert values == before + [last];
    }
  }

  /** uniqueInOrder */
  method UniqueInOrder(values: seq<string>) returns (result: seq<string>)
    ensures result == Unique(values)
  {
    var seen: set<string> := {};
    result := [];
    for i := 0 to |values|
      invariant result == Unique(values[..i]) && seen == set x | x in result
    {
      assert values[..i + 1][..i] == values[..i];
      if values[i] !in seen {
        seen := seen + {values[i]};
        result := result + [values[i]];
      }
    }
    assert values[..|values|] == values;
  }

  function Filter<T>(values: seq<T>, keep: T -> bool): seq<T> {
    if values == [] then []
    else (if keep(values[0]) then [values[0]] else []) + Filter(values[1..], keep)
  }

  lemma {:induction false} FilterKeeps(values: seq<string>, keep: string -> bool)
    ensures forall x :: x in Filter(values, keep) <==> x in values && keep(x)
    ensures Distinct(values) ==> Distinct(Filter(values, keep))
  {
    if values != [] {
      FilterKeeps(values[1..], keep);
      assert values == [values[0]] + values[1..];
      if Distinct(values) {
        assert forall j :: 0 < j < |values| ==> values[j] == values[1..][j - 1];
        assert values[0] !in values[1..];
      }
    }
  }

  /** resolveOwnedOrder: built-in members nobody ordered, then what was ordered, then the other personal ones. */
  function OwnedOrder(builtinIds: seq<string>, personalIds: seq<string>, requestedOrder: seq<string>): seq<string> {
    var builtin := Unique(builtinIds);
    var personal := Filter(Unique(personalIds), id => id !in builtin);
    var ordered := Filter(Unique(requestedOrder), id => id in builtin + personal);
    Filter(builtin, id => id !in ordered) + ordered + Filter(personal, id => id !in ordered)
  }

  /** Every member is listed once, whatever is repeated or unknown in the lists. */
  lemma OwnedOrderListsOnce(builtinIds: seq<string>, personalIds: seq<string>, requestedOrder: seq<string>)
    ensures Distinct(OwnedOrder(builtinIds, personalIds, requestedOrder))
    ensures forall id :: id in OwnedOrder(builtinIds, personalIds, requestedOrder) <==> id in builtinIds || id in personalIds
  {
    var builtin := Unique(builtinIds);
    var personal := Filter(Unique(personalIds), id => id !in builtin);
    var ordered := Filter(Unique(requestedOrder), id => id in builtin + personal);
    UniqueIsDistinct(builtinIds);
    UniqueIsDistinct(personalIds);
    UniqueIsDistinct(requestedOrder);
    FilterKeeps(Unique(personalIds), id => id !in builtin);
    FilterKeeps(Unique(requestedOrder), id => id in builtin + personal);
    FilterKeeps(builtin, id => id !in ordered);
    FilterKeeps(personal, id => id !in ordered);
    var first, last := Filter(builtin, id => id !in ordered), Filter(personal, id => id !in ordered);
    JoinIsDistinct(first, ordered);
    JoinIsDistinct(first + ordered, last);
  }

  lemma JoinIsDistinct(a: seq<string>, b: seq<string>)
    requires Distinct(a) && Distinct(b) && forall x :: x in a ==> x !in b
    ensures Distinct(a + b)
  {
    var c := a + b;
    forall i, j | 0 <= i < j < |c|
      ensures c[i] != c[j]
    {
      if i < |a| <= j {
        assert c[i] == a[i] && c[j] == b[j - |a|];
        assert a[i] in a && b[j - |a|] in b;
      }
    }
  }

  /** a stands somewhere before the first b. */
  ghost predicate Precedes(values: seq<string>, a: string, b: string) {
    exists i :: 0 <= i < |values| && values[i] == a && b !in values[..i + 1]
  }

  lemma {:induction false} UniqueKeepsFirst(values: seq<string>, i: nat, j: nat)
    requires i < j < |Unique(values)|
    ensures Precedes(values, Unique(values)[i], Unique(values)[j])
    decreases |values|
  {
    var before, last := values[..|values| - 1], values[|values| - 1];
    var a, b := Unique(values)[i], Unique(values)[j];
    UniqueIsDistinct(before);
    if j < |Unique(before)| {
      UniqueKeepsFirst(before, i, j);
      var k :| 0 <= k < |before| && before[k] == a && b !in before[..k + 1];
      assert values[..k + 1] == before[..k + 1];
    } else {
      assert a in Unique(before) && b !in before;
      var k :| 0 <= k < |before| && before[k] == a;
      assert values[k] == a && values[..k + 1] == before[..k + 1];
    }
  }

  lemma {:induction false} FilterKeepsOrder(values: seq<string>, keep: string -> bool, i: nat, j: nat) returns (p: nat, q: nat)
    requires i < j < |Filter(values, keep)|
    ensures p < q < |values| && values[p] == Filter(values, keep)[i] && values[q] == Filter(values, keep)[j]
    decreases |values|
  {
    var rest := Filter(values[1..], keep);
    if !keep(values[0]) {
      p, q := FilterKeepsOrder(values[1..], keep, i, j);
      p, q := p + 1, q + 1;
    } else if i > 0 {
      p, q := FilterKeepsOrder(values[1..], keep, i - 1, j - 1);
      p, q := p + 1, q + 1;
    } else {
      FilterKeeps(values[1..], keep);
      assert rest[j - 1] in rest;
      var k :| 0 <= k < |values[1..]| && values[1..][k] == rest[j - 1];
      p, q := 0, k + 1;
    }
  }

  /** What is filtered out of a list without repetitions keeps its order of first mention. */
  lemma KeptInOrder(values: seq<string>, keep: string -> bool, i: nat, j: nat)
    requires i < j < |Filter(Unique(values), keep)|
    ensures Precedes(values, Filter(Unique(values), keep)[i], Filter(Unique(values), keep)[j])
  {
    var p, q := FilterKeepsOrder(Unique(values), keep, i, j);
    UniqueKeepsFirst(values, p, q);
  }

  /** In which part of the list a member stands: 0 for a built-in one that nobody ordered, 1 for one that was ordered,
      2 for any other personal one. */
  function Part(builtinIds: seq<string>, requestedOrder: seq<string>, id: string): nat {
    if id in requestedOrder then 1 else if id in builtinIds then 0 else 2
  }

  /** The order of any two members: part by part, and in each part as they are first mentioned in its own list. */
  lemma OwnedOrderIs(builtinIds: seq<string>, personalIds: seq<string>, requestedOrder: seq<string>, i: nat, j: nat)
    requires i < j < |OwnedOrder(builtinIds, personalIds, requestedOrder)|
    ensures var l := OwnedOrder(builtinIds, personalIds, requestedOrder);
      var part, next := Part(builtinIds, requestedOrder, l[i]), Part(builtinIds, requestedOrder, l[j]);
      && part <= next
      && (part == next ==> Precedes([builtinIds, requestedOrder, personalIds][part], l[i], l[j]))
  {
    hide Precedes, Unique, Filter, Part;
    var builtin := Unique(builtinIds);
    var personal := Filter(Unique(personalIds), id => id !in builtin);
    var ordered := Filter(Unique(requestedOrder), id => id in builtin + personal);
    var first, last := Filter(builtin, id => id !in ordered), Filter(personal, id => id !in ordered);
    var l := OwnedOrder(builtinIds, personalIds, requestedOrder);
    assert l == first + ordered + last;
    PartsAre(builtinIds, personalIds, requestedOrder);
    if j < |first| {
      KeptInOrder(builtinIds, id => id !in ordered, i, j);
    } else if |first| <= i && j < |first| + |ordered| {
      KeptInOrder(requestedOrder, id => id in builtin + personal, i - |first|, j - |first|);
    } else if |first| + |ordered| <= i {
      OthersInOrder(personalIds, builtin, ordered, i - |first| - |ordered|, j - |first| - |ordered|);
    }
  }

  lemma OthersInOrder(personalIds: seq<string>, builtin: seq<string>, ordered: seq<string>, i: nat, j: nat)
    requires var last := Filter(Filter(Unique(personalIds), id => id !in builtin), id => id !in ordered);
      i < j < |last|
    ensures var last := Filter(Filter(Unique(personalIds), id => id !in builtin), id => id !in ordered);
      Precedes(personalIds, last[i], last[j])
  {
    var personal := Filter(Unique(personalIds), id => id !in builtin);
    var p, q := FilterKeepsOrder(personal, id => id !in ordered, i, j);
    KeptInOrder(personalIds, id => id !in builtin, p, q);
  }

  lemma PartsAre(builtinIds: seq<string>, personalIds: seq<string>, requestedOrder: seq<string>)
    ensures
      var builtin := Unique(builtinIds);
      var personal := Filter(Unique(personalIds), id => id !in builtin);
      var ordered := Filter(Unique(requestedOrder), id => id in builtin + personal);
      && (forall id :: id in Filter(builtin, id => id !in ordered) ==> Part(builtinIds, requestedOrder, id) == 0)
      && (forall id :: id in ordered ==> Part(builtinIds, requestedOrder, id) == 1)
      && (forall id :: id in Filter(personal, id => id !in ordered) ==> Part(builtinIds, requestedOrder, id) == 2)
  {
    var builtin := Unique(builtinIds);
    var personal := Filter(Unique(personalIds), id => id !in builtin);
    var ordered := Filter(Unique(requestedOrder), id => id in builtin + personal);
    UniqueIsDistinct(builtinIds);
    UniqueIsDistinct(personalIds);
    UniqueIsDistinct(requestedOrder);
    FilterKeeps(Unique(personalIds), id => id !in builtin);
    FilterKeeps(Unique(requestedOrder), id => id in builtin + personal);
    FilterKeeps(builtin, id => id !in ordered);
    FilterKeeps(personal, id => id !in ordered);
  }

  /** What the resolver lists in its registry: the providers of one map in their order, families first; of each
      the models that can be executed, in their own order; a provider that is invalid or has none is left out. */
  datatype Sources = Sources(
    families: seq<string>, builtinIds: seq<string>, personalIds: seq<string>, order: seq<string>,
    builtinModels: string -> seq<string>, personalModels: string -> seq<string>, modelOrder: string -> seq<string>,
    valid: string -> bool, executable: (string, string) -> bool)

  function ProviderOrder(x: Sources): seq<string> {
    var builtin := Filter(x.builtinIds, id => id !in x.families);
    x.families + OwnedOrder(builtin, Filter(x.personalIds, id => id !in builtin && id !in x.families), x.order)
  }

  function Models(x: Sources, id: string): seq<string> {
    Filter(OwnedOrder(x.builtinModels(id), x.personalModels(id), x.modelOrder(id)), m => x.executable(id, m))
  }

  function Listed(x: Sources, ids: seq<string>): seq<Provider> {
    if ids == [] then []
    else (if x.valid(ids[0]) && Models(x, ids[0]) != [] then [Provider(ids[0], Models(x, ids[0]))] else [])
         + Listed(x, ids[1..])
  }

  /** Which models a provider is listed with, and which providers are listed. */
  lemma {:induction false} ListedAre(x: Sources, ids: seq<string>, p: Provider)
    ensures forall m :: m in Models(x, p.id) <==>
      (m in x.builtinModels(p.id) || m in x.personalModels(p.id)) && x.executable(p.id, m)
    ensures p in Listed(x, ids) <==> p.id in ids && x.valid(p.id) && p.models == Models(x, p.id) && p.models != []
    decreases |ids|
  {
    OwnedOrderListsOnce(x.builtinModels(p.id), x.personalModels(p.id), x.modelOrder(p.id));
    FilterKeeps(OwnedOrder(x.builtinModels(p.id), x.personalModels(p.id), x.modelOrder(p.id)), m => x.executable(p.id, m));
    if ids != [] {
      hide OwnedOrder, Models;
      ListedAre(x, ids[1..], p);
      assert ids == [ids[0]] + ids[1..];
      assert [] + Listed(x, ids[1..]) == Listed(x, ids[1..]);
    }
  }

  lemma NoneIsIndexable()
    ensures Indexable([])
  {
  }

  lemma OneMoreIsIndexable(p: Provider, rest: seq<Provider>)
    requires Indexable(rest) && Distinct(p.models) && forall q :: q in rest ==> q.id != p.id
    ensures Indexable([p] + rest)
  {
    var all := [p] + rest;
    assert forall j :: 0 < j < |all| ==> all[j] == rest[j - 1] && Ids(all)[j] == Ids(rest)[j - 1];
  }

  lemma {:induction false} ListedIsIndexable(x: Sources, ids: seq<string>)
    requires Distinct(ids)
    ensures Indexable(Listed(x, ids)) && forall p :: p in Listed(x, ids) ==> p.id in ids
  {
    hide OwnedOrder, Indexable;
    if ids == [] {
      NoneIsIndexable();
    } else {
      var id := ids[0];
      assert forall j :: 0 < j < |ids| ==> ids[j] == ids[1..][j - 1];
      ListedIsIndexable(x, ids[1..]);
      ModelsAreDistinct(x, id);
      OneMoreIsIndexable(Provider(id, Models(x, id)), Listed(x, ids[1..]));
      assert [] + Listed(x, ids[1..]) == Listed(x, ids[1..]);
    }
  }

  lemma ModelsAreDistinct(x: Sources, id: string)
    ensures Distinct(Models(x, id))
  {
    OwnedOrderListsOnce(x.builtinModels(id), x.personalModels(id), x.modelOrder(id));
    FilterKeeps(OwnedOrder(x.builtinModels(id), x.personalModels(id), x.modelOrder(id)), m => x.executable(id, m));
  }

  /** The resolver never makes the indexes throw: families are keys of one map, all else is made unique. */
  lemma ResolvedProvidersAreIndexable(x: Sources)
    requires Distinct(x.families)
    ensures Indexable(Listed(x, ProviderOrder(x)))
  {
    var builtin := Filter(x.builtinIds, id => id !in x.families);
    var personal := Filter(x.personalIds, id => id !in builtin && id !in x.families);
    FilterKeeps(x.builtinIds, id => id !in x.families);
    FilterKeeps(x.personalIds, id => id !in builtin && id !in x.families);
    OwnedOrderListsOnce(builtin, personal, x.order);
    JoinIsDistinct(x.families, OwnedOrder(builtin, personal, x.order));
    ListedIsIndexable(x, ProviderOrder(x));
  }
}
