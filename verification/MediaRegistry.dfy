/**
 The shared provider registry: listing models under provider prefixes, parsing a
 listed name back, and the cached index behind bare names.
 */
module MediaRegistry {
  import opened Prelude

  datatype Model = Model(id: string, name: string)

  datatype Provider = Provider(alias: Option<string>, models: seq<Model>)

  /** Providers in the registry object's own order. */
  type Providers = Object<Provider>

  datatype Parsed = Parsed(provider: Option<string>, model: Option<string>)

  datatype Listing = Listing(id: string, name: string, provider: string)

  // ----- the index and the scan it stands for -----

  function AddModels(index: map<string, string>, models: seq<Model>, provider: string): map<string, string> {
    if models == [] then index
    else
      var earlier, id := AddModels(index, models[..|models| - 1], provider), models[|models| - 1].id;
      if id in earlier then earlier else earlier[id := provider]
  }

  function IndexOf(providers: Providers): map<string, string> {
    if providers == [] then map[]
    else
      var last := providers[|providers| - 1];
      AddModels(IndexOf(providers[..|providers| - 1]), last.1.models, last.0)
  }

  predicate HasModel(provider: Provider, id: string) {
    exists j :: 0 <= j < |provider.models| && provider.models[j].id == id
  }

  /** The first provider, in order, that lists the model. */
  function Scan(providers: Providers, id: string): Option<string> {
    if providers == [] then None
    else if HasModel(providers[0].1, id) then Some(providers[0].0)
    else Scan(providers[1..], id)
  }

  lemma {:induction false} AddModelsIs(index: map<string, string>, models: seq<Model>, provider: string, id: string)
    ensures Lookup(AddModels(index, models, provider), id)
         == if id in index then Some(index[id]) else if HasModel(Provider(None, models), id) then Some(provider) else None
  {
    if models != [] {
      var p, last := models[..|models| - 1], models[|models| - 1];
      AddModelsIs(index, p, provider, id);
      assert models == p + [last];
      if HasModel(Provider(None, p), id) {
        var j :| 0 <= j < |p| && p[j].id == id;
        assert models[j].id == id;
      }
      assert last.id == id ==> models[|p|].id == id;
    }
  }

  lemma {:induction false} ScanAppend(p: Providers, last: (string, Provider), id: string)
    ensures Scan(p + [last], id) == if Scan(p, id).Some? then Scan(p, id) else if HasModel(last.1, id) then Some(last.0) else None
  {
    if p != [] {
      ScanAppend(p[1..], last, id);
      assert (p + [last])[1..] == p[1..] + [last];
    } else {
      assert p + [last] == [last] && [last][1..] == [];
    }
  }

  /** The index answers every name as the first-match scan does. */
  lemma {:induction false} IndexRefinesScan(providers: Providers, id: string)
    ensures Lookup(IndexOf(providers), id) == Scan(providers, id)
  {
    if providers != [] {
      var p, last := providers[..|providers| - 1], providers[|providers| - 1];
      IndexRefinesScan(p, id);
      AddModelsIs(IndexOf(p), last.1.models, last.0, id);
      ScanAppend(p, last, id);
      assert providers == p + [last];
      assert HasModel(Provider(None, last.1.models), id) == HasModel(last.1, id);
    }
  }

  // ----- parsing -----

  /** A provider's name and, when it has one, its alias. */
  function NamesOf(entry: (string, Provider)): seq<string> {
    [entry.0] + if entry.1.alias.Some? && entry.1.alias.value != "" then [entry.1.alias.value] else []
  }

  function ByPrefix(providers: Providers, s: string): Option<Parsed> {
    if providers == [] then None
    else
      var entry, names := providers[0], NamesOf(providers[0]);
      if Prefixed(s, names[0]) then Some(Parsed(Some(entry.0), Some(AfterPrefix(s, names[0]))))
      else if |names| > 1 && Prefixed(s, names[1]) then Some(Parsed(Some(entry.0), Some(AfterPrefix(s, names[1]))))
      else ByPrefix(providers[1..], s)
  }

  /** What parsing means, with the linear scan in place of the index; an empty provider name counts as not found. */
  function Parse(providers: Providers, modelStr: Option<string>): Parsed {
    if modelStr.None? || modelStr.value == "" then Parsed(None, None)
    else if ByPrefix(providers, modelStr.value).Some? then ByPrefix(providers, modelStr.value).value
    else
      var found := Scan(providers, modelStr.value);
      if found.Some? && found.value != "" then Parsed(found, modelStr) else Parsed(None, modelStr)
  }

  /** Registries are static objects: their contents never change. */
  class Registry {
    const providers: Providers

    constructor (providers: Providers)
      ensures this.providers == providers
    {
      this.providers := providers;
    }
  }

  class ModelIndexCache {
    var indexes: map<Registry, map<string, string>>

    ghost predicate Valid()
      reads this
    {
      forall r :: r in indexes ==> indexes[r] == IndexOf(r.providers)
    }

    constructor ()
      ensures Valid() && indexes == map[]
    {
      indexes := map[];
    }

    method GetRegistryModelIndex(registry: Registry) returns (index: map<string, string>)
      requires Valid()
      modifies this
      ensures Valid() && index == IndexOf(registry.providers)
      ensures indexes == old(indexes)[registry := index]
    {
      if registry in indexes {
        index := indexes[registry];
        return;
      }
      index := map[];
      var providers := registry.providers;
      for i := 0 to |providers|
        invariant index == IndexOf(providers[..i])
      {
        var models := providers[i].1.models;
        assert providers[..i + 1][..i] == providers[..i];
        for j := 0 to |models|
          invariant index == AddModels(IndexOf(providers[..i]), models[..j], providers[i].0)
        {
          assert models[..j + 1][..j] == models[..j];
          if models[j].id !in index {
            index := index[models[j].id := providers[i].0];
          }
        }
        assert models[..|models|] == models;
      }
      assert providers[..|providers|] == providers;
      indexes := indexes[registry := index];
    }

    /** After any earlier calls, on this registry or others, the answer is the scan's. */
    method ParseModelFromRegistry(modelStr: Option<string>, registry: Registry) returns (r: Parsed)
      requires Valid()
      modifies this
      ensures Valid() && r == Parse(registry.providers, modelStr)
    {
      if modelStr.None? || modelStr.value == "" {
        return Parsed(None, None);
      }
      var s, providers := modelStr.value, registry.providers;
      for i := 0 to |providers|
        invariant ByPrefix(providers, s) == ByPrefix(providers[i..], s)
      {
        assert providers[i..][1..] == providers[i + 1..];
        var names := NamesOf(providers[i]);
        if Prefixed(s, names[0]) {
          return Parsed(Some(providers[i].0), Some(AfterPrefix(s, names[0])));
        }
        if |names| > 1 && Prefixed(s, names[1]) {
          return Parsed(Some(providers[i].0), Some(AfterPrefix(s, names[1])));
        }
      }
      var index := GetRegistryModelIndex(registry);
      IndexRefinesScan(providers, s);
      if s in index && index[s] != "" {
        return Parsed(Some(index[s]), Some(s));
      }
      return Parsed(None, Some(s));
    }
  }

  // ----- listing -----

  function ListModel(prefixes: seq<string>, model: Model, provider: string): seq<Listing> {
    if prefixes == [] then []
    else [Listing(prefixes[0] + "/" + model.id, model.name, provider)] + ListModel(prefixes[1..], model, provider)
  }

  function Prefixes(entry: (string, Provider)): seq<string> {
    if entry.0 == "" then NamesOf(entry)[1..] else NamesOf(entry)
  }

  function ListProvider(entry: (string, Provider), models: seq<Model>): seq<Listing> {
    if models == [] then []
    else ListProvider(entry, models[..|models| - 1]) + ListModel(Prefixes(entry), models[|models| - 1], entry.0)
  }

  function ListAll(providers: Providers): seq<Listing> {
    if providers == [] then []
    else
      var last := providers[|providers| - 1];
      ListAll(providers[..|providers| - 1]) + ListProvider(last, last.1.models)
  }

  method GetAllModelsFromRegistry(registry: Registry) returns (models: seq<Listing>)
    ensures models == ListAll(registry.providers)
  {
    models := [];
    var providers := registry.providers;
    for i := 0 to |providers|
      invariant models == ListAll(providers[..i])
    {
      assert providers[..i + 1][..i] == providers[..i];
      models := PushModels(models, providers[i]);
    }
    assert providers[..|providers|] == providers;
  }

  method PushModels(models: seq<Listing>, entry: (string, Provider)) returns (r: seq<Listing>)
    ensures r == models + ListProvider(entry, entry.1.models)
  {
    r := models;
    var own := entry.1.models;
    for j := 0 to |own|
      invariant r == models + ListProvider(entry, own[..j])
    {
      assert own[..j + 1][..j] == own[..j];
      r := PushPrefixes(r, Prefixes(entry), own[j], entry.0);
    }
    assert own[..|own|] == own;
  }

  method PushPrefixes(models: seq<Listing>, prefixes: seq<string>, model: Model, provider: string) returns (r: seq<Listing>)
    ensures r == models + ListModel(prefixes, model, provider)
  {
    r := models;
    for i := 0 to |prefixes|
      invariant r + ListModel(prefixes[i..], model, provider) == models + ListModel(prefixes, model, provider)
    {
      assert prefixes[i..][1..] == prefixes[i + 1..];
      r := r + [Listing(prefixes[i] + "/" + model.id, model.name, provider)];
    }
  }

  // ----- listing and parsing undo each other -----

  predicate SlashFree(s: string) {
    forall i :: 0 <= i < |s| ==> s[i] != '/'
  }

  /** Position `i`, name `k`: the prefix is one of the names of that provider. */
  ghost predicate IsName(providers: Providers, i: nat, name: string) {
    i < |providers| && name in NamesOf(providers[i])
  }

  /** No prefix holds a slash, and no two providers share one. */
  ghost predicate DistinctPrefixes(providers: Providers) {
    && (forall i: nat, name :: IsName(providers, i, name) ==> SlashFree(name))
    && (forall i: nat, j: nat, name :: IsName(providers, i, name) && IsName(providers, j, name) ==> i == j)
  }

  lemma PrefixIsTheFirstSegment(prefix: string, rest: string, other: string)
    requires SlashFree(prefix) && SlashFree(other)
    ensures Prefixed(prefix + "/" + rest, other) <==> other == prefix
  {
    var s := prefix + "/" + rest;
    if other + "/" <= s {
      assert s[|other|] == (other + "/")[|other|] == '/';
      assert s[|prefix|] == '/';
      assert |other| == |prefix|;
      assert s[..|other|] == other;
    }
  }

  lemma {:induction false} ByPrefixFinds(providers: Providers, i: nat, name: string, model: string)
    requires DistinctPrefixes(providers) && IsName(providers, i, name)
    ensures ByPrefix(providers, name + "/" + model) == Some(Parsed(Some(providers[i].0), Some(model)))
  {
    var s := name + "/" + model;
    var names := NamesOf(providers[0]);
    assert IsName(providers, 0, names[0]);
    PrefixIsTheFirstSegment(name, model, names[0]);
    if |names| > 1 {
      assert IsName(providers, 0, names[1]);
      PrefixIsTheFirstSegment(name, model, names[1]);
    }
    assert s[|name| + 1..] == model;
    if i > 0 {
      DistinctTail(providers);
      assert IsName(providers[1..], i - 1, name);
      ByPrefixFinds(providers[1..], i - 1, name, model);
    }
  }

  lemma DistinctTail(providers: Providers)
    requires providers != [] && DistinctPrefixes(providers)
    ensures DistinctPrefixes(providers[1..])
  {
    forall i: nat, name | IsName(providers[1..], i, name)
      ensures IsName(providers, i + 1, name)
    {
    }
  }

  lemma {:induction false} ListingIsAName(providers: Providers, l: Listing)
    requires l in ListAll(providers)
    ensures exists i: nat, name, j: nat :: IsName(providers, i, name) && ListedAs(providers, i, name, j, l)
  {
    var p, last := providers[..|providers| - 1], providers[|providers| - 1];
    if l in ListAll(p) {
      ListingIsAName(p, l);
      var i: nat, name, j: nat :| IsName(p, i, name) && ListedAs(p, i, name, j, l);
      assert IsName(providers, i, name) && ListedAs(providers, i, name, j, l);
    } else {
      var name, j := ListingOfProvider(last, last.1.models, l);
      assert IsName(providers, |p|, name) && ListedAs(providers, |p|, name, j, l);
    }
  }

  ghost predicate ListedAs(providers: Providers, i: nat, name: string, j: nat, l: Listing) {
    && i < |providers| && j < |providers[i].1.models|
    && l == Listing(name + "/" + providers[i].1.models[j].id, providers[i].1.models[j].name, providers[i].0)
  }

  lemma {:induction false} ListingOfProvider(entry: (string, Provider), models: seq<Model>, l: Listing) returns (name: string, j: nat)
    requires l in ListProvider(entry, models)
    ensures name in NamesOf(entry) && j < |models| && l == Listing(name + "/" + models[j].id, models[j].name, entry.0)
  {
    var p, last := models[..|models| - 1], models[|models| - 1];
    if l in ListProvider(entry, p) {
      name, j := ListingOfProvider(entry, p, l);
    } else {
      name := ListingOfModel(Prefixes(entry), last, entry.0, l);
      j := |p|;
    }
  }

  lemma {:induction false} ListingOfModel(prefixes: seq<string>, model: Model, provider: string, l: Listing) returns (name: string)
    requires l in ListModel(prefixes, model, provider)
    ensures name in prefixes && l == Listing(name + "/" + model.id, model.name, provider)
  {
    if l == Listing(prefixes[0] + "/" + model.id, model.name, provider) {
      name := prefixes[0];
    } else {
      name := ListingOfModel(prefixes[1..], model, provider, l);
    }
  }

  /** Every listed id, under canonical name or alias, parses back to its provider and to the model it was listed for. */
  lemma ListedIdsParseBack(providers: Providers, l: Listing)
    requires DistinctPrefixes(providers)
    requires l in ListAll(providers)
    ensures exists i, j :: && 0 <= i < |providers| && 0 <= j < |providers[i].1.models|
                           && providers[i].0 == l.provider && providers[i].1.models[j].name == l.name
                           && Parse(providers, Some(l.id)) == Parsed(Some(l.provider), Some(providers[i].1.models[j].id))
  {
    ListingIsAName(providers, l);
    var i: nat, name, j: nat :| IsName(providers, i, name) && ListedAs(providers, i, name, j, l);
    ByPrefixFinds(providers, i, name, providers[i].1.models[j].id);
  }

  // ----- every name, listed or not -----

  /** The provider's id or alias, with a slash behind it, starts the name. */
  predicate Claims(entry: (string, Provider), s: string) {
    Prefixed(s, entry.0) || (entry.1.alias.Some? && entry.1.alias.value != "" && Prefixed(s, entry.1.alias.value))
  }

  ghost predicate FirstClaim(providers: Providers, s: string, i: nat) {
    i < |providers| && Claims(providers[i], s) && forall j :: 0 <= j < i ==> !Claims(providers[j], s)
  }

  ghost predicate FirstListing(providers: Providers, s: string, i: nat) {
    i < |providers| && HasModel(providers[i].1, s) && forall j :: 0 <= j < i ==> !HasModel(providers[j].1, s)
  }

  lemma {:induction false} ByPrefixIsTheFirstClaim(providers: Providers, s: string)
    ensures ByPrefix(providers, s).None? <==> forall i :: 0 <= i < |providers| ==> !Claims(providers[i], s)
    ensures forall i: nat :: FirstClaim(providers, s, i) ==>
              var name := providers[i].0;
              ByPrefix(providers, s) == Some(Parsed(Some(name), Some(AfterPrefix(s, if Prefixed(s, name) then name else providers[i].1.alias.value))))
  {
    if providers != [] {
      ByPrefixIsTheFirstClaim(providers[1..], s);
      assert forall i :: 0 < i < |providers| ==> providers[1..][i - 1] == providers[i];
      forall i: nat | FirstClaim(providers, s, i) && i > 0
        ensures FirstClaim(providers[1..], s, i - 1)
      {
        assert !Claims(providers[0], s);
      }
    }
  }

  lemma {:induction false} ScanIsTheFirstListing(providers: Providers, s: string)
    ensures Scan(providers, s).None? <==> forall i :: 0 <= i < |providers| ==> !HasModel(providers[i].1, s)
    ensures forall i: nat :: FirstListing(providers, s, i) ==> Scan(providers, s) == Some(providers[i].0)
  {
    if providers != [] {
      ScanIsTheFirstListing(providers[1..], s);
      assert forall i :: 0 < i < |providers| ==> providers[1..][i - 1] == providers[i];
      forall i: nat | FirstListing(providers, s, i) && i > 0
        ensures FirstListing(providers[1..], s, i - 1)
      {
        assert !HasModel(providers[0].1, s);
      }
    }
  }

  /** The first provider whose id or alias starts the name takes it, its id before its alias, with what follows the slash. */
  lemma ClaimedNamesParse(providers: Providers, s: string, i: nat)
    requires FirstClaim(providers, s, i)
    ensures var name, alias := providers[i].0, providers[i].1.alias;
            Parse(providers, Some(s)) == Parsed(Some(name), Some(if Prefixed(s, name) then s[|name| + 1..] else s[|alias.value| + 1..]))
  {
    ByPrefixIsTheFirstClaim(providers, s);
  }

  /** A name no provider claims belongs to the first provider that lists it, and is its own model; to none when nobody does, or that provider has no name. */
  lemma BareNamesParse(providers: Providers, s: string)
    requires s != "" && forall i :: 0 <= i < |providers| ==> !Claims(providers[i], s)
    ensures forall i: nat :: FirstListing(providers, s, i) ==>
              Parse(providers, Some(s)) == Parsed(if providers[i].0 == "" then None else Some(providers[i].0), Some(s))
    ensures (forall i :: 0 <= i < |providers| ==> !HasModel(providers[i].1, s)) ==> Parse(providers, Some(s)) == Parsed(None, Some(s))
    ensures Parse(providers, None) == Parse(providers, Some("")) == Parsed(None, None)
  {
    ByPrefixIsTheFirstClaim(providers, s);
    ScanIsTheFirstListing(providers, s);
  }

  lemma {:induction false} ModelIsListed(prefixes: seq<string>, model: Model, provider: string, name: string)
    requires name in prefixes
    ensures Listing(name + "/" + model.id, model.name, provider) in ListModel(prefixes, model, provider)
  {
    if prefixes[0] != name {
      ModelIsListed(prefixes[1..], model, provider, name);
    }
  }

  lemma {:induction false} ProviderIsListed(entry: (string, Provider), models: seq<Model>, j: nat, name: string)
    requires j < |models| && name in Prefixes(entry)
    ensures Listing(name + "/" + models[j].id, models[j].name, entry.0) in ListProvider(entry, models)
  {
    if j == |models| - 1 {
      ModelIsListed(Prefixes(entry), models[j], entry.0, name);
    } else {
      ProviderIsListed(entry, models[..|models| - 1], j, name);
    }
  }

  /** No model is left out: each is listed under its provider's id and under its alias, whichever are not empty. */
  lemma {:induction false} EveryModelIsListed(providers: Providers, i: nat, j: nat, name: string)
    requires i < |providers| && j < |providers[i].1.models| && name != ""
    requires name == providers[i].0 || providers[i].1.alias == Some(name)
    ensures Listing(name + "/" + providers[i].1.models[j].id, providers[i].1.models[j].name, providers[i].0) in ListAll(providers)
  {
    if i == |providers| - 1 {
      assert name in Prefixes(providers[i]);
      ProviderIsListed(providers[i], providers[i].1.models, j, name);
    } else {
      EveryModelIsListed(providers[..|providers| - 1], i, j, name);
    }
  }
}
