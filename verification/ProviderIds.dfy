/**
 Provider-scoped model ids of the embedding and rerank registries: printing one
 for the catalog and parsing it back.
 */
module ProviderIds {
  import opened Prelude

  /** Provider id to the ids of its models, in the registry object's own order. */
  type Registry = Object<seq<string>>

  type Aliases = map<string, string>

  datatype Parsed = Parsed(provider: Option<string>, model: Option<string>)

  function Resolve(aliases: Aliases, provider: string): string {
    if provider in aliases && aliases[provider] != "" then aliases[provider] else provider
  }

  predicate Lists(registry: Registry, provider: string, model: string) {
    Get(registry, provider).Some? && model in Get(registry, provider).value
  }

  /** The catalog's name for a model: scoped once, even when its own id already is. */
  function ToProviderScoped(provider: string, model: string): string {
    if Prefixed(model, provider) then model else provider + "/" + model
  }

  function Normalize(registry: Registry, aliases: Aliases, provider: string, model: string): string {
    var resolved := Resolve(aliases, provider);
    if Lists(registry, resolved, model) then model
    else if Lists(registry, resolved, resolved + "/" + model) then resolved + "/" + model
    else if Prefixed(model, provider) then AfterPrefix(model, provider)
    else model
  }

  function FirstSlash(s: string): (i: nat)
    ensures i <= |s|
    ensures i < |s| ==> s[i] == '/'
    ensures forall j :: 0 <= j < i ==> s[j] != '/'
  {
    if s == "" || s[0] == '/' then 0 else 1 + FirstSlash(s[1..])
  }

  function FirstPrefixing(ids: seq<string>, s: string): Option<string> {
    if ids == [] then None
    else if Prefixed(s, ids[0]) then Some(ids[0])
    else FirstPrefixing(ids[1..], s)
  }

  lemma FirstPrefixingPrefixes(ids: seq<string>, s: string)
    ensures FirstPrefixing(ids, s).Some? ==> Prefixed(s, FirstPrefixing(ids, s).value)
  {
  }

  function FirstListing(registry: Registry, model: string): Option<string> {
    if registry == [] then None
    else if model in registry[0].1 then Some(registry[0].0)
    else FirstListing(registry[1..], model)
  }

  // ----- rerank -----

  function ByRegistryPrefix(registry: Registry, aliases: Aliases, s: string): Option<Parsed> {
    var id := FirstPrefixing(KeysOf(registry), s);
    FirstPrefixingPrefixes(KeysOf(registry), s);
    if id.None? then None else Some(Parsed(id, Some(Normalize(registry, aliases, id.value, AfterPrefix(s, id.value)))))
  }

  function ParseRerank(registry: Registry, aliases: Aliases, modelStr: Option<string>): Parsed {
    if modelStr.None? || modelStr.value == "" then Parsed(None, None)
    else
      var s := modelStr.value;
      var slash := FirstSlash(s);
      var resolved := Resolve(aliases, s[..slash]);
      if 0 < slash < |s| && Get(registry, resolved).Some?
      then Parsed(Some(resolved), Some(Normalize(registry, aliases, resolved, s[slash + 1..])))
      else if ByRegistryPrefix(registry, aliases, s).Some? then ByRegistryPrefix(registry, aliases, s).value
      else Parsed(FirstListing(registry, s), Some(s))
  }

  // ----- embeddings -----

  /** Exact aliases first come, first served; an alias without a slash also matches as the last segment. */
  function ApplyModelAliases(modelAliases: Object<string>, s: string): string {
    if modelAliases == [] then s
    else
      var name, canonical := modelAliases[0].0, modelAliases[0].1;
      if s == name then canonical
      else if '/' !in name && EndsWith(s, "/" + name) then (if name == "" then "" else s[..|s| - |name|]) + canonical
      else ApplyModelAliases(modelAliases[1..], s)
  }

  function ParsePrefixed(registry: Registry, aliases: Aliases, s: string, slash: nat, dynamic: seq<string>): Parsed
    requires slash < |s|
  {
    var raw := s[..slash];
    var resolved := Resolve(aliases, raw);
    var nodes := FirstPrefixing(dynamic, s);
    FirstPrefixingPrefixes(dynamic, s);
    if raw in dynamic then Parsed(Some(raw), Some(s[slash + 1..]))
    else if Get(registry, resolved).Some? then Parsed(Some(resolved), Some(Normalize(registry, aliases, resolved, s[slash + 1..])))
    else if ByRegistryPrefix(registry, aliases, s).Some? then ByRegistryPrefix(registry, aliases, s).value
    else if nodes.Some? then Parsed(nodes, Some(AfterPrefix(s, nodes.value)))
    else Parsed(Some(raw), Some(s[slash + 1..]))
  }

  function ParseEmbedding(registry: Registry, aliases: Aliases, modelAliases: Object<string>, dynamic: seq<string>,
                          modelStr: Option<string>): Parsed
  {
    if modelStr.None? || modelStr.value == "" then Parsed(None, None)
    else
      var s := ApplyModelAliases(modelAliases, modelStr.value);
      var slash := FirstSlash(s);
      if 0 < slash < |s| then ParsePrefixed(registry, aliases, s, slash, dynamic)
      else Parsed(FirstListing(registry, s), Some(s))
  }

  // ----- the catalog -----

  datatype Listing = Listing(id: string, provider: string)

  function ListProvider(provider: string, models: seq<string>): (r: seq<Listing>)
    ensures |r| == |models|
    ensures forall j :: 0 <= j < |models| ==> r[j] == Listing(ToProviderScoped(provider, models[j]), provider)
  {
    seq(|models|, j requires 0 <= j < |models| => Listing(ToProviderScoped(provider, models[j]), provider))
  }

  function ListAll(registry: Registry): seq<Listing> {
    if registry == [] then []
    else
      var last := registry[|registry| - 1];
      ListAll(registry[..|registry| - 1]) + ListProvider(last.0, last.1)
  }

  /** The loops of `getAllEmbeddingModels` and `getAllRerankModels`. */
  method GetAllModels(registry: Registry) returns (models: seq<Listing>)
    ensures models == ListAll(registry)
  {
    models := [];
    for i := 0 to |registry|
      invariant models == ListAll(registry[..i])
    {
      var provider, ids := registry[i].0, registry[i].1;
      assert registry[..i + 1][..i] == registry[..i];
      ghost var before, listed := models, ListProvider(provider, ids);
      for j := 0 to |ids|
        invariant models == before + listed[..j]
      {
        models := models + [Listing(ToProviderScoped(provider, ids[j]), provider)];
        assert listed[..j + 1] == listed[..j] + [listed[j]];
      }
      assert listed[..|ids|] == listed;
    }
    assert registry[..|registry|] == registry;
  }

  // ----- printing and parsing undo each other -----

  predicate PlainId(provider: string) {
    provider != "" && forall i :: 0 <= i < |provider| ==> provider[i] != '/'
  }

  /** The one ambiguity of the printed form: the provider lists both `provider/x`, which is the model, and plain `x`. */
  predicate ListedBothWays(registry: Registry, provider: string, model: string) {
    Prefixed(model, provider) && Lists(registry, provider, AfterPrefix(model, provider))
  }

  lemma FirstSlashOfScoped(provider: string, rest: string)
    requires PlainId(provider)
    ensures var s := provider + "/" + rest;
            FirstSlash(s) == |provider| && s[..|provider|] == provider && s[|provider| + 1..] == rest
  {
    var s := provider + "/" + rest;
    assert s[|provider|] == '/';
    assert forall j :: 0 <= j < |provider| ==> s[j] == provider[j];
  }

  /** What follows the first slash of a printed id, normalised again, is the model id exactly when that is not ambiguous. */
  lemma NormalizeUndoesScoping(registry: Registry, aliases: Aliases, provider: string, model: string)
    requires PlainId(provider) && Resolve(aliases, provider) == provider
    requires Lists(registry, provider, model)
    ensures var s := ToProviderScoped(provider, model);
            && FirstSlash(s) == |provider| < |s| && s[..|provider|] == provider
            && (Normalize(registry, aliases, provider, s[|provider| + 1..]) == model <==> !ListedBothWays(registry, provider, model))
  {
    var s := ToProviderScoped(provider, model);
    var rest := if Prefixed(model, provider) then AfterPrefix(model, provider) else model;
    if Prefixed(model, provider) {
      assert model == provider + "/" + rest;
    }
    FirstSlashOfScoped(provider, rest);
    assert s == provider + "/" + rest;
  }

  /** Rerank: every listed model parses back to its provider and id exactly when it is not listed both ways. */
  lemma RerankRoundTrip(registry: Registry, aliases: Aliases, provider: string, model: string)
    requires PlainId(provider) && Resolve(aliases, provider) == provider
    requires Lists(registry, provider, model)
    ensures ParseRerank(registry, aliases, Some(ToProviderScoped(provider, model))) == Parsed(Some(provider), Some(model))
            <==> !ListedBothWays(registry, provider, model)
  {
    NormalizeUndoesScoping(registry, aliases, provider, model);
  }

  /** The texts that normalise to a listed model: itself, its unscoped rest, or one scope too many, each unless something else of that name is listed. */
  predicate Spells(registry: Registry, provider: string, rest: string, model: string) {
    || rest == model
    || (!Lists(registry, provider, rest)
        && (model == provider + "/" + rest
            || (!Lists(registry, provider, provider + "/" + rest) && rest == provider + "/" + model)))
  }

  lemma NormalizesTo(registry: Registry, aliases: Aliases, provider: string, rest: string, model: string)
    requires Resolve(aliases, provider) == provider && Lists(registry, provider, model)
    ensures Normalize(registry, aliases, provider, rest) == model <==> Spells(registry, provider, rest, model)
  {
    if Prefixed(rest, provider) {
      assert rest == provider + "/" + AfterPrefix(rest, provider);
    }
    assert rest == provider + "/" + model ==> Prefixed(rest, provider) && AfterPrefix(rest, provider) == model;
  }

  /** The texts that mean a listed model once aliases have been applied; a dynamic provider takes everything after its own name as it is. */
  predicate Means(registry: Registry, aliases: Aliases, dynamic: seq<string>, s: string, provider: string, model: string) {
    var slash := FirstSlash(s);
    if 0 < slash < |s| then
      if s[..slash] in dynamic then s[..slash] == provider && s[slash + 1..] == model
      else Resolve(aliases, s[..slash]) == provider && Spells(registry, provider, s[slash + 1..], model)
    else s == model && FirstListing(registry, s) == Some(provider)
  }

  lemma PrefixIsFirstPart(s: string, provider: string)
    requires PlainId(provider) && Prefixed(s, provider)
    ensures FirstSlash(s) == |provider| < |s| && s[..|provider|] == provider
  {
    FirstSlashOfScoped(provider, AfterPrefix(s, provider));
    assert s == provider + "/" + AfterPrefix(s, provider);
  }

  /** Embeddings: exactly these texts parse to a listed model. */
  lemma EmbeddingMeaning(registry: Registry, aliases: Aliases, modelAliases: Object<string>, dynamic: seq<string>,
                         s: string, provider: string, model: string)
    requires PlainId(provider) && Resolve(aliases, provider) == provider
    requires Lists(registry, provider, model) && s != ""
    ensures ParseEmbedding(registry, aliases, modelAliases, dynamic, Some(s)) == Parsed(Some(provider), Some(model))
            <==> Means(registry, aliases, dynamic, ApplyModelAliases(modelAliases, s), provider, model)
  {
    var t := ApplyModelAliases(modelAliases, s);
    var slash := FirstSlash(t);
    if 0 < slash < |t| {
      NormalizesTo(registry, aliases, provider, t[slash + 1..], model);
      FirstPrefixingPrefixes(KeysOf(registry), t);
      FirstPrefixingPrefixes(dynamic, t);
      if Prefixed(t, provider) {
        PrefixIsFirstPart(t, provider);
      }
    }
  }

  /**
   A printed id parses back exactly when what the model aliases make of it is such
   a text. When they leave it alone, that is when the model is not listed both ways,
   or, under a dynamic provider of the same name, when its id needed scoping.
   */
  lemma EmbeddingRoundTrip(registry: Registry, aliases: Aliases, modelAliases: Object<string>, dynamic: seq<string>,
                           provider: string, model: string)
    requires PlainId(provider) && Resolve(aliases, provider) == provider
    requires Lists(registry, provider, model)
    ensures var s := ToProviderScoped(provider, model);
            var t := ApplyModelAliases(modelAliases, s);
            && (ParseEmbedding(registry, aliases, modelAliases, dynamic, Some(s)) == Parsed(Some(provider), Some(model))
                <==> Means(registry, aliases, dynamic, t, provider, model))
            && (t == s ==> (Means(registry, aliases, dynamic, t, provider, model)
                            <==> if provider in dynamic then !Prefixed(model, provider) else !ListedBothWays(registry, provider, model)))
  {
    var s := ToProviderScoped(provider, model);
    EmbeddingMeaning(registry, aliases, modelAliases, dynamic, s, provider, model);
    NormalizeUndoesScoping(registry, aliases, provider, model);
    NormalizesTo(registry, aliases, provider, s[|provider| + 1..], model);
  }

  /** A provider that lists its model under both names: the scoped one parses to the plain one, in either registry. */
  lemma ListedBothWaysIsLost()
    ensures var registry: Registry, s := [("p", ["p/x", "x"])], ToProviderScoped("p", "p/x");
            && Lists(registry, "p", "p/x")
            && ParseRerank(registry, map[], Some(s)) != Parsed(Some("p"), Some("p/x"))
            && ParseEmbedding(registry, map[], [], [], Some(s)) != Parsed(Some("p"), Some("p/x"))
  {
    var registry: Registry := [("p", ["p/x", "x"])];
    assert Prefixed("p/x", "p") && AfterPrefix("p/x", "p") == "x";
    assert ListedBothWays(registry, "p", "p/x");
    RerankRoundTrip(registry, map[], "p", "p/x");
    EmbeddingRoundTrip(registry, map[], [], [], "p", "p/x");
  }

  predicate Unambiguous(registry: Registry) {
    forall i :: 0 <= i < |registry| ==> forall m :: m in registry[i].1 ==> !ListedBothWays(registry, registry[i].0, m)
  }

  lemma {:induction false} ListingComesFrom(registry: Registry, l: Listing) returns (i: nat, model: string)
    requires l in ListAll(registry)
    ensures i < |registry| && model in registry[i].1 && l == Listing(ToProviderScoped(registry[i].0, model), registry[i].0)
  {
    var p, last := registry[..|registry| - 1], registry[|registry| - 1];
    if l in ListAll(p) {
      i, model := ListingComesFrom(p, l);
    } else {
      i := |p|;
      var j :| 0 <= j < |last.1| && ListProvider(last.0, last.1)[j] == l;
      model := last.1[j];
    }
  }

  /** The whole catalog, for a registry of plain non-alias ids that lists nothing both ways. */
  lemma CatalogParsesBack(registry: Registry, aliases: Aliases, modelAliases: Object<string>, dynamic: seq<string>, l: Listing)
    requires UniqueKeys(registry) && Unambiguous(registry)
    requires forall i :: 0 <= i < |registry| ==> PlainId(registry[i].0) && Resolve(aliases, registry[i].0) == registry[i].0
    requires l in ListAll(registry)
    ensures exists model :: && Lists(registry, l.provider, model) && l.id == ToProviderScoped(l.provider, model)
                            && ParseRerank(registry, aliases, Some(l.id)) == Parsed(Some(l.provider), Some(model))
                            && (ApplyModelAliases(modelAliases, l.id) == l.id && l.provider !in dynamic ==>
                                  ParseEmbedding(registry, aliases, modelAliases, dynamic, Some(l.id)) == Parsed(Some(l.provider), Some(model)))
  {
    var i, model := ListingComesFrom(registry, l);
    GetOwnValue(registry, i);
    RerankRoundTrip(registry, aliases, l.provider, model);
    if ApplyModelAliases(modelAliases, l.id) == l.id && l.provider !in dynamic {
      EmbeddingRoundTrip(registry, aliases, modelAliases, dynamic, l.provider, model);
    }
  }

  // ----- every text, listed or not -----

  /** A model alias that rewrites `s`: the whole text, or, for one without a slash, what follows a slash at the end. */
  predicate Rewrites(alias: string, s: string) {
    s == alias || ('/' !in alias && EndsWith(s, "/" + alias))
  }

  ghost predicate FirstRewrite(modelAliases: Object<string>, s: string, i: nat) {
    i < |modelAliases| && Rewrites(modelAliases[i].0, s) && forall j :: 0 <= j < i ==> !Rewrites(modelAliases[j].0, s)
  }

  /** The first alias that rewrites a text replaces it, or its last segment, by the canonical name; without one the text stays. */
  lemma {:induction false} ModelAliasesAre(modelAliases: Object<string>, s: string, i: nat, head: string)
    ensures FirstRewrite(modelAliases, s, i) ==>
              var name, canonical, t := modelAliases[i].0, modelAliases[i].1, ApplyModelAliases(modelAliases, s);
              && (s == name ==> t == canonical)
              && (s != name && name != "" && s == head + "/" + name ==> t == head + "/" + canonical)
              && (s != name && name == "" ==> t == canonical)
    ensures (forall j :: 0 <= j < |modelAliases| ==> !Rewrites(modelAliases[j].0, s)) ==> ApplyModelAliases(modelAliases, s) == s
  {
    if modelAliases != [] {
      assert forall j :: 0 < j < |modelAliases| ==> modelAliases[1..][j - 1] == modelAliases[j];
      if i > 0 {
        ModelAliasesAre(modelAliases[1..], s, i - 1, head);
        assert FirstRewrite(modelAliases, s, i) ==> FirstRewrite(modelAliases[1..], s, i - 1) && !Rewrites(modelAliases[0].0, s);
      } else {
        ModelAliasesAre(modelAliases[1..], s, 0, head);
        var name := modelAliases[0].0;
        if s == head + "/" + name {
          assert s[..|s| - |name|] == head + "/";
        }
      }
    }
  }

  ghost predicate FirstOwner(ids: seq<string>, s: string, i: nat) {
    i < |ids| && Prefixed(s, ids[i]) && forall j :: 0 <= j < i ==> !Prefixed(s, ids[j])
  }

  lemma {:induction false} FirstPrefixingIs(ids: seq<string>, s: string)
    ensures FirstPrefixing(ids, s).None? <==> forall i :: 0 <= i < |ids| ==> !Prefixed(s, ids[i])
    ensures forall i: nat :: FirstOwner(ids, s, i) ==> FirstPrefixing(ids, s) == Some(ids[i])
  {
    if ids != [] {
      FirstPrefixingIs(ids[1..], s);
      assert forall i :: 0 < i < |ids| ==> ids[1..][i - 1] == ids[i];
      forall i: nat | FirstOwner(ids, s, i) && i > 0
        ensures FirstOwner(ids[1..], s, i - 1)
      {
        assert !Prefixed(s, ids[0]);
      }
    }
  }

  ghost predicate FirstLister(registry: Registry, s: string, i: nat) {
    i < |registry| && s in registry[i].1 && forall j :: 0 <= j < i ==> s !in registry[j].1
  }

  ghost predicate NobodyLists(registry: Registry, s: string) {
    forall i :: 0 <= i < |registry| ==> s !in registry[i].1
  }

  lemma {:induction false} FirstListingIs(registry: Registry, s: string)
    ensures FirstListing(registry, s).None? <==> NobodyLists(registry, s)
    ensures forall i: nat :: FirstLister(registry, s, i) ==> FirstListing(registry, s) == Some(registry[i].0)
  {
    if registry != [] {
      FirstListingIs(registry[1..], s);
      assert forall i :: 0 < i < |registry| ==> registry[1..][i - 1] == registry[i];
      forall i: nat | FirstLister(registry, s, i) && i > 0
        ensures FirstLister(registry[1..], s, i - 1)
      {
        assert s !in registry[0].1;
      }
    }
  }

  lemma PrefixedHasSlash(s: string, id: string)
    ensures Prefixed(s, id) ==> '/' in s
  {
    if Prefixed(s, id) {
      assert s[|id|] == (id + "/")[|id|];
    }
  }

  lemma NoSlashNoPrefix(ids: seq<string>, s: string)
    requires '/' !in s
    ensures FirstPrefixing(ids, s).None? && FirstSlash(s) == |s|
  {
    FirstPrefixingIs(ids, s);
    forall i | 0 <= i < |ids|
      ensures !Prefixed(s, ids[i])
    {
      PrefixedHasSlash(s, ids[i]);
    }
  }

  /** Bare names, in both registries: the first provider that lists the name, or none, and the name itself. */
  lemma BareNames(registry: Registry, aliases: Aliases, dynamic: seq<string>, s: string)
    requires s != "" && '/' !in s
    ensures ParseRerank(registry, aliases, Some(s)) == ParseEmbedding(registry, aliases, [], dynamic, Some(s))
    ensures forall i: nat :: FirstLister(registry, s, i) ==> ParseRerank(registry, aliases, Some(s)) == Parsed(Some(registry[i].0), Some(s))
    ensures NobodyLists(registry, s) ==> ParseRerank(registry, aliases, Some(s)) == Parsed(None, Some(s))
  {
    NoSlashNoPrefix(KeysOf(registry), s);
    FirstListingIs(registry, s);
  }

  /** An id found to belong to a provider: as listed, else scoped as listed, else less one scope too many. */
  lemma NormalizeIs(registry: Registry, aliases: Aliases, provider: string, model: string)
    ensures var m, own := Normalize(registry, aliases, provider, model), Resolve(aliases, provider);
            && (Lists(registry, own, model) ==> m == model)
            && (!Lists(registry, own, model) && Lists(registry, own, own + "/" + model) ==> m == own + "/" + model)
            && (!Lists(registry, own, model) && !Lists(registry, own, own + "/" + model) ==>
                  if Prefixed(model, provider) then model == provider + "/" + m else m == model)
  {
    if Prefixed(model, provider) {
      assert model == provider + "/" + AfterPrefix(model, provider);
    }
  }

  /**
   Embedding texts with a first segment `q`, once aliases have been applied: an exactly named dynamic provider takes
   the rest as it is; else a registered provider, by id or alias, takes it
   normalised; else the first registered id with slashes of its own that starts the
   text; else the first such dynamic id; else `q` is the provider.
   */
  lemma EmbeddingByParts(registry: Registry, aliases: Aliases, modelAliases: Object<string>, dynamic: seq<string>, text: string, q: string, r: string)
    requires PlainId(q) && text != "" && ApplyModelAliases(modelAliases, text) == q + "/" + r
    ensures var s := q + "/" + r;
            var parsed := ParseEmbedding(registry, aliases, modelAliases, dynamic, Some(text));
            var own, ids := Resolve(aliases, q), KeysOf(registry);
            if q in dynamic then parsed == Parsed(Some(q), Some(r))
            else if HasKey(registry, own) then parsed == Parsed(Some(own), Some(Normalize(registry, aliases, own, r)))
            else
              && (forall i: nat :: FirstOwner(ids, s, i) ==>
                    parsed == Parsed(Some(ids[i]), Some(Normalize(registry, aliases, ids[i], s[|ids[i]| + 1..]))))
              && ((forall i :: 0 <= i < |ids| ==> !Prefixed(s, ids[i])) ==>
                    && (forall i: nat :: FirstOwner(dynamic, s, i) ==> parsed == Parsed(Some(dynamic[i]), Some(s[|dynamic[i]| + 1..])))
                    && ((forall i :: 0 <= i < |dynamic| ==> !Prefixed(s, dynamic[i])) ==> parsed == Parsed(Some(q), Some(r))))
  {
    var s := q + "/" + r;
    FirstSlashOfScoped(q, r);
    GetIsIndex(registry, Resolve(aliases, q));
    FirstPrefixingIs(KeysOf(registry), s);
    FirstPrefixingIs(dynamic, s);
  }

  /** Rerank texts with a first segment: the same without dynamic providers, save that an unknown one is looked up as a bare name. */
  lemma RerankByParts(registry: Registry, aliases: Aliases, q: string, r: string)
    requires PlainId(q)
    ensures var s := q + "/" + r;
            var parsed := ParseRerank(registry, aliases, Some(s));
            var own, ids := Resolve(aliases, q), KeysOf(registry);
            if HasKey(registry, own) then parsed == Parsed(Some(own), Some(Normalize(registry, aliases, own, r)))
            else
              && (forall i: nat :: FirstOwner(ids, s, i) ==>
                    parsed == Parsed(Some(ids[i]), Some(Normalize(registry, aliases, ids[i], s[|ids[i]| + 1..]))))
              && ((forall i :: 0 <= i < |ids| ==> !Prefixed(s, ids[i])) ==>
                    && (forall i: nat :: FirstLister(registry, s, i) ==> parsed == Parsed(Some(registry[i].0), Some(s)))
                    && (NobodyLists(registry, s) ==> parsed == Parsed(None, Some(s))))
  {
    var s := q + "/" + r;
    FirstSlashOfScoped(q, r);
    GetIsIndex(registry, Resolve(aliases, q));
    FirstPrefixingIs(KeysOf(registry), s);
    FirstListingIs(registry, s);
  }

  /** No model is left out of the catalog. */
  lemma {:induction false} EveryModelIsListed(registry: Registry, i: nat, model: string)
    requires i < |registry| && model in registry[i].1
    ensures Listing(ToProviderScoped(registry[i].0, model), registry[i].0) in ListAll(registry)
  {
    if i == |registry| - 1 {
      var j :| 0 <= j < |registry[i].1| && registry[i].1[j] == model;
      assert ListProvider(registry[i].0, registry[i].1)[j] in ListAll(registry);
    } else {
      EveryModelIsListed(registry[..|registry| - 1], i, model);
    }
  }
}
