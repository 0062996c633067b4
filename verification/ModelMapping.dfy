/**
  Mapping a requested model to one that the target provider offers, and the startup validation that is
  meant to make sure this always finds one.
 */
module ModelMapping {
  import opened Wrappers
  import opened ModelIds

  type Names = seq<string>
  type Mapping = map<string, Names>  // a model and its alternatives, in the order in which their set happens to iterate

  datatype RouterConfig = RouterConfig(providers: seq<Provider>, mappings: Option<Mapping>)

  /** The default mapping is never empty where configurations are read; nothing below depends on it. */
  datatype Config = Config(providers: map<Provider, Names>, defaultMapping: Mapping, routers: map<string, RouterConfig>)

  // ---------- Mapping at run time ----------

  datatype MapError = NoProviderConfig | NoModelMapping | InvalidModelName

  /** `n` is offered, stands among the alternatives, and nothing before it is offered. */
  ghost predicate IsFirstOffered(alternatives: Names, offered: Names, n: string)
  {
    exists k :: 0 <= k < |alternatives| && alternatives[k] == n && n in offered &&
      forall j :: 0 <= j < k ==> alternatives[j] !in offered
  }

  function FirstOffered(alternatives: Names, offered: Names): (r: Option<string>)
    ensures r.Some? ==> r.value in alternatives && r.value in offered
    ensures r.None? <==> forall m :: m in alternatives ==> m !in offered
  {
    if alternatives == [] then None
    else if alternatives[0] in offered then Some(alternatives[0])
    else FirstOffered(alternatives[1..], offered)
  }

  function Alternatives(mapping: Option<Mapping>, name: string): Names
  {
    if mapping.Some? && name in mapping.value then mapping.value[name] else []
  }

  function ParseOrFail(cal: Calendar, target: Provider, name: string): Result<ModelId, MapError>
  {
    match ParseFor(cal, target, name)
    case Some(m) => Ok(m)
    case None => Err(InvalidModelName)
  }

  /** The search through the router's mapping and then the default one. */
  function Found(cfg: Config, mappings: Option<Mapping>, name: string, offered: Names): Option<string>
  {
    var routed := FirstOffered(Alternatives(mappings, name), offered);
    if routed.Some? then routed else FirstOffered(Alternatives(Some(cfg.defaultMapping), name), offered)
  }

  function MapModel(cal: Calendar, cfg: Config, mappings: Option<Mapping>, source: ModelId, target: Provider)
    : Result<ModelId, MapError>
  {
    if target !in cfg.providers then Err(NoProviderConfig)
    else
      var offered, name := cfg.providers[target], NameOf(source);
      var found := Found(cfg, mappings, name, offered);
      if name in offered then Ok(source)
      else if found.Some? then ParseOrFail(cal, target, found.value)
      else Err(NoModelMapping)
  }

  // ---------- Validation at startup ----------

  datatype ValidationError =
    | ProviderNotConfigured(router: string, provider: Provider)
    | NoValidMapping(router: string, model: string, target: Provider)
    | ModelNotFound(model: string)

  predicate AnyOffered(alternatives: Names, offered: Names)
  {
    exists m :: m in alternatives && m in offered
  }

  /** Validation's own test: direct support, then the router's mapping, then the default one. */
  predicate CanMapModel(cfg: Config, mappings: Option<Mapping>, name: string, offered: Names)
  {
    || name in offered
    || (mappings.Some? && name in mappings.value && AnyOffered(mappings.value[name], offered))
    || (name in cfg.defaultMapping && AnyOffered(cfg.defaultMapping[name], offered))
  }

  /** Some configured provider offers the model. */
  ghost predicate Exists(cfg: Config, m: string)
  {
    exists p :: p in cfg.providers && m in cfg.providers[p]
  }

  ghost predicate MappingExists(cfg: Config, mapping: Mapping)
  {
    forall source :: source in mapping ==>
      Exists(cfg, source) && forall m :: m in mapping[source] ==> Exists(cfg, m)
  }

  ghost predicate AllMappingsExist(cfg: Config)
  {
    && MappingExists(cfg, cfg.defaultMapping)
    && forall id :: id in cfg.routers && cfg.routers[id].mappings.Some? ==> MappingExists(cfg, cfg.routers[id].mappings.value)
  }

  /** `name` is offered by one of the router's providers. */
  ghost predicate Requestable(cfg: Config, r: RouterConfig, name: string)
  {
    exists p :: p in r.providers && p in cfg.providers && name in cfg.providers[p]
  }

  ghost predicate RouterValid(cfg: Config, r: RouterConfig)
  {
    && (forall p :: p in r.providers ==> p in cfg.providers)
    && forall target, name :: target in r.providers && Requestable(cfg, r, name) ==>
         CanMapModel(cfg, r.mappings, name, cfg.providers[target])
  }

  ghost predicate ConfigValid(cfg: Config)
  {
    AllMappingsExist(cfg) && forall id :: id in cfg.routers ==> RouterValid(cfg, cfg.routers[id])
  }

  /** The validation loops over one router; an error names a provider or a pair that really fails. */
  method ValidateRouter(cfg: Config, id: string, r: RouterConfig) returns (e: Option<ValidationError>)
    ensures e.None? <==> RouterValid(cfg, r)
    ensures e.Some? ==> !e.value.ModelNotFound? && e.value.router == id
    ensures e.Some? && e.value.ProviderNotConfigured? ==>
      e.value.provider in r.providers && e.value.provider !in cfg.providers
    ensures e.Some? && e.value.NoValidMapping? ==>
      e.value.target in r.providers && e.value.target in cfg.providers && Requestable(cfg, r, e.value.model) &&
      !CanMapModel(cfg, r.mappings, e.value.model, cfg.providers[e.value.target])
  {
    for i := 0 to |r.providers|
      invariant forall j :: 0 <= j < i ==> r.providers[j] in cfg.providers
    {
      if r.providers[i] !in cfg.providers {
        return Some(ProviderNotConfigured(id, r.providers[i]));
      }
    }
    var allModels := CollectModels(cfg, r);
    for i := 0 to |r.providers|
      invariant forall j :: 0 <= j < i ==>
        forall name :: name in allModels ==> CanMapModel(cfg, r.mappings, name, cfg.providers[r.providers[j]])
    {
      var target := r.providers[i];
      for k := 0 to |allModels|
        invariant forall j :: 0 <= j < k ==> CanMapModel(cfg, r.mappings, allModels[j], cfg.providers[target])
      {
        if !CanMapModel(cfg, r.mappings, allModels[k], cfg.providers[target]) {
          assert allModels[k] in allModels;
          return Some(NoValidMapping(id, allModels[k], target));
        }
      }
    }
    return None;
  }

  /** Every model offered by the router's providers. */
  method CollectModels(cfg: Config, r: RouterConfig) returns (names: Names)
    requires forall j :: 0 <= j < |r.providers| ==> r.providers[j] in cfg.providers
    ensures forall name :: name in names <==> Requestable(cfg, r, name)
  {
    names := [];
    for i := 0 to |r.providers|
      invariant forall name :: name in names <==> exists j :: 0 <= j < i && name in cfg.providers[r.providers[j]]
    {
      names := names + cfg.providers[r.providers[i]];
    }
  }

  /** The mapping names the model, as a source or as an alternative. */
  ghost predicate Mentions(mapping: Mapping, m: string)
  {
    m in mapping || exists source :: source in mapping && m in mapping[source]
  }

  lemma MappingMeans(cfg: Config, mapping: Mapping)
    ensures MappingExists(cfg, mapping) <==>
      forall m :: Mentions(mapping, m) ==> exists p :: p in cfg.providers && m in cfg.providers[p]
  {
    if forall m :: Mentions(mapping, m) ==> exists p :: p in cfg.providers && m in cfg.providers[p] {
      forall source | source in mapping
        ensures Exists(cfg, source) && forall m :: m in mapping[source] ==> Exists(cfg, m)
      {
        assert Mentions(mapping, source);
        forall m | m in mapping[source] ensures Exists(cfg, m) { assert Mentions(mapping, m); }
      }
    }
  }

  /** The models of one mapping are all known; an error names one that is not. */
  method ValidateMapping(cfg: Config, mapping: Mapping) returns (e: Option<ValidationError>)
    ensures e.None? <==> MappingExists(cfg, mapping)
    ensures e.None? <==> forall m :: Mentions(mapping, m) ==> exists p :: p in cfg.providers && m in cfg.providers[p]
    ensures e.Some? ==> e.value.ModelNotFound? && !Exists(cfg, e.value.model)
    ensures e.Some? ==> exists source :: source in mapping && e.value.model in [source] + mapping[source]
  {
    MappingMeans(cfg, mapping);
    var known := set p, m | p in cfg.providers && m in cfg.providers[p] :: m;
    assert forall m :: m in known <==> Exists(cfg, m);
    var left := mapping.Keys;
    while left != {}
      invariant left <= mapping.Keys
      invariant forall source :: source in mapping && source !in left ==>
        Exists(cfg, source) && forall m :: m in mapping[source] ==> Exists(cfg, m)
    {
      var source :| source in left;
      var names := [source] + mapping[source];
      assert names[0] == source && names[1..] == mapping[source];
      for k := 0 to |names|
        invariant forall j :: 0 <= j < k ==> Exists(cfg, names[j])
      {
        if names[k] !in known {
          assert names[k] in names;
          return Some(ModelNotFound(names[k]));
        }
      }
      left := left - {source};
    }
    return None;
  }

  /** The whole validation: mappings first, then router by router, stopping at the first error. */
  method ValidateModelMappings(cfg: Config) returns (e: Option<ValidationError>)
    ensures e.None? <==> ConfigValid(cfg)
    ensures !AllMappingsExist(cfg) <==> e.Some? && e.value.ModelNotFound?
    ensures e.None? ==> forall m ::
      (Mentions(cfg.defaultMapping, m) ||
       exists id :: id in cfg.routers && cfg.routers[id].mappings.Some? && Mentions(cfg.routers[id].mappings.value, m)) ==>
        exists p :: p in cfg.providers && m in cfg.providers[p]
  {
    e := ValidateMapping(cfg, cfg.defaultMapping);
    if e.Some? { return; }
    var left := cfg.routers.Keys;
    while left != {}
      invariant left <= cfg.routers.Keys
      invariant forall id :: id in cfg.routers && id !in left && cfg.routers[id].mappings.Some? ==>
        MappingExists(cfg, cfg.routers[id].mappings.value)
    {
      var id :| id in left;
      if cfg.routers[id].mappings.Some? {
        e := ValidateMapping(cfg, cfg.routers[id].mappings.value);
        if e.Some? { return; }
      }
      left := left - {id};
    }
    left := cfg.routers.Keys;
    while left != {}
      invariant left <= cfg.routers.Keys
      invariant forall id :: id in cfg.routers && id !in left ==> RouterValid(cfg, cfg.routers[id])
    {
      var id :| id in left;
      e := ValidateRouter(cfg, id, cfg.routers[id]);
      if e.Some? { return; }
      left := left - {id};
    }
    MappingMeans(cfg, cfg.defaultMapping);
    forall id | id in cfg.routers && cfg.routers[id].mappings.Some?
      ensures forall m :: Mentions(cfg.routers[id].mappings.value, m) ==> exists p :: p in cfg.providers && m in cfg.providers[p]
    {
      MappingMeans(cfg, cfg.routers[id].mappings.value);
    }
    return None;
  }

  // ---------- Validation and mapping agree ----------

  /** The test fails exactly when the search at run time would come up empty. */
  lemma CanMapExactly(cal: Calendar, cfg: Config, mappings: Option<Mapping>, source: ModelId, target: Provider)
    requires target in cfg.providers
    ensures CanMapModel(cfg, mappings, NameOf(source), cfg.providers[target]) <==>
      MapModel(cal, cfg, mappings, source, target) != Err(NoModelMapping)
  {
  }

  lemma OfferedExactly(alternatives: Names, offered: Names)
    ensures AnyOffered(alternatives, offered) <==> FirstOffered(alternatives, offered).Some?
  {
  }

  /** The search finds the first, and there is only one first. */
  lemma {:induction false} FirstIsFirst(alternatives: Names, offered: Names, n: string)
    ensures FirstOffered(alternatives, offered) == Some(n) <==> IsFirstOffered(alternatives, offered, n)
  {
    if alternatives != [] {
      var rest := alternatives[1..];
      FirstIsFirst(rest, offered, n);
      if alternatives[0] in offered {
        assert IsFirstOffered(alternatives, offered, n) <==> alternatives[0] == n;
      } else if IsFirstOffered(rest, offered, n) {
        var k :| 0 <= k < |rest| && rest[k] == n && n in offered && forall j :: 0 <= j < k ==> rest[j] !in offered;
        assert forall j :: 0 < j < k + 1 ==> alternatives[j] == rest[j - 1];
        assert alternatives[k + 1] == n;
      }
    }
  }

  /** The name a mapping settles on: an offered alternative of the router or, if it has none, of the default mapping. */
  ghost predicate Chooses(cfg: Config, mappings: Option<Mapping>, source: ModelId, target: Provider, n: string)
    requires target in cfg.providers
  {
    var offered, name := cfg.providers[target], NameOf(source);
    && name !in offered
    && (|| IsFirstOffered(Alternatives(mappings, name), offered, n)
        || (!AnyOffered(Alternatives(mappings, name), offered) &&
            IsFirstOffered(Alternatives(Some(cfg.defaultMapping), name), offered, n)))
  }

  lemma ChoosesExactly(cfg: Config, mappings: Option<Mapping>, source: ModelId, target: Provider, n: string)
    requires target in cfg.providers
    ensures var offered, name := cfg.providers[target], NameOf(source);
      Chooses(cfg, mappings, source, target, n) <==> name !in offered && Found(cfg, mappings, name, offered) == Some(n)
  {
    var offered, name := cfg.providers[target], NameOf(source);
    var routed := Alternatives(mappings, name);
    FirstIsFirst(routed, offered, n);
    FirstIsFirst(Alternatives(Some(cfg.defaultMapping), name), offered, n);
    OfferedExactly(routed, offered);
  }

  /** The precedence, whatever order the alternatives come in: the model itself, then the router, then the default. */
  lemma MappingPrecedence(
    cal: Calendar, cfg: Config, mappings: Option<Mapping>, source: ModelId, target: Provider, n: string)
    requires target in cfg.providers
    ensures var r, offered := MapModel(cal, cfg, mappings, source, target), cfg.providers[target];
      && (NameOf(source) in offered ==> r == Ok(source))
      && (Chooses(cfg, mappings, source, target, n) ==> r == ParseOrFail(cal, target, n))
      && (r == Err(NoModelMapping) <==>
            NameOf(source) !in offered && forall m :: !Chooses(cfg, mappings, source, target, m))
  {
    forall m { ChoosesExactly(cfg, mappings, source, target, m); }
    var found := Found(cfg, mappings, NameOf(source), cfg.providers[target]);
    if found.Some? {
      assert NameOf(source) !in cfg.providers[target] ==> Chooses(cfg, mappings, source, target, found.value);
    }
  }

  // ---------- The order of alternatives ----------

  /** A set of names may be iterated in this order. */
  ghost predicate Iterates(order: Names, names: set<string>)
  {
    && (forall m :: m in order <==> m in names)
    && (forall i, j :: 0 <= i < j < |order| ==> order[i] != order[j])
  }

  lemma {:induction false} SomeOrder(names: set<string>) returns (order: Names)
    ensures Iterates(order, names)
  {
    order := [];
    if names != {} {
      var m :| m in names;
      var rest := SomeOrder(names - {m});
      order := [m] + rest;
    }
  }

  /** The alternatives that some order lets the search choose are exactly the offered ones. */
  lemma ChoiceExactly(names: set<string>, offered: Names, n: string)
    ensures (exists order :: Iterates(order, names) && FirstOffered(order, offered) == Some(n)) <==>
      n in names && n in offered
  {
    if n in names && n in offered {
      var rest := SomeOrder(names - {n});
      var order := [n] + rest;
      assert Iterates(order, names) && FirstOffered(order, offered) == Some(n);
    }
  }

  /** At most one of the alternatives is offered. */
  ghost predicate OneOffered(names: set<string>, offered: Names)
  {
    forall m, n :: m in names && n in names && m in offered && n in offered ==> m == n
  }

  /** So the choice does not depend on the order exactly if at most one alternative is offered. */
  lemma ChoiceSettled(names: set<string>, offered: Names)
    ensures OneOffered(names, offered) <==>
      forall a, b :: Iterates(a, names) && Iterates(b, names) ==> FirstOffered(a, offered) == FirstOffered(b, offered)
  {
    if OneOffered(names, offered) {
      forall a, b | Iterates(a, names) && Iterates(b, names) ensures FirstOffered(a, offered) == FirstOffered(b, offered) {
        assert forall m :: m in a <==> m in b;
      }
    } else {
      var m, n :| m in names && n in names && m in offered && n in offered && m != n;
      ChoiceExactly(names, offered, m);
      ChoiceExactly(names, offered, n);
    }
  }

  // ---------- What a mapping returns ----------

  /** What a mapping returns is the source itself, or the target's reading of a name the target offers. */
  lemma MappedIsOffered(cal: Calendar, cfg: Config, mappings: Option<Mapping>, source: ModelId, target: Provider)
    requires MapModel(cal, cfg, mappings, source, target).Ok?
    ensures var m := MapModel(cal, cfg, mappings, source, target).value;
      && target in cfg.providers
      && (|| (m == source && NameOf(source) in cfg.providers[target])
          || exists n :: n in cfg.providers[target] && ParseFor(cal, target, n) == Some(m))
  {
  }

  /** The remaining error arises exactly when the chosen name cannot be read in the target's style. */
  lemma UnreadableExactly(cal: Calendar, cfg: Config, mappings: Option<Mapping>, source: ModelId, target: Provider)
    ensures MapModel(cal, cfg, mappings, source, target) == Err(InvalidModelName) <==>
      target in cfg.providers && exists n :: Chooses(cfg, mappings, source, target, n) && !Readable(target, n)
  {
    if target in cfg.providers {
      forall n { MappingPrecedence(cal, cfg, mappings, source, target, n); }
      forall n { ReadableExactly(cal, target, n); }
    }
  }

  // ---------- What validation promises ----------

  /** The mapping comes up empty: for want of a provider, or of a name to use there. */
  ghost predicate Fails(cal: Calendar, cfg: Config, r: RouterConfig, source: ModelId, target: Provider)
  {
    var m := MapModel(cal, cfg, r.mappings, source, target);
    m == Err(NoProviderConfig) || m == Err(NoModelMapping)
  }

  /** A text is read in the style of `p`, its looked-up name is one the router's providers offer, and it fails. */
  ghost predicate Misses(cal: Calendar, cfg: Config, r: RouterConfig, p: Provider, text: string, target: Provider)
  {
    && ParseFor(cal, p, text).Some?
    && var source := ParseFor(cal, p, text).value;
       && Fails(cal, cfg, r, source, target)
       && (target in cfg.providers ==> Requestable(cfg, r, NameOf(source)))
  }

  /**
    Validation is exact for looked-up names: it accepts a router if and only if no text that can be requested,
    in any provider's style, fails although one of the router's providers offers its looked-up name.
   */
  lemma ValidationExact(cal: Calendar, cfg: Config, r: RouterConfig)
    ensures RouterValid(cfg, r) <==>
      forall p, text, target :: target in r.providers ==> !Misses(cal, cfg, r, p, text, target)
  {
    if RouterValid(cfg, r) {
      forall p, text, target | target in r.providers && ParseFor(cal, p, text).Some?
        ensures !Misses(cal, cfg, r, p, text, target)
      {
        CanMapExactly(cal, cfg, r.mappings, ParseFor(cal, p, text).value, target);
      }
    } else {
      var p, text, target := ValidationTight(cal, cfg, r);
    }
  }

  /** A rejected router has a request that fails: some text is looked up by the very name that was rejected. */
  lemma ValidationTight(cal: Calendar, cfg: Config, r: RouterConfig) returns (p: Provider, text: string, target: Provider)
    requires !RouterValid(cfg, r)
    ensures target in r.providers && Misses(cal, cfg, r, p, text, target)
  {
    p := OpenAI;
    if q :| q in r.providers && q !in cfg.providers {
      target := q;
      text := EveryNameIsRead(cal, "");
    } else {
      var name;
      target, name :| target in r.providers && Requestable(cfg, r, name) &&
        !CanMapModel(cfg, r.mappings, name, cfg.providers[target]);
      text := EveryNameIsRead(cal, name);
      CanMapExactly(cal, cfg, r.mappings, ParseFor(cal, p, text).value, target);
    }
  }

  // ---------- Offered names, as they are written ----------

  /** `n` stands among the models of `q`, one of the router's providers, and can be read in its style. */
  ghost predicate Offers(cfg: Config, r: RouterConfig, q: Provider, n: string)
  {
    q in r.providers && q in cfg.providers && n in cfg.providers[q] && Readable(q, n)
  }

  /** The name by which `n` is looked up can be mapped to the target. */
  ghost predicate LookupMaps(cal: Calendar, cfg: Config, r: RouterConfig, q: Provider, n: string, target: Provider)
  {
    target in cfg.providers && CanMapModel(cfg, r.mappings, LookupName(cal, q, n), cfg.providers[target])
  }

  /**
    When a valid router serves an offered name that is requested as it is written: exactly if the name carries
    no version, tag or Bedrock parts, or what is left without them can be mapped as well.
   */
  lemma OfferedNameServed(cal: Calendar, cfg: Config, r: RouterConfig, q: Provider, n: string, target: Provider)
    requires RouterValid(cfg, r) && target in r.providers && Offers(cfg, r, q, n)
    ensures ParseFor(cal, q, n).Some?
    ensures Fails(cal, cfg, r, ParseFor(cal, q, n).value, target) <==>
      !KeepsName(cal, q, n) && !LookupMaps(cal, cfg, r, q, n, target)
  {
    LookupNameIs(cal, q, n);
    KeepsNameExactly(cal, q, n);
    CanMapExactly(cal, cfg, r.mappings, ParseFor(cal, q, n).value, target);
    assert Requestable(cfg, r, n);
  }

  /** Every offered name, requested as it is written, is mapped to every target of the router. */
  ghost predicate ServesOffers(cal: Calendar, cfg: Config, r: RouterConfig)
  {
    forall q, n, target :: Offers(cfg, r, q, n) && target in r.providers && ParseFor(cal, q, n).Some? ==>
      !Fails(cal, cfg, r, ParseFor(cal, q, n).value, target)
  }

  /** A valid router keeps that promise exactly if the names that lose something in the lookup can be mapped too. */
  lemma ServesOffersExactly(cal: Calendar, cfg: Config, r: RouterConfig)
    requires RouterValid(cfg, r)
    ensures ServesOffers(cal, cfg, r) <==>
      forall q, n, target :: Offers(cfg, r, q, n) && target in r.providers && !KeepsName(cal, q, n) ==>
        LookupMaps(cal, cfg, r, q, n, target)
  {
    forall q, n, target | Offers(cfg, r, q, n) && target in r.providers
      ensures ParseFor(cal, q, n).Some?
      ensures Fails(cal, cfg, r, ParseFor(cal, q, n).value, target) <==>
        !KeepsName(cal, q, n) && !LookupMaps(cal, cfg, r, q, n, target)
    {
      OfferedNameServed(cal, cfg, r, q, n, target);
    }
  }

  function BedrockOnly(n: string): Config
  {
    Config(map[BedrockProvider := [n]], map[n := [n]], map["main" := RouterConfig([BedrockProvider], None)])
  }

  /** Validation does not make the promise: it accepts any one Bedrock name, and a request for that name fails. */
  lemma ValidYetUnmapped(cal: Calendar, n: string)
    requires Readable(BedrockProvider, n)
    ensures ConfigValid(BedrockOnly(n)) && ParseFor(cal, BedrockProvider, n).Some?
    ensures MapModel(cal, BedrockOnly(n), None, ParseFor(cal, BedrockProvider, n).value, BedrockProvider) ==
      Err(NoModelMapping)
  {
    BedrockOnlyValid(n);
    BedrockNameShorter(cal, n);
    LookupNameIs(cal, BedrockProvider, n);
  }

  lemma BedrockOnlyValid(n: string)
    ensures ConfigValid(BedrockOnly(n))
  {
    var cfg := BedrockOnly(n);
    assert Exists(cfg, n) by { assert BedrockProvider in cfg.providers && n in cfg.providers[BedrockProvider]; }
    assert RouterValid(cfg, cfg.routers["main"]);
  }

  /** ... for instance this one. */
  lemma NovaUnmapped(cal: Calendar)
    ensures var n := "amazon.nova-v1";
      && ConfigValid(BedrockOnly(n)) && ParseFor(cal, BedrockProvider, n).Some?
      && MapModel(cal, BedrockOnly(n), None, ParseFor(cal, BedrockProvider, n).value, BedrockProvider) ==
           Err(NoModelMapping)
  {
    NovaReadable();
    ValidYetUnmapped(cal, "amazon.nova-v1");
  }

  lemma NovaReadable()
    ensures Readable(BedrockProvider, "amazon.nova-v1")
  {
    var s := "amazon.nova-v1";
    assert s[6] == '.';
    var dot := FirstChar(s, '.', 0);
    assert dot == Some(6);
    assert s[7..] == "nova-v1" && StartsAt("nova-v1", "-v", 4);
  }

  const GptOrNova := RouterConfig([OpenAI, BedrockProvider], None)
  const GptToNova := Config(
    map[OpenAI := ["gpt", "nova"], BedrockProvider := ["nova"]], map["gpt" := ["nova"]], map["main" := GptOrNova])

  /** A configuration that passes validation and still fails at run time: a Bedrock model without "-v". */
  lemma ValidYetUnreadable(cal: Calendar)
    ensures ConfigValid(GptToNova) && ParseFor(cal, OpenAI, "gpt").Some?
    ensures MapModel(cal, GptToNova, None, ParseFor(cal, OpenAI, "gpt").value, BedrockProvider) == Err(InvalidModelName)
  {
    GptToNovaValid();
    assert "gpt" !in ["nova"] by { assert |"gpt"| != |"nova"|; }
    assert FirstChar("nova", '.', 0).None?;
    GptHasNoVersion(cal);
    LookupNameIs(cal, OpenAI, "gpt");
  }

  lemma GptToNovaValid()
    ensures ConfigValid(GptToNova)
  {
    var cfg := GptToNova;
    assert Exists(cfg, "gpt") && Exists(cfg, "nova") by {
      assert OpenAI in cfg.providers && "gpt" in cfg.providers[OpenAI] && "nova" in cfg.providers[OpenAI];
    }
    assert AnyOffered(cfg.defaultMapping["gpt"], cfg.providers[BedrockProvider]) by {
      assert "nova" in cfg.defaultMapping["gpt"] && "nova" in cfg.providers[BedrockProvider];
    }
  }

  lemma GptHasNoVersion(cal: Calendar)
    ensures Readable(OpenAI, "gpt") && LookupName(cal, OpenAI, "gpt") == "gpt"
  {
    assert PreviewCut(cal, "gpt").None?;
    NoVersionExactly(cal, "gpt");
    KeepsNameExactly(cal, OpenAI, "gpt");
  }
}
