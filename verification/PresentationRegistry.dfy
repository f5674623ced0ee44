/** The registry of presentation definitions, admin/presentation/registry.go: what it holds
    has passed ValidateCapability, and profiles are validated against it. */
module PresentationRegistry {
  import opened Text
  import opened Findings
  import opened Issues
  import opened PresentationModel
  import opened DefaultPresentation
  import opened Agreement
  import P = ProfileCheck
  import SortedKeys

  /** A capability definition, with what its validation takes from outside. */
  datatype Definition = Definition(capability: Capability, rules: Rules) {
    function PageKey(): string {
      capability.pageKey
    }

    ghost predicate Valid() {
      GoodCapability(capability, rules)
    }
  }

  datatype Outcome = Ok | Invalid | AlreadyRegistered | Frozen

  /** Every definition is valid and no page key occurs twice. */
  ghost predicate Acceptable(definitions: seq<Definition>) {
    && (forall d :: d in definitions ==> d.Valid())
    && forall i, j :: 0 <= i < j < |definitions| ==> definitions[i].PageKey() != definitions[j].PageKey()
  }

  /** m holds exactly these definitions, each under its page key. */
  ghost predicate Holds(m: map<string, Definition>, definitions: seq<Definition>) {
    && (forall d :: d in definitions ==> d.PageKey() in m && m[d.PageKey()] == d)
    && (forall k :: k in m ==> m[k] in definitions && m[k].PageKey() == k)
  }

  /** The definitions of a map in the order of their page keys. */
  ghost function Listed(m: map<string, Definition>): (definitions: seq<Definition>)
    ensures |definitions| == |SortedKeys.Sorted(m.Keys)|
  {
    var keys := SortedKeys.Sorted(m.Keys);
    seq(|keys|, i requires 0 <= i < |keys| => assert keys[i] in m; m[keys[i]])
  }

  ghost predicate InPageOrder(definitions: seq<Definition>) {
    forall i, j :: 0 <= i < j < |definitions| ==> StringLess(definitions[i].PageKey(), definitions[j].PageKey())
  }

  /** Listing keeps every definition, drops none, orders them by page key, and is acceptable
      again. */
  lemma ListedHolds(m: map<string, Definition>, definitions: seq<Definition>)
    requires Holds(m, definitions) && Acceptable(definitions)
    ensures Holds(m, Listed(m)) && Acceptable(Listed(m))
    ensures forall d :: d in Listed(m) <==> d in definitions
    ensures InPageOrder(Listed(m))
  {
    hide Definition.Valid;
    var keys := SortedKeys.Sorted(m.Keys);
    var listed := Listed(m);
    forall d | d in listed ensures d in definitions && d.PageKey() in m && m[d.PageKey()] == d {
      var i :| 0 <= i < |listed| && listed[i] == d;
      assert keys[i] in m;
    }
    forall d | d in definitions ensures d in listed {
      assert d.PageKey() in keys;
      var i :| 0 <= i < |keys| && keys[i] == d.PageKey();
      assert listed[i] == d;
    }
    forall k | k in m ensures m[k] in listed {
      assert m[k] in definitions;
    }
    forall i, j | 0 <= i < j < |listed|
      ensures listed[i].PageKey() != listed[j].PageKey() && StringLess(listed[i].PageKey(), listed[j].PageKey())
    {
      assert keys[i] in m && keys[j] in m;
      StringLessTotal(keys[i], keys[j]);
    }
  }

  function Find(m: map<string, Definition>, pageKey: string): Option<Capability> {
    if pageKey in m then Some(m[pageKey].capability) else None
  }

  /** Whatever a registry holds, its default presentation, spelled out for the current
      definition, passes the registry's validation unless the page is a limited table. */
  lemma RegisteredDefaultPasses(m: map<string, Definition>, definitions: seq<Definition>, profile: Profile, issues: seq<Issue>)
    requires Holds(m, definitions) && Acceptable(definitions) && profile.metadata.pageKey in m
    requires var c := m[profile.metadata.pageKey].capability;
             profile.metadata.definitionHash == c.definitionHash && profile.spec == SpelledOut(c.defaultPresentation)
    requires P.IsReport(Find(m, profile.metadata.pageKey), Some(profile), issues)
    ensures issues == [] <==> !Limited(m[profile.metadata.pageKey].capability)
  {
    hide GoodCapability, SpelledOut, Limited, P.ProfileIssues, Ascending;
    var d := m[profile.metadata.pageKey];
    assert d.Valid();
    PassesReport(d.capability, profile, d.rules, issues);
  }

  class Registry {
    var definitions: map<string, Definition>
    var frozen: bool

    constructor Empty()
      ensures definitions == map[] && !frozen
    {
      definitions := map[];
      frozen := false;
    }

    /** `registerLocked`. */
    method RegisterLocked(definition: Definition) returns (r: Outcome)
      modifies this`definitions
      ensures r == Ok <==> definition.Valid() && definition.PageKey() !in old(definitions)
      ensures r == Invalid <==> !definition.Valid()
      ensures r == AlreadyRegistered <==> definition.Valid() && definition.PageKey() in old(definitions)
      ensures definitions == if r == Ok then old(definitions)[definition.PageKey() := definition] else old(definitions)
    {
      hide GoodCapability;
      var issues := ValidateCapability(Some(definition.capability), definition.rules);
      if issues != [] {
        return Invalid;
      }
      if definition.PageKey() in definitions {
        return AlreadyRegistered;
      }
      definitions := definitions[definition.PageKey() := definition];
      return Ok;
    }

    /** `Register`: nothing enters a frozen registry. */
    method Register(definition: Definition) returns (r: Outcome)
      modifies this`definitions
      ensures r == Frozen <==> old(frozen)
      ensures r == Invalid <==> !old(frozen) && !definition.Valid()
      ensures r == AlreadyRegistered <==> !old(frozen) && definition.Valid() && definition.PageKey() in old(definitions)
      ensures r == Ok <==> !old(frozen) && definition.Valid() && definition.PageKey() !in old(definitions)
      ensures definitions == if r == Ok then old(definitions)[definition.PageKey() := definition] else old(definitions)
    {
      if frozen {
        return Frozen;
      }
      r := RegisterLocked(definition);
    }

    method Freeze()
      modifies this`frozen
      ensures frozen
    {
      frozen := true;
    }

    /** `Lookup`. */
    method Lookup(pageKey: string) returns (capability: Option<Capability>)
      ensures capability == Find(definitions, pageKey)
    {
      capability := if pageKey in definitions then Some(definitions[pageKey].capability) else None;
    }

    /** `Validate`: the report on a profile against the definition of its page. */
    method Validate(profile: Option<Profile>) returns (issues: seq<Issue>)
      ensures P.IsReport(if profile == None then None else Find(definitions, profile.value.metadata.pageKey), profile, issues)
    {
      if profile == None {
        issues := P.ValidateProfile(None, None);
        return;
      }
      var definition := Lookup(profile.value.metadata.pageKey);
      issues := P.ValidateProfile(definition, profile);
    }

    /** `List`. */
    method List() returns (result: seq<Definition>)
      ensures result == Listed(definitions)
    {
      var keys := SortedKeys.Collect(definitions.Keys);
      result := [];
      for i := 0 to |keys|
        invariant result == Listed(definitions)[..i]
      {
        assert keys[i] in definitions;
        result := result + [definitions[keys[i]]];
      }
    }
  }

  lemma HoldsMore(m: map<string, Definition>, before: seq<Definition>, d: Definition)
    requires Holds(m, before) && Acceptable(before)
    ensures d.Valid() && d.PageKey() !in m ==> Holds(m[d.PageKey() := d], before + [d]) && Acceptable(before + [d])
    ensures !d.Valid() || d.PageKey() in m ==> !Acceptable(before + [d])
  {
    hide Definition.Valid;
    var after := before + [d];
    assert after[|before|] == d;
    if d.PageKey() in m {
      assert m[d.PageKey()] in before;
      var i :| 0 <= i < |before| && before[i] == m[d.PageKey()];
      assert after[i].PageKey() == after[|before|].PageKey();
    } else if d.Valid() {
      forall i, j | 0 <= i < j < |after| ensures after[i].PageKey() != after[j].PageKey() {
        assert before[i] in before;
      }
    }
  }

  lemma PrefixSpoils(definitions: seq<Definition>, n: nat)
    requires n <= |definitions| && !Acceptable(definitions[..n])
    ensures !Acceptable(definitions)
  {
  }

  /** `NewRegistry`: all definitions, or no registry. */
  method NewRegistry(definitions: seq<Definition>) returns (registry: Registry?, ok: bool)
    ensures ok <==> Acceptable(definitions)
    ensures ok ==> registry != null && fresh(registry) && !registry.frozen && Holds(registry.definitions, definitions)
  {
    hide Definition.Valid;
    registry := new Registry.Empty();
    for i := 0 to |definitions|
      invariant fresh(registry) && !registry.frozen
      invariant Acceptable(definitions[..i]) && Holds(registry.definitions, definitions[..i])
    {
      HoldsMore(registry.definitions, definitions[..i], definitions[i]);
      assert definitions[..i + 1] == definitions[..i] + [definitions[i]];
      var r := registry.RegisterLocked(definitions[i]);
      if r != Ok {
        PrefixSpoils(definitions, i + 1);
        return null, false;
      }
    }
    assert definitions[..|definitions|] == definitions;
    return registry, true;
  }
}
