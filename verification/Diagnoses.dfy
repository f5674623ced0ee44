/** Which issue the checks of capabilities, profiles and conditions report for what is wrong,
    check by check and read off the checked value. */
module Diagnoses {
  import opened Text
  import opened Canonical
  import opened Findings
  import opened Issues
  import opened Patterns
  import opened PatternScanner
  import opened Conditions
  import opened PresentationModel
  import I = CapabilityIdentity
  import D = DefaultPresentation
  import S = ProfileShape
  import PlainTerms

  lemma ToldIf(fails: bool, problem: Problem, path: string, all: multiset<Issue>)
    requires When(fails, problem, path) <= all
    ensures fails ==> At(problem, path) in all
  {
    hide At;
    if fails { assert At(problem, path) in When(fails, problem, path); }
  }

  lemma {:induction false} PartOfUpto(n: nat, part: Part<nat>, i: nat)
    requires i < n
    ensures part(i) <= Upto(n, part)
  {
    if i < n - 1 { PartOfUpto(n - 1, part, i); }
  }

  lemma InAll(issue: Issue, part: multiset<Issue>, all: multiset<Issue>)
    requires issue in part && part <= all
    ensures issue in all
  {
  }

  // ----- page key, version and hash

  lemma KeyTold(c: Capability, rules: Rules)
    ensures var all, version := I.KeyIssues(c, rules), c.definitionVersion;
            && (!IsIdentifier(c.pageKey) ==> At(IdentifierInvalid, "pageKey") in all)
            && (I.IsProtected(c.pageKey) ==> At(ProtectedPage, "pageKey") in all)
            && (rules.blank(version) ==> At(VersionMissing, "definitionVersion") in all)
            && (!rules.blank(version) && version !in {"1", "2"} ==> At(VersionUnsupported, "definitionVersion") in all)
            && (!MatchesHash(c.definitionHash) ==> At(HashInvalid, "definitionHash") in all)
  {
    hide At, When, IsIdentifier, I.IsProtected, MatchesHash, I.HashIssues;
    var all := I.KeyIssues(c, rules);
    ToldIf(!IsIdentifier(c.pageKey), IdentifierInvalid, "pageKey", all);
    ToldIf(I.IsProtected(c.pageKey), ProtectedPage, "pageKey", all);
    if rules.blank(c.definitionVersion) {
      ToldIf(true, VersionMissing, "definitionVersion", all);
    } else {
      ToldIf(!I.Supported(c.definitionVersion), VersionUnsupported, "definitionVersion", all);
    }
    HashTold(c, rules);
    if !MatchesHash(c.definitionHash) { InAll(At(HashInvalid, "definitionHash"), I.HashIssues(c, rules), all); }
  }

  lemma HashTold(c: Capability, rules: Rules)
    ensures var all := I.HashIssues(c, rules);
            && (!MatchesHash(c.definitionHash) ==> At(HashInvalid, "definitionHash") in all)
            && (MatchesHash(c.definitionHash) && c.definitionVersion in {"1", "2"} ==>
                  match rules.hash(c)
                  case HashError(error) => At(HashComputation(error), "definitionHash") in all
                  case Hash(value) => value != c.definitionHash ==> At(HashMismatch, "definitionHash") in all)
  {
    hide At, MatchesHash;
  }

  // ----- lists of names

  lemma NameTold(list: seq<string>, bad: string -> bool, badProblem: Problem, repeated: Problem, path: string, i: nat)
    requires i < |list|
    ensures var all := I.NameIssues(list, bad, badProblem, repeated, path);
            && (bad(list[i]) ==> At(badProblem, ItemPath(path, i)) in all)
            && ((exists j :: 0 <= j < i && list[j] == list[i]) ==> At(repeated, ItemPath(path, i)) in all)
  {
    hide At, When, ItemPath, Upto;
    var all, part := I.NameIssues(list, bad, badProblem, repeated, path), I.NamePart(list, bad, badProblem, repeated, path);
    PartOfUpto(|list|, part, i);
    assert When(bad(list[i]), badProblem, ItemPath(path, i)) <= part(i);
    assert When(list[i] in NamesBefore(list, i), repeated, ItemPath(path, i)) <= part(i);
    ToldIf(bad(list[i]), badProblem, ItemPath(path, i), all);
    ToldIf(list[i] in NamesBefore(list, i), repeated, ItemPath(path, i), all);
  }

  /** The ids of components, fields, data sources and actions. */
  lemma IdsTold(c: Capability, i: nat)
    ensures var all := I.IdIssues(c);
            && (i < |c.components| ==>
                  && (!IsIdentifier(c.components[i]) ==> At(IdInvalid, ItemPath("components", i)) in all)
                  && ((exists j :: 0 <= j < i && c.components[j] == c.components[i]) ==> At(IdRepeated, ItemPath("components", i)) in all))
            && (i < |c.dataSources| ==>
                  && (!IsIdentifier(c.dataSources[i].id) ==> At(IdInvalid, ItemPath("dataSources", i)) in all)
                  && ((exists j :: 0 <= j < i && c.dataSources[j].id == c.dataSources[i].id) ==> At(IdRepeated, ItemPath("dataSources", i)) in all))
            && (i < |c.actions| ==>
                  && (!IsIdentifier(c.actions[i].id) ==> At(IdInvalid, ItemPath("actions", i)) in all)
                  && ((exists j :: 0 <= j < i && c.actions[j].id == c.actions[i].id) ==> At(IdRepeated, ItemPath("actions", i)) in all))
  {
    hide At, ItemPath, I.NameIssues, IsIdentifier;
    if i < |c.components| { NameTold(c.components, I.BadId, IdInvalid, IdRepeated, "components", i); }
    if i < |c.dataSources| { NameTold(I.SourceIds(c.dataSources), I.BadId, IdInvalid, IdRepeated, "dataSources", i); }
    if i < |c.actions| { NameTold(I.ActionIds(c.actions), I.BadId, IdInvalid, IdRepeated, "actions", i); }
    assert forall j :: 0 <= j < |c.dataSources| ==> I.SourceIds(c.dataSources)[j] == c.dataSources[j].id;
    assert forall j :: 0 <= j < |c.actions| ==> I.ActionIds(c.actions)[j] == c.actions[j].id;
  }

  lemma FieldIdsTold(c: Capability, i: nat)
    requires i < |c.fields|
    ensures var all, id, path := I.IdIssues(c), c.fields[i].id, ItemPath("fields", i);
            && (c.definitionVersion == "2" && !(1 <= |id| <= 120 && MatchesField(id)) ==> At(FieldIdInvalid, path) in all)
            && (c.definitionVersion != "2" && !(2 <= |id| <= 120 && (MatchesIdentifier(id) || MatchesField(id))) ==>
                  At(FieldIdInvalidVersion1, path) in all)
            && ((exists j :: 0 <= j < i && c.fields[j].id == id) ==> At(IdRepeated, path) in all)
  {
    hide At, ItemPath, I.NameIssues, MatchesField, MatchesIdentifier;
    assert forall j :: 0 <= j < |c.fields| ==> I.FieldIds(c.fields)[j] == c.fields[j].id;
    if I.IsStrict(c) {
      NameTold(I.FieldIds(c.fields), I.BadFieldId, FieldIdInvalid, IdRepeated, "fields", i);
    } else {
      NameTold(I.FieldIds(c.fields), I.BadFieldIdVersion1, FieldIdInvalidVersion1, IdRepeated, "fields", i);
    }
  }

  // ----- one field

  lemma FactsTold(f: CapabilityField, path: string, strict: bool, rules: Rules)
    ensures var all, v := I.FactIssues(f, path, strict, rules), f.validation;
            && (f.valueType !in {"string", "integer", "number", "boolean", "enum", "date", "date-time", "json"} ==> At(ValueType, path) in all)
            && (f.required && f.nullable ==> At(Nullability, path) in all)
            && (v.minLength.Some? && (v.minLength.value < 0 || (strict && v.minLength.value > 0x1F_FFFF_FFFF_FFFF)) ==> At(MinLength, path) in all)
            && (v.maxLength.Some? && (v.maxLength.value < 0 || (strict && v.maxLength.value > 0x1F_FFFF_FFFF_FFFF)) ==> At(MaxLength, path) in all)
            && (v.minLength.Some? && v.maxLength.Some? && v.minLength.value > v.maxLength.value ==> At(LengthRange, path) in all)
  {
    hide At, When, MemberPath, TextIssues, I.PatternIssues;
    var all, v := I.FactIssues(f, path, strict, rules), f.validation;
    ToldIf(!I.AllowedValueType(f.valueType), ValueType, path, all);
    ToldIf(f.required && f.nullable, Nullability, path, all);
    ToldIf(I.BadLength(v.minLength, strict), MinLength, path, all);
    ToldIf(I.BadLength(v.maxLength, strict), MaxLength, path, all);
    ToldIf(I.Exceeds(v.minLength, v.maxLength), LengthRange, path, all);
  }

  lemma PatternTold(f: CapabilityField, path: string, strict: bool, rules: Rules)
    ensures var all, pattern := I.PatternIssues(f, path, strict, rules), f.validation.pattern;
            && (pattern != "" && !rules.compiles(pattern) ==> At(PatternInvalid, path) in all)
            && (pattern != "" && strict && !Portable(pattern) ==> At(PatternNotPortable, path) in all)
            && (f.format !in {"plain", "email", "identifier", "date", "date-time"} && (strict || f.format != "") ==> At(Findings.Format, path) in all)
  {
    hide At, When, Portable;
    var all := I.PatternIssues(f, path, strict, rules);
    ToldIf(I.DoesNotCompile(f.validation.pattern, rules), PatternInvalid, path, all);
    ToldIf(I.IsNotPortable(f.validation.pattern, strict), PatternNotPortable, path, all);
    ToldIf(I.BadFormat(f.format, strict), Findings.Format, path, all);
  }

  lemma NumbersTold(v: FieldValidation, path: string, rules: Rules)
    ensures var all := I.NumericIssues(v, path, rules);
            && (v.minimum.Some? && rules.parseBound(v.minimum.value) == None ==> At(NumberBound("minimum"), path) in all)
            && (v.maximum.Some? && rules.parseBound(v.maximum.value) == None ==> At(NumberBound("maximum"), path) in all)
            && (v.minimum.Some? && v.maximum.Some? ==>
                  var low, high := rules.parseBound(v.minimum.value), rules.parseBound(v.maximum.value);
                  low.Some? && high.Some? && low.value > high.value ==> At(NumberRange, path) in all)
            && (v.precision.Some? && !(1 <= v.precision.value <= 38) ==> At(Findings.Precision, path) in all)
            && (v.scale.Some? && !(0 <= v.scale.value <= 38) ==> At(Findings.Scale, path) in all)
            && (v.scale.Some? && v.precision.Some? && v.scale.value > v.precision.value ==> At(ScaleBeyondPrecision, path) in all)
  {
    hide At, When;
    var all := I.NumericIssues(v, path, rules);
    ToldIf(I.BadBound(v.minimum, rules), NumberBound("minimum"), path, all);
    ToldIf(I.BadBound(v.maximum, rules), NumberBound("maximum"), path, all);
    ToldIf(I.BoundsCross(v, rules), NumberRange, path, all);
    ToldIf(OutOf(v.precision, 1, 38), Findings.Precision, path, all);
    ToldIf(OutOf(v.scale, 0, 38), Findings.Scale, path, all);
    ToldIf(I.Exceeds(v.scale, v.precision), ScaleBeyondPrecision, path, all);
  }

  lemma EnumTold(f: CapabilityField, path: string, strict: bool, i: nat)
    ensures var all := I.EnumIssues(f, path, strict);
            && (strict && f.valueType == "enum" && f.enumValues == [] ==> At(EnumValuesMissing, path) in all)
            && (f.valueType != "enum" && f.enumValues != [] ==> At(EnumValuesUnexpected, path) in all)
            && (i < |f.enumValues| ==>
                  var value, place := f.enumValues[i], ItemPath(MemberPath(path, "enumValues"), i);
                  && (!IsEnumValue(value.value) ==> At(Findings.EnumValue, place) in all)
                  && ((exists j :: 0 <= j < i && f.enumValues[j].value == value.value) ==> At(EnumValueRepeated, place) in all))
  {
    hide At, When, ItemPath, MemberPath, TextIssues, IsEnumValue, Upto;
    var all, inner := I.EnumIssues(f, path, strict), MemberPath(path, "enumValues");
    ToldIf(I.NeedsEnumValues(f, strict), EnumValuesMissing, path, all);
    ToldIf(I.TakesNoEnumValues(f), EnumValuesUnexpected, path, all);
    if i < |f.enumValues| {
      var part, place, names := I.EnumPart(f.enumValues, inner), ItemPath(inner, i), I.EnumNames(f.enumValues);
      PartOfUpto(|f.enumValues|, part, i);
      assert I.EnumRepeats(f.enumValues, i) <==> exists j :: 0 <= j < i && names[j] == f.enumValues[i].value;
      ToldIf(!IsEnumValue(f.enumValues[i].value), Findings.EnumValue, place, all);
      ToldIf(I.EnumRepeats(f.enumValues, i), EnumValueRepeated, place, all);
    }
  }

  lemma InventoryTold(f: CapabilityField, path: string, componentIds: set<string>, i: nat)
    ensures var all, surfaces, components := I.InventoryIssues(f, path, componentIds), MemberPath(path, "surfaces"), MemberPath(path, "components");
            && (f.surfaces == [] ==> At(SurfacesMissing, path) in all)
            && (f.components == [] ==> At(ComponentsMissing, path) in all)
            && (i < |f.surfaces| ==>
                  && (f.surfaces[i] !in {"list", "search", "form", "detail"} ==> At(SurfaceInvalid, ItemPath(surfaces, i)) in all)
                  && ((exists j :: 0 <= j < i && f.surfaces[j] == f.surfaces[i]) ==> At(SurfaceRepeated, ItemPath(surfaces, i)) in all))
            && (i < |f.components| ==>
                  && (f.components[i] !in componentIds ==> At(ComponentUnknown, ItemPath(components, i)) in all)
                  && ((exists j :: 0 <= j < i && f.components[j] == f.components[i]) ==> At(ComponentRepeated, ItemPath(components, i)) in all))
  {
    hide At, When, ItemPath, MemberPath, I.NameIssues;
    var all := I.InventoryIssues(f, path, componentIds);
    ToldIf(f.surfaces == [], SurfacesMissing, path, all);
    ToldIf(f.components == [], ComponentsMissing, path, all);
    if i < |f.surfaces| { NameTold(f.surfaces, I.BadSurface, SurfaceInvalid, SurfaceRepeated, MemberPath(path, "surfaces"), i); }
    if i < |f.components| { NameTold(f.components, I.NotIn(componentIds), ComponentUnknown, ComponentRepeated, MemberPath(path, "components"), i); }
  }

  lemma ChoiceTold(components: seq<string>, declared: set<string>, componentIds: set<string>, path: string, i: nat)
    requires i < |components|
    ensures var all, place := I.ChoiceIssues(components, declared, componentIds, path), ItemPath(path, i);
            && (components[i] !in componentIds ==> At(MappingComponentUnknown, place) in all)
            && (components[i] !in declared ==> At(MappingComponentUndeclared, place) in all)
            && ((exists j :: 0 <= j < i && components[j] == components[i]) ==> At(MappingComponentRepeated, place) in all)
  {
    hide At, When, ItemPath, Upto;
    var all, place := I.ChoiceIssues(components, declared, componentIds, path), ItemPath(path, i);
    PartOfUpto(|components|, I.ChoicePart(components, declared, componentIds, path), i);
    ToldIf(components[i] !in componentIds, MappingComponentUnknown, place, all);
    ToldIf(components[i] !in declared, MappingComponentUndeclared, place, all);
    ToldIf(components[i] in NamesBefore(components, i), MappingComponentRepeated, place, all);
  }

  lemma MappingTold(m: SurfaceComponents, repeated: bool, f: CapabilityField, componentIds: set<string>, path: string)
    ensures var all := I.MappingIssues(m, repeated, f, componentIds, path);
            && (m.surface !in {"list", "search", "form", "detail"} ==> At(MappingSurfaceInvalid, path) in all)
            && (m.surface !in f.surfaces ==> At(MappingSurfaceUndeclared, path) in all)
            && (repeated ==> At(MappingSurfaceRepeated, path) in all)
            && (m.components == [] ==> At(MappingEmpty, path) in all)
  {
    hide At, When, MemberPath, I.ChoiceIssues;
    var all := I.MappingIssues(m, repeated, f, componentIds, path);
    ToldIf(!ValidSurface(m.surface), MappingSurfaceInvalid, path, all);
    ToldIf(m.surface !in Names(f.surfaces), MappingSurfaceUndeclared, path, all);
    ToldIf(repeated, MappingSurfaceRepeated, path, all);
    ToldIf(m.components == [], MappingEmpty, path, all);
  }

  /** A surface without a mapping, and a component that no mapping lists. */
  lemma CoverTold(names: set<string>, covered: set<string>, name: string, path: string)
    requires name in names && name !in covered
    ensures At(SurfaceUnmapped(name), path) in Over(names, I.UnmappedPart(covered, path))
    ensures At(ComponentUnused(name), path) in Over(names, I.UnusedPart(covered, path))
  {
    hide At, Over;
    AnyFirst(names, I.UnmappedPart(covered, path), name);
    AnyFirst(names, I.UnusedPart(covered, path), name);
  }

  // ----- data sources and actions

  lemma PermissionsTold(permissions: seq<string>, path: string, rules: Rules, i: nat)
    ensures var all := I.PermissionIssues(permissions, path, rules);
            && (permissions == [] ==> At(PermissionsMissing, path) in all)
            && (i < |permissions| ==>
                  && (rules.blank(permissions[i]) || |Utf8(permissions[i])| > 255 ==> At(PermissionInvalid, ItemPath(path, i)) in all)
                  && ((exists j :: 0 <= j < i && permissions[j] == permissions[i]) ==> At(PermissionRepeated, ItemPath(path, i)) in all))
  {
    hide At, When, ItemPath, I.NameIssues, Utf8;
    var all := I.PermissionIssues(permissions, path, rules);
    ToldIf(permissions == [], PermissionsMissing, path, all);
    if i < |permissions| { NameTold(permissions, I.BadPermission(rules), PermissionInvalid, PermissionRepeated, path, i); }
  }

  lemma LimitsTold(d: DataSource, path: string, i: nat)
    ensures var all, options := I.LimitIssues(d, path), d.pageSizeOptions;
            && (!(1 <= d.maxPageSize <= 200) ==> At(SourcePageSize, path) in all)
            && (options == [] ==> At(SourceOptionsMissing, path) in all)
            && (!(0 <= d.maxSortFields <= 3) ==> At(SourceSortFields, path) in all)
            && (i < |options| ==>
                  var place := ItemPath(MemberPath(path, "pageSizeOptions"), i);
                  && (!(1 <= options[i] <= d.maxPageSize) ==> At(SourceOptionInvalid, place) in all)
                  && ((exists j :: 0 <= j < i && options[j] == options[i]) ==> At(SourceOptionRepeated, place) in all)
                  && (i > 0 && options[i] <= options[i - 1] ==> At(SourceOptionUnsorted, place) in all))
  {
    hide At, When, ItemPath, MemberPath, Upto;
    var all, options := I.LimitIssues(d, path), d.pageSizeOptions;
    ToldIf(d.maxPageSize < 1 || d.maxPageSize > 200, SourcePageSize, path, all);
    ToldIf(options == [], SourceOptionsMissing, path, all);
    ToldIf(d.maxSortFields < 0 || d.maxSortFields > 3, SourceSortFields, path, all);
    if i < |options| {
      var inner := MemberPath(path, "pageSizeOptions");
      var place := ItemPath(inner, i);
      PartOfUpto(|options|, I.OptionPart(options, d.maxPageSize, inner), i);
      ToldIf(options[i] < 1 || options[i] > d.maxPageSize, SourceOptionInvalid, place, all);
      ToldIf(options[i] in I.OptionsBefore(options, i), SourceOptionRepeated, place, all);
      ToldIf(i > 0 && options[i] <= options[i - 1], SourceOptionUnsorted, place, all);
    }
  }

  lemma ActionTold(a: CapabilityAction, path: string, rules: Rules, i: nat)
    ensures var all, place := I.ActionIssues(a, path, rules), ItemPath(MemberPath(path, "placements"), i);
            && (a.placements == [] ==> At(PlacementsMissing, path) in all)
            && (i < |a.placements| ==>
                  && (a.placements[i] !in {"toolbar", "row", "form", "detail"} ==> At(PlacementInvalid, place) in all)
                  && ((exists j :: 0 <= j < i && a.placements[j] == a.placements[i]) ==> At(PlacementRepeated, place) in all))
  {
    hide At, When, ItemPath, MemberPath, I.NameIssues, I.PermissionIssues;
    ToldIf(a.placements == [], PlacementsMissing, path, I.ActionIssues(a, path, rules));
    if i < |a.placements| { NameTold(a.placements, I.BadPlacement, PlacementInvalid, PlacementRepeated, MemberPath(path, "placements"), i); }
  }

  // ----- the default presentation

  lemma DefaultFieldTold(f: CompleteField, repeated: bool, surface: string, path: string, c: Capability, marshal: Encoder)
    ensures var all := D.FieldIssues(f, repeated, surface, path, ContextOf(c), marshal);
            && (repeated ==> At(DefaultFieldRepeated, path) in all)
            && ((forall d :: !PlainTerms.IsField(c, f.field, d)) ==> At(DefaultFieldUnknown, path) in all)
            && (forall d :: PlainTerms.IsField(c, f.field, d) ==> DefaultPlacementTold(c, d, f, surface, path, all))
            && ((exists d :: PlainTerms.IsField(c, f.field, d)) ==>
                  && (!(0 <= f.order <= 10000) ==> At(DefaultOrder, path) in all)
                  && (f.width.Some? && !(60 <= f.width.value <= 1200) ==> At(DefaultWidth, path) in all)
                  && (f.span.Some? && !(1 <= f.span.value <= 24) ==> At(DefaultSpan, path) in all))
  {
    hide At, When, D.PlacementIssues, D.SettingIssues, PlainTerms.IsField, Definitions, Placements, DefaultPlacementTold;
    var x := ContextOf(c);
    var all := D.FieldIssues(f, repeated, surface, path, x, marshal);
    forall d ensures PlainTerms.IsField(c, f.field, d) <==> f.field in x.definitions && x.definitions[f.field] == d {
      PlainTerms.FieldLookup(c, f.field, d);
    }
    ToldIf(repeated, DefaultFieldRepeated, path, all);
    if f.field !in x.definitions {
      ToldIf(true, DefaultFieldUnknown, path, all);
    } else {
      assert PlainTerms.IsField(c, f.field, x.definitions[f.field]);
      PlacementTold(c, x.definitions[f.field], f, surface, path, all);
      SettingsTold(f, path, x, marshal, all);
    }
  }

  /** What is told of a default field that is registered as d. */
  ghost predicate DefaultPlacementTold(c: Capability, d: CapabilityField, f: CompleteField, surface: string, path: string, all: multiset<Issue>) {
    && (surface !in d.surfaces ==> At(DefaultFieldSurface, path) in all)
    && (f.component !in c.components ==> At(DefaultComponentUnknown, path) in all)
    && (f.component in c.components && !PlainTerms.Offers(c, d, surface, f.component) ==> At(DefaultComponentUnsupported, path) in all)
    && (surface == "form" && d.required && f.hidden ==> At(RequiredHidden, path) in all)
    && (surface == "form" && d.required && f.visibleWhen.Some? ==> At(RequiredConditional, path) in all)
  }

  lemma PlacementTold(c: Capability, d: CapabilityField, f: CompleteField, surface: string, path: string, all: multiset<Issue>)
    requires f.field in ContextOf(c).definitions && d == ContextOf(c).definitions[f.field] && D.PlacementIssues(f, surface, path, ContextOf(c)) <= all
    ensures DefaultPlacementTold(c, d, f, surface, path, all)
  {
    hide At, When, SupportsComponent, PlainTerms.Offers, Definitions, Placements;
    var x := ContextOf(c);
    PlainTerms.OffersExactly(c, d, surface, f.component);
    ToldIf(surface !in d.surfaces, DefaultFieldSurface, path, all);
    ToldIf(f.component !in x.components, DefaultComponentUnknown, path, all);
    ToldIf(f.component in x.components && !SupportsComponent(d, surface, f.component, x.strict), DefaultComponentUnsupported, path, all);
    ToldIf(D.HiddenRequired(f, surface, d), RequiredHidden, path, all);
    ToldIf(D.ConditionalRequired(f, surface, d), RequiredConditional, path, all);
  }

  lemma SettingsTold(f: CompleteField, path: string, x: Context, marshal: Encoder, all: multiset<Issue>)
    requires D.SettingIssues(f, path, x, marshal) <= all
    ensures !(0 <= f.order <= 10000) ==> At(DefaultOrder, path) in all
    ensures f.width.Some? && !(60 <= f.width.value <= 1200) ==> At(DefaultWidth, path) in all
    ensures f.span.Some? && !(1 <= f.span.value <= 24) ==> At(DefaultSpan, path) in all
  {
    hide At, When, MemberPath, TextIssues, ShapeIssuesWhen, ReferenceIssuesWhen;
    ToldIf(f.order < 0 || f.order > 10000, DefaultOrder, path, all);
    ToldIf(OutOf(f.width, 60, 1200), DefaultWidth, path, all);
    ToldIf(OutOf(f.span, 1, 24), DefaultSpan, path, all);
  }

  lemma DefaultActionTold(a: CompleteAction, repeated: bool, path: string, c: Capability, marshal: Encoder)
    ensures var all := D.ActionIssues(a, repeated, path, ContextOf(c), marshal);
            && (repeated ==> At(DefaultActionRepeated, path) in all)
            && ((forall d :: !PlainTerms.IsAction(c, a.action, d)) ==> At(DefaultActionUnknown, path) in all)
            && (forall d :: PlainTerms.IsAction(c, a.action, d) && a.placement !in d.placements ==> At(DefaultActionPlacement, path) in all)
  {
    hide At, When, MemberPath, TextIssues, ShapeIssuesWhen, ReferenceIssuesWhen, PlainTerms.IsAction, Definitions, Placements;
    var x := ContextOf(c);
    var all := D.ActionIssues(a, repeated, path, x, marshal);
    forall d ensures PlainTerms.IsAction(c, a.action, d) <==> a.action in x.placements && x.placements[a.action] == d {
      PlainTerms.ActionLookup(c, a.action, d);
    }
    ToldIf(repeated, DefaultActionRepeated, path, all);
    ToldIf(a.action !in x.placements, DefaultActionUnknown, path, all);
    ToldIf(a.action in x.placements && a.placement !in x.placements[a.action].placements, DefaultActionPlacement, path, all);
    if a.action in x.placements { assert PlainTerms.IsAction(c, a.action, x.placements[a.action]); }
  }

  lemma LayoutTold(p: CompletePresentation)
    ensures var all := D.LayoutIssues(p);
            && ((forall i :: 0 <= i < |p.columns| ==> p.columns[i].hidden) ==> At(NothingVisible, "defaultPresentation.list") in all)
            && (p.density !in {"compact", "middle", "large"} ==> At(DefaultDensity, "defaultPresentation.list") in all)
            && (!(1 <= p.pageSize <= 200) ==> At(DefaultPageSize, "defaultPresentation.list") in all)
            && (!(1 <= p.formColumns <= 4) ==> At(DefaultFormColumns, "defaultPresentation") in all)
            && (!(1 <= p.detailColumns <= 4) ==> At(DefaultDetailColumns, "defaultPresentation") in all)
  {
    hide At, When;
    var all := D.LayoutIssues(p);
    ToldIf(!D.SomeVisible(p.columns), NothingVisible, "defaultPresentation.list", all);
    ToldIf(!ValidDensity(p.density), DefaultDensity, "defaultPresentation.list", all);
    ToldIf(p.pageSize < 1 || p.pageSize > 200, DefaultPageSize, "defaultPresentation.list", all);
    ToldIf(p.formColumns < 1 || p.formColumns > 4, DefaultFormColumns, "defaultPresentation", all);
    ToldIf(p.detailColumns < 1 || p.detailColumns > 4, DefaultDetailColumns, "defaultPresentation", all);
  }

  lemma FitTold(p: CompletePresentation, c: Capability)
    ensures var all := D.SourceIssues(p, FindDataSource(c.dataSources, p.dataSource), c.definitionVersion == "2");
            && ((forall s :: !PlainTerms.IsSource(c, p.dataSource, s)) ==> At(DefaultDataSource, "defaultPresentation.dataSource") in all)
            && (forall s :: PlainTerms.IsSource(c, p.dataSource, s) && c.definitionVersion == "2" && |p.defaultSort| > s.maxSortFields ==>
                  At(Findings.SortFields, "defaultPresentation.list.defaultSort") in all)
  {
    hide At, When, PageSizeIssues, FindDataSource, PlainTerms.IsSource;
    var source := FindDataSource(c.dataSources, p.dataSource);
    PlainTerms.SourceNamed(c, p.dataSource);
    forall s ensures PlainTerms.IsSource(c, p.dataSource, s) <==> source == Some(s) {
      PlainTerms.SourceIs(c, p.dataSource, s);
    }
    var all := D.SourceIssues(p, source, c.definitionVersion == "2");
    if source == None {
      ToldIf(true, DefaultDataSource, "defaultPresentation.dataSource", all);
    } else if c.definitionVersion == "2" {
      ToldIf(|p.defaultSort| > source.value.maxSortFields, Findings.SortFields, "defaultPresentation.list.defaultSort", all);
    }
  }

  lemma MissingTold(p: CompletePresentation, fields: seq<CapabilityField>, i: nat, j: nat)
    requires i < |fields| && j < |fields[i].surfaces| && !PlainTerms.ShownOn(p, fields[i].surfaces[j], fields[i].id)
    ensures At(DefaultFieldMissing(fields[i].surfaces[j]), "defaultPresentation") in D.MissingIssues(p, fields)
  {
    hide At, When, Upto, D.Shows, PlainTerms.ShownOn;
    PlainTerms.ShowsExactly(p, fields[i].surfaces[j], fields[i].id);
    PartOfUpto(|fields[i].surfaces|, D.MissingPart(p, fields[i]), j);
    PartOfUpto(|fields|, D.MissingOf(p, fields), i);
    ToldIf(true, DefaultFieldMissing(fields[i].surfaces[j]), "defaultPresentation", D.MissingIssues(p, fields));
  }

  // ----- the shape of a profile

  lemma ScopeTold(scope: Scope)
    ensures var all, path := S.ScopeIssues(scope), "metadata.scope.subject";
            && (scope.kind == "application" && scope.subject.Some? ==> At(ScopeSubjectUnexpected, path) in all)
            && (scope.kind == "role" && scope.subject == None ==> At(ScopeSubjectMissing, path) in all)
            && (scope.kind == "user" && scope.subject == None ==> At(ScopeSubjectInvalid, path) in all)
            && (scope.kind in {"role", "user"} && scope.subject.Some? && !(1 <= |scope.subject.value| <= 160) ==> At(ScopeSubjectInvalid, path) in all)
            && (scope.kind !in {"application", "role", "user"} ==> At(Findings.ScopeKind, "metadata.scope.kind") in all)
  {
    hide At;
    assert scope.kind == "application" ==> scope.kind != "role" && scope.kind != "user";
  }

  lemma PatchTold(f: FieldPatch, path: string, marshal: Encoder)
    ensures var all := S.FieldIssues(f, path, marshal);
            && (!IsReference(f.field) ==> At(ReferenceInvalid, path) in all)
            && (f.component.Some? && !IsIdentifier(f.component.value) ==> At(IdentifierInvalid, MemberPath(path, "component")) in all)
            && (f.order.Some? && !(0 <= f.order.value <= 10000) ==> At(PatchOrder, path) in all)
            && (f.width.Some? && !(60 <= f.width.value <= 1200) ==> At(PatchWidth, path) in all)
            && (f.span.Some? && !(1 <= f.span.value <= 24) ==> At(PatchSpan, path) in all)
  {
    hide At, When, MemberPath, TextIssues, ShapeIssuesWhen, IsReference, IsIdentifier;
    var all := S.FieldIssues(f, path, marshal);
    ToldIf(!IsReference(f.field), ReferenceInvalid, path, all);
    ToldIf(S.BadIdentifier(f.component), IdentifierInvalid, MemberPath(path, "component"), all);
    ToldIf(OutOf(f.order, 0, 10000), PatchOrder, path, all);
    ToldIf(OutOf(f.width, 60, 1200), PatchWidth, path, all);
    ToldIf(OutOf(f.span, 1, 24), PatchSpan, path, all);
  }

  lemma ActionPatchTold(a: ActionPatch, path: string, marshal: Encoder)
    ensures var all := S.ActionIssues(a, path, marshal);
            && (!IsIdentifier(a.action) ==> At(IdentifierInvalid, MemberPath(path, "action")) in all)
            && (a.placement.Some? && a.placement.value !in {"toolbar", "row", "form", "detail"} ==> At(PatchPlacement, path) in all)
            && (a.order.Some? && !(0 <= a.order.value <= 10000) ==> At(PatchActionOrder, path) in all)
  {
    hide At, When, MemberPath, TextIssues, ShapeIssuesWhen, IsIdentifier;
    var all := S.ActionIssues(a, path, marshal);
    ToldIf(!IsIdentifier(a.action), IdentifierInvalid, MemberPath(path, "action"), all);
    ToldIf(a.placement.Some? && !ValidPlacement(a.placement.value), PatchPlacement, path, all);
    ToldIf(OutOf(a.order, 0, 10000), PatchActionOrder, path, all);
  }

  lemma ProfileTold(p: Profile, marshal: Encoder)
    ensures var all, m := S.ProfileIssues(p, marshal), p.metadata;
            && (p.apiVersion != "mss.io/v1alpha1" ==> At(ApiVersion, "apiVersion") in all)
            && (p.kind != "AdminPagePresentation" ==> At(ProfileKind, "kind") in all)
            && (!IsIdentifier(m.name) ==> At(IdentifierInvalid, "metadata.name") in all)
            && (!IsIdentifier(m.pageKey) ==> At(IdentifierInvalid, "metadata.pageKey") in all)
            && (!MatchesHash(m.definitionHash) ==> At(ProfileHash, "metadata.definitionHash") in all)
            && (m.description.Some? && |m.description.value| > 500 ==> At(DescriptionLength, "metadata.description") in all)
  {
    hide At, When, IsIdentifier, MatchesHash, S.ScopeIssues, S.SpecIssues;
    var all, m := S.ProfileIssues(p, marshal), p.metadata;
    ToldIf(p.apiVersion != S.API_VERSION, ApiVersion, "apiVersion", all);
    ToldIf(p.kind != S.KIND, ProfileKind, "kind", all);
    ToldIf(!IsIdentifier(m.name), IdentifierInvalid, "metadata.name", all);
    ToldIf(!IsIdentifier(m.pageKey), IdentifierInvalid, "metadata.pageKey", all);
    ToldIf(!MatchesHash(m.definitionHash), ProfileHash, "metadata.definitionHash", all);
    ToldIf(m.description.Some? && |m.description.value| > 500, DescriptionLength, "metadata.description", all);
  }

  lemma FieldPatchesTold(fields: seq<FieldPatch>, path: string, marshal: Encoder)
    ensures |fields| > 100 ==> At(TooManyFields, path) in S.FieldsIssues(Some(fields), path, marshal)
  {
    hide At, When, Upto;
    ToldIf(|fields| > 100, TooManyFields, path, S.FieldsIssues(Some(fields), path, marshal));
  }

  lemma ActionPatchesTold(actions: seq<ActionPatch>, marshal: Encoder)
    ensures |actions| > 64 ==> At(TooManyActions, "spec.actions") in S.ActionsIssues(Some(actions), marshal)
  {
    hide At, When, Upto;
    ToldIf(|actions| > 64, TooManyActions, "spec.actions", S.ActionsIssues(Some(actions), marshal));
  }

  lemma ListTold(l: ListPatch, path: string, marshal: Encoder)
    ensures var all := S.ListIssues(Some(l), path, marshal);
            && (l == ListPatch(None, None, None, None) ==> At(ListEmpty, path) in all)
            && (l.density.Some? && l.density.value !in {"compact", "middle", "large"} ==> At(PatchDensity, path) in all)
            && (l.pageSize.Some? && !(1 <= l.pageSize.value <= 200) ==> At(PatchPageSize, path) in all)
  {
    hide At, When, MemberPath, S.FieldsIssues, SortIssues;
    var all := S.ListIssues(Some(l), path, marshal);
    ToldIf(l.columns == None && l.density == None && l.pageSize == None && l.defaultSort == None, ListEmpty, path, all);
    ToldIf(l.density.Some? && !ValidDensity(l.density.value), PatchDensity, path, all);
    ToldIf(OutOf(l.pageSize, 1, 200), PatchPageSize, path, all);
  }

  lemma SpecTold(s: ProfileSpec, path: string, marshal: Encoder)
    ensures s == ProfileSpec(None, None, None, None, None, None, None) ==> At(SpecEmpty, "spec") in S.SpecIssues(s, marshal)
    ensures s.dataSource.Some? && !IsIdentifier(s.dataSource.value) ==> At(IdentifierInvalid, "spec.dataSource") in S.SpecIssues(s, marshal)
    ensures s.search == Some(SearchPatch(None, None)) ==> At(SearchEmpty, path) in S.SearchIssues(s.search, path, marshal)
    ensures s.form == Some(LayoutPatch(None, None)) ==> At(LayoutEmpty, path) in S.LayoutIssues(s.form, path, marshal)
    ensures s.form.Some? && s.form.value.columns.Some? && !(1 <= s.form.value.columns.value <= 4) ==>
      At(PatchColumns, path) in S.LayoutIssues(s.form, path, marshal)
  {
    hide At, When, MemberPath, IsIdentifier, TextIssues, S.ListIssues, S.FieldsIssues, S.ActionsIssues;
    if s.search.Some? {
      ToldIf(s.search.value.fields == None && s.search.value.collapsedByDefault == None, SearchEmpty, path, S.SearchIssues(s.search, path, marshal));
    }
    if s.form.Some? {
      var layout := s.form.value;
      ToldIf(layout.fields == None && layout.columns == None, LayoutEmpty, path, S.LayoutIssues(s.form, path, marshal));
      ToldIf(OutOf(layout.columns, 1, 4), PatchColumns, path, S.LayoutIssues(s.form, path, marshal));
    }
    hide S.SearchIssues, S.LayoutIssues;
    ToldIf(S.EmptySpec(s), SpecEmpty, "spec", S.SpecIssues(s, marshal));
    ToldIf(S.BadIdentifier(s.dataSource), IdentifierInvalid, "spec.dataSource", S.SpecIssues(s, marshal));
  }

  // ----- conditions and texts

  lemma GroupTold(group: seq<Condition>, path: string, depth: nat, marshal: Encoder)
    requires depth <= 8
    ensures !(1 <= |group| <= 20) ==> At(ConditionGroupSize, path) in GroupIssues(group, path, depth, marshal)
  {
    hide At, When, GroupUpto;
    ToldIf(|group| < 1 || |group| > 20, ConditionGroupSize, path, GroupIssues(group, path, depth, marshal));
  }

  lemma ValueTold(raw: RawValue, path: string, marshal: Encoder)
    ensures raw.Malformed? ==> At(ConditionValueMalformed(raw.error), path) in ValueIssues(raw, path, marshal)
    ensures raw.Decoded? && raw.value.Obj? ==> At(ConditionValueNotScalar, path) in ValueIssues(raw, path, marshal)
  {
    hide At, ArrayIssues;
  }

  lemma ReferenceTold(c: Condition, path: string, ids: set<string>)
    requires c.all == Absent && c.any == Absent && c.not == None && c.field.Some? && c.field.value !in ids
    ensures At(ConditionFieldUnknown, path) in ReferenceIssues(c, path, ids)
  {
    hide At;
  }

  lemma ConditionTold(c: Condition, path: string, depth: nat, marshal: Encoder)
    ensures var all := ShapeIssues(c, path, depth, marshal);
            var bare := c.field == None && c.operator == None && c.value == None;
            var several := (!bare && (c.all != Absent || c.any != Absent || c.not.Some?)) || (c.all != Absent && c.any != Absent)
                           || (c.not.Some? && (c.all != Absent || c.any != Absent));
            && (depth > 8 ==> At(ConditionDepth, path) in all)
            && (depth <= 8 && (several || (bare && c.all == Absent && c.any == Absent && c.not == None)) ==> At(ConditionVariants, path) in all)
  {
    hide At, FieldIssues, OperatorIssues, GroupIssues;
  }

  lemma PredicateTold(c: Condition, path: string, marshal: Encoder)
    ensures var all := FieldIssues(c.field, path) + OperatorIssues(c, path, marshal);
            && (c.field == None ==> At(ConditionFieldMissing, path) in all)
            && (c.field.Some? && !IsReference(c.field.value) ==> At(ReferenceInvalid, path) in all)
            && (c.operator == None ==> At(ConditionOperatorMissing, path) in all)
            && (c.operator.Some? && c.operator.value !in OPERATORS ==> At(ConditionOperatorUnknown, path) in all)
            && (c.operator.Some? && c.operator.value in {"exists", "not-exists"} && c.value.Some? ==> At(ConditionValueUnexpected, path) in all)
            && (c.operator.Some? && c.operator.value in OPERATORS && c.operator.value !in {"exists", "not-exists"} && c.value == None ==>
                  At(ConditionValueMissing, path) in all)
  {
    hide At, ValueIssues, IsReference, MemberPath;
    if c.operator.Some? { PlainTerms.OperatorsExactly(c.operator.value); }
  }

  lemma ValuesTold(values: seq<Json>, path: string, marshal: Encoder, i: nat)
    ensures var all := ArrayIssues(values, path, marshal);
            && (!(1 <= |values| <= 50) ==> At(ConditionValueSize, path) in all)
            && (i < |values| && (values[i].Arr? || values[i].Obj?) ==> At(ConditionItemNotScalar, ItemPath(path, i)) in all)
            && (i < |values| && IsScalar(values[i]) && (exists j :: 0 <= j < i && IsScalar(values[j]) && Repeats(values[j], values[i], marshal)) ==>
                  At(ConditionItemRepeated, ItemPath(path, i)) in all)
  {
    hide At, When, ItemPath, Upto, Key;
    var all := ArrayIssues(values, path, marshal);
    ToldIf(|values| < 1 || |values| > 50, ConditionValueSize, path, all);
    if i < |values| {
      PartOfUpto(|values|, ItemPart(values, path, marshal), i);
      if !IsScalar(values[i]) {
        ToldIf(true, ConditionItemNotScalar, ItemPath(path, i), all);
      } else {
        ToldIf(Key(values[i], marshal) in TextsBefore(values, i, marshal), ConditionItemRepeated, ItemPath(path, i), all);
        if j :| 0 <= j < i && IsScalar(values[j]) && Repeats(values[j], values[i], marshal) {
          SameKey(values[j], values[i], marshal);
        }
      }
    }
  }

  lemma TextTold(value: LocalizedText, path: string)
    ensures var all := TextIssues(Some(value), path);
            && (value.zhCN == None && value.enUS == None ==> At(TextEmpty, path) in all)
            && (value.zhCN.Some? && !(1 <= |value.zhCN.value| <= 200) ==> At(TextLength("zh-CN"), path) in all)
            && (value.enUS.Some? && !(1 <= |value.enUS.value| <= 200) ==> At(TextLength("en-US"), path) in all)
  {
    hide At, When, Over;
    var all, part := TextIssues(Some(value), path), LocalePart(value, path);
    ToldIf(value.zhCN == None && value.enUS == None, TextEmpty, path, all);
    TwoLocales(value);
    AnyFirst(LOCALES, part, ZH_CN);
    AnyFirst(LOCALES, part, EN_US);
    ToldIf(!GoodLength(value.zhCN), TextLength(ZH_CN), path, all);
    ToldIf(!GoodLength(value.enUS), TextLength(EN_US), path, all);
  }

  lemma SortsTold(sorts: seq<Sort>, path: string, i: nat)
    ensures var all := SortIssues(sorts, path);
            && (|sorts| > 3 ==> At(TooManySorts, path) in all)
            && (i < |sorts| ==>
                  && (!IsReference(sorts[i].field) ==> At(ReferenceInvalid, ItemPath(path, i)) in all)
                  && (sorts[i].direction !in {"asc", "desc"} ==> At(SortDirection, ItemPath(path, i)) in all)
                  && ((exists j :: 0 <= j < i && sorts[j] == sorts[i]) ==> At(SortRepeated, ItemPath(path, i)) in all))
  {
    hide At, When, ItemPath, Upto, IsReference, SortKey;
    var all := SortIssues(sorts, path);
    ToldIf(|sorts| > 3, TooManySorts, path, all);
    if i < |sorts| {
      PartOfUpto(|sorts|, SortPart(sorts, path), i);
      ToldIf(!IsReference(sorts[i].field), ReferenceInvalid, ItemPath(path, i), all);
      ToldIf(!ValidDirection(sorts[i].direction), SortDirection, ItemPath(path, i), all);
      ToldIf(SortRepeats(sorts, i), SortRepeated, ItemPath(path, i), all);
      if j :| 0 <= j < i && sorts[j] == sorts[i] { assert SortKeys(sorts)[j] == SortKeys(sorts)[i]; }
    }
  }

  // ----- the order of a report

  /** A report is in the byte order of paths, of codes where these are equal, and then of
      messages. */
  lemma ReportOrder(issues: seq<Issue>)
    requires Ascending(issues)
    ensures forall i, j :: 0 <= i < j < |issues| ==>
      var a, b := issues[i], issues[j];
      || StringLess(a.path, b.path) || (a.path == b.path && StringLess(a.code, b.code))
      || (a.path == b.path && a.code == b.code && (a.message == b.message || StringLess(a.message, b.message)))
  {
    forall i, j | 0 <= i < j < |issues|
      ensures var a, b := issues[i], issues[j];
              || StringLess(a.path, b.path) || (a.path == b.path && StringLess(a.code, b.code))
              || (a.path == b.path && a.code == b.code && (a.message == b.message || StringLess(a.message, b.message)))
    {
      assert !Before(issues[j], issues[i]);
      StringLessTotal(issues[i].path, issues[j].path);
      StringLessTotal(issues[i].code, issues[j].code);
      StringLessTotal(issues[i].message, issues[j].message);
    }
  }

  /** A document that cannot be decoded is reported by the first thing that fails. */
  lemma FirstFailureTold(d: S.Source, marshal: Encoder, issues: seq<Issue>)
    requires S.IsReport(d, marshal, issues)
    ensures d.size == 0 ==> issues == [At(DocumentEmpty, "$")]
    ensures d.size > 131072 ==> issues == [At(DocumentTooLarge, "$")]
    ensures 0 < d.size <= 131072 ==>
      match (d.keyError, d.profile, d.endError, d.tree)
      case (Some(error), _, _, _) => issues == [At(JsonInvalid(error), "$")]
      case (None, Failed(error), _, _) => issues == [At(DocumentInvalid(error), "$")]
      case (None, Done(_), Some(error), _) => issues == [At(JsonInvalid(error), "$")]
      case (None, Done(_), None, Failed(error)) => issues == [At(JsonInvalid(error), "$")]
      case _ => true
  {
    hide At, S.DocumentIssues, S.GoodDocument, Ascending;
  }
}
