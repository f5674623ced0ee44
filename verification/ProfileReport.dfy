/** What a report of ValidateProfile says: for everything wrong with a profile, read off profile
    and capability alone, an issue with that code at that place. */
module ProfileReport {
  import opened Text
  import opened Findings
  import opened Issues
  import opened Conditions
  import opened PresentationModel
  import opened PlainTerms
  import P = ProfileCheck

  /** Some issue has this code and path. */
  ghost predicate Says(issues: multiset<Issue>, code: string, path: string) {
    exists issue :: issue in issues && issue.code == code && issue.path == path
  }

  ghost predicate Coded(problem: Problem, path: string, code: string, place: string) {
    At(problem, path).code == code && At(problem, path).path == place
  }

  /** A check that is part of some issues says its problem there if it fails. */
  lemma SaysIf(fails: bool, problem: Problem, path: string, code: string, place: string, all: multiset<Issue>)
    requires Coded(problem, path, code, place) && When(fails, problem, path) <= all
    ensures fails ==> Says(all, code, place)
  {
    hide At;
    if fails {
      assert At(problem, path) in When(fails, problem, path);
      assert At(problem, path) in all;
    }
  }

  lemma SaysMore(a: multiset<Issue>, b: multiset<Issue>, code: string, path: string)
    requires Says(a, code, path) && a <= b
    ensures Says(b, code, path)
  {
    var issue :| issue in a && issue.code == code && issue.path == path;
    assert issue in b;
  }

  lemma {:induction false} PartOfUpto(n: nat, part: Part<nat>, i: nat)
    requires i < n
    ensures part(i) <= Upto(n, part)
  {
    if i < n - 1 { PartOfUpto(n - 1, part, i); }
  }

  // ----- codes

  lemma CodePatchFieldRepeated(path: string)
    ensures Coded(PatchFieldRepeated, path, "duplicate-field", path + ".field")
  {
  }

  lemma CodePatchFieldUnknown(path: string)
    ensures Coded(PatchFieldUnknown, path, "unknown-field", path + ".field")
  {
  }

  lemma CodePatchFieldSurface(path: string)
    ensures Coded(PatchFieldSurface, path, "unsupported-field-surface", path + ".field")
  {
  }

  lemma CodePatchComponentUnknown(path: string)
    ensures Coded(PatchComponentUnknown, path, "unknown-component", path + ".component")
  {
  }

  lemma CodePatchComponentUnsupported(path: string)
    ensures Coded(PatchComponentUnsupported, path, "unsupported-field-component", path + ".component")
  {
  }

  lemma CodeRequiredHidden(path: string)
    ensures Coded(RequiredHidden, path, "required-form-field-hidden", path + ".hidden")
  {
  }

  lemma CodeRequiredConditional(path: string)
    ensures Coded(RequiredConditional, path, "required-form-field-conditional", path + ".visibleWhen")
  {
  }

  lemma CodePatchActionRepeated(path: string)
    ensures Coded(PatchActionRepeated, path, "duplicate-action", path + ".action")
  {
  }

  lemma CodePatchActionUnknown(path: string)
    ensures Coded(PatchActionUnknown, path, "unknown-action", path + ".action")
  {
  }

  lemma CodePatchActionPlacement(path: string)
    ensures Coded(PatchActionPlacement, path, "unsupported-action-placement", path + ".placement")
  {
  }

  lemma CodeSortFields(path: string)
    ensures Coded(Findings.SortFields, path, "too-many-data-source-sort-fields", path)
  {
  }

  lemma CodePageSizeLimit(path: string)
    ensures Coded(PageSizeLimit, path, "page-size-exceeds-data-source-limit", path)
  {
  }

  lemma CodePageSizeOption(path: string)
    ensures Coded(PageSizeOption, path, "unsupported-page-size", path)
  {
  }

  lemma CodeSortFieldUnknown(path: string)
    ensures Coded(SortFieldUnknown, path, "unknown-sort-field", path + ".field")
  {
  }

  lemma CodeSortFieldUnsortable(path: string)
    ensures Coded(SortFieldUnsortable, path, "unsupported-sort-field", path + ".field")
  {
  }

  lemma CodePageKeyMismatch(path: string)
    ensures Coded(PageKeyMismatch, path, "page-key-mismatch", path)
  {
  }

  lemma CodeDefinitionDrift(path: string)
    ensures Coded(DefinitionDrift, path, "definition-drift", path)
  {
  }

  lemma CodeProfileDataSource(path: string)
    ensures Coded(ProfileDataSource, path, "unknown-data-source", path)
  {
  }

  lemma CodeLimitedSurface(path: string)
    ensures Coded(LimitedSurface, path, "unsupported-limited-surface", path)
  {
  }

  // ----- fields

  /** The patches of a surface, and where they stand in the document. */
  ghost predicate Patches(spec: ProfileSpec, fields: seq<FieldPatch>, surface: string, place: string) {
    || (surface == "list" && place == "spec.list.columns" && spec.list.Some? && spec.list.value.columns == Some(fields))
    || (surface == "search" && place == "spec.search.fields" && spec.search.Some? && spec.search.value.fields == Some(fields))
    || (surface == "form" && place == "spec.form.fields" && spec.form.Some? && spec.form.value.fields == Some(fields))
    || (surface == "detail" && place == "spec.detail.fields" && spec.detail.Some? && spec.detail.value.fields == Some(fields))
  }

  lemma SpecParts(c: Capability, spec: ProfileSpec)
    ensures P.ListIssues(spec.list, P.EffectiveSource(c, spec), ContextOf(c)) <= P.SpecIssues(c, spec)
    ensures P.FieldsIssues(P.SearchFields(spec.search), SEARCH, "spec.search.fields", ContextOf(c)) <= P.SpecIssues(c, spec)
    ensures P.FieldsIssues(P.LayoutFields(spec.form), FORM, "spec.form.fields", ContextOf(c)) <= P.SpecIssues(c, spec)
    ensures P.FieldsIssues(P.LayoutFields(spec.detail), DETAIL, "spec.detail.fields", ContextOf(c)) <= P.SpecIssues(c, spec)
    ensures P.ActionsIssues(spec.actions, ContextOf(c)) <= P.SpecIssues(c, spec)
    ensures When(P.UnknownSource(c, spec.dataSource), ProfileDataSource, "spec.dataSource") <= P.SpecIssues(c, spec)
  {
    hide At, When, P.ListIssues, P.FieldsIssues, P.ActionsIssues, P.EffectiveSource, P.UnknownSource, ContextOf, SEARCH, FORM, DETAIL;
  }

  lemma ListParts(list: ListPatch, source: Option<DataSource>, x: Context)
    ensures P.FieldsIssues(list.columns, LIST, "spec.list.columns", x) <= P.ListIssues(Some(list), source, x)
    ensures P.SortsIssues(list.defaultSort, "spec.list.defaultSort", x) <= P.ListIssues(Some(list), source, x)
    ensures When(P.TooManySortFields(list.defaultSort, source, x), Findings.SortFields, "spec.list.defaultSort") <= P.ListIssues(Some(list), source, x)
    ensures P.PageIssues(list.pageSize, source, "spec.list.pageSize", x) <= P.ListIssues(Some(list), source, x)
  {
    hide At, When, P.FieldsIssues, P.SortsIssues, P.PageIssues, P.TooManySortFields, LIST;
  }

  lemma SpecInProfile(c: Capability, p: Profile)
    ensures P.SpecIssues(c, p.spec) <= P.ProfileIssues(c, p)
  {
    hide At, When, P.SpecIssues, P.LimitedIssues;
  }

  /** The issues of one patch are among those of the profile. */
  lemma PatchInProfile(c: Capability, p: Profile, fields: seq<FieldPatch>, surface: string, place: string, i: nat)
    requires Patches(p.spec, fields, surface, place) && i < |fields|
    ensures P.FieldIssues(fields[i], P.FieldRepeats(fields, i), surface, ItemPath(place, i), ContextOf(c)) <= P.ProfileIssues(c, p)
  {
    PatchInSurface(fields, surface, place, i, ContextOf(c));
    SurfaceInSpec(c, p.spec, fields, surface, place);
    SpecInProfile(c, p);
    hide At, P.FieldIssues, P.ProfileIssues, P.SpecIssues, P.FieldsIssues, ContextOf, ItemPath, Patches;
  }

  lemma PatchInSurface(fields: seq<FieldPatch>, surface: string, place: string, i: nat, x: Context)
    requires i < |fields|
    ensures P.FieldIssues(fields[i], P.FieldRepeats(fields, i), surface, ItemPath(place, i), x) <= P.FieldsIssues(Some(fields), surface, place, x)
  {
    hide At, P.FieldIssues, P.FieldRepeats, ItemPath, Upto;
    PartOfUpto(|fields|, P.FieldPart(fields, surface, place, x), i);
  }

  lemma SurfaceInSpec(c: Capability, spec: ProfileSpec, fields: seq<FieldPatch>, surface: string, place: string)
    requires Patches(spec, fields, surface, place)
    ensures P.FieldsIssues(Some(fields), surface, place, ContextOf(c)) <= P.SpecIssues(c, spec)
  {
    hide At, P.SpecIssues, P.ListIssues, P.FieldsIssues, P.ActionsIssues, ContextOf, P.EffectiveSource;
    SpecParts(c, spec);
    if spec.list.Some? { ListParts(spec.list.value, P.EffectiveSource(c, spec), ContextOf(c)); }
  }

  lemma RepeatsExactly(fields: seq<FieldPatch>, i: nat)
    requires i < |fields|
    ensures P.FieldRepeats(fields, i) <==> exists j :: 0 <= j < i && fields[j].field == fields[i].field
  {
    var names := P.FieldNames(fields);
    if j :| 0 <= j < i && fields[j].field == fields[i].field { assert names[j] == names[i]; }
  }

  lemma PatchParts(f: FieldPatch, repeated: bool, surface: string, path: string, x: Context)
    ensures var all := P.FieldIssues(f, repeated, surface, path, x);
            && When(repeated, PatchFieldRepeated, path) <= all
            && When(f.field !in x.definitions, PatchFieldUnknown, path) <= all
            && (f.field in x.definitions ==>
                  var d := x.definitions[f.field];
                  && When(surface !in d.surfaces, PatchFieldSurface, path) <= all
                  && P.ComponentIssues(f.component, d, surface, path, x) <= all
                  && When(P.HidesRequired(f, surface, d), RequiredHidden, path) <= all
                  && When(P.ConditionsRequired(f, surface, d), RequiredConditional, path) <= all)
  {
    hide At, When, ReferenceIssuesWhen, P.ComponentIssues, P.HidesRequired, P.ConditionsRequired;
    assert When(false, PatchFieldUnknown, path) == multiset{} by { WhenCount(false, PatchFieldUnknown, path); }
  }

  lemma ComponentSays(component: Option<string>, d: CapabilityField, surface: string, path: string, x: Context, all: multiset<Issue>)
    requires P.ComponentIssues(component, d, surface, path, x) <= all
    ensures component.Some? && component.value !in x.components ==> Says(all, "unknown-component", path + ".component")
    ensures component.Some? && component.value in x.components && !SupportsComponent(d, surface, component.value, x.strict) ==>
      Says(all, "unsupported-field-component", path + ".component")
  {
    hide SupportsComponent, At, When, Says, Coded;
    if component.Some? {
      var fails := component.value in x.components && !SupportsComponent(d, surface, component.value, x.strict);
      CodePatchComponentUnknown(path);
      SaysIf(component.value !in x.components, PatchComponentUnknown, path, "unknown-component", path + ".component", all);
      CodePatchComponentUnsupported(path);
      SaysIf(fails, PatchComponentUnsupported, path, "unsupported-field-component", path + ".component", all);
    }
  }

  /** Everything wrong with a patch is said, by the maps the validator builds. */
  ghost predicate PatchSaid(f: FieldPatch, repeated: bool, surface: string, path: string, x: Context, all: multiset<Issue>) {
    && (repeated ==> Says(all, "duplicate-field", path + ".field"))
    && (f.field !in x.definitions ==> Says(all, "unknown-field", path + ".field"))
    && (f.field in x.definitions ==>
          var d := x.definitions[f.field];
          && (surface !in d.surfaces ==> Says(all, "unsupported-field-surface", path + ".field"))
          && (f.component.Some? && f.component.value !in x.components ==> Says(all, "unknown-component", path + ".component"))
          && (f.component.Some? && f.component.value in x.components && !SupportsComponent(d, surface, f.component.value, x.strict) ==>
                Says(all, "unsupported-field-component", path + ".component"))
          && (surface == "form" && d.required && f.hidden == Some(true) ==> Says(all, "required-form-field-hidden", path + ".hidden"))
          && (surface == "form" && d.required && f.visibleWhen.Some? ==> Says(all, "required-form-field-conditional", path + ".visibleWhen")))
  }

  lemma PatchSays(f: FieldPatch, repeated: bool, surface: string, path: string, x: Context, all: multiset<Issue>)
    requires P.FieldIssues(f, repeated, surface, path, x) <= all
    ensures PatchSaid(f, repeated, surface, path, x, all)
  {
    hide SupportsComponent, At, When, Says, Coded, P.FieldIssues, P.ComponentIssues;
    PatchParts(f, repeated, surface, path, x);
    CodePatchFieldRepeated(path);
    SaysIf(repeated, PatchFieldRepeated, path, "duplicate-field", path + ".field", all);
    CodePatchFieldUnknown(path);
    SaysIf(f.field !in x.definitions, PatchFieldUnknown, path, "unknown-field", path + ".field", all);
    if f.field in x.definitions {
      var d := x.definitions[f.field];
      CodePatchFieldSurface(path);
      SaysIf(surface !in d.surfaces, PatchFieldSurface, path, "unsupported-field-surface", path + ".field", all);
      ComponentSays(f.component, d, surface, path, x, all);
      CodeRequiredHidden(path);
      SaysIf(P.HidesRequired(f, surface, d), RequiredHidden, path, "required-form-field-hidden", path + ".hidden", all);
      CodeRequiredConditional(path);
      SaysIf(P.ConditionsRequired(f, surface, d), RequiredConditional, path, "required-form-field-conditional", path + ".visibleWhen", all);
    }
  }

  /** And read off the capability. */
  ghost predicate FieldSaid(c: Capability, fields: seq<FieldPatch>, i: nat, surface: string, path: string, all: multiset<Issue>)
    requires i < |fields|
  {
    var f := fields[i];
    && ((exists j :: 0 <= j < i && fields[j].field == f.field) ==> Says(all, "duplicate-field", path + ".field"))
    && ((forall d :: !IsField(c, f.field, d)) ==> Says(all, "unknown-field", path + ".field"))
    && (forall d :: IsField(c, f.field, d) ==>
          && (surface !in d.surfaces ==> Says(all, "unsupported-field-surface", path + ".field"))
          && (f.component.Some? && f.component.value !in c.components ==> Says(all, "unknown-component", path + ".component"))
          && (f.component.Some? && f.component.value in c.components && !Offers(c, d, surface, f.component.value) ==>
                Says(all, "unsupported-field-component", path + ".component"))
          && (surface == "form" && d.required && f.hidden == Some(true) ==> Says(all, "required-form-field-hidden", path + ".hidden"))
          && (surface == "form" && d.required && f.visibleWhen.Some? ==> Says(all, "required-form-field-conditional", path + ".visibleWhen")))
  }

  lemma SaidOfCapability(c: Capability, fields: seq<FieldPatch>, i: nat, surface: string, path: string, all: multiset<Issue>)
    requires i < |fields| && PatchSaid(fields[i], P.FieldRepeats(fields, i), surface, path, ContextOf(c), all)
    ensures FieldSaid(c, fields, i, surface, path, all)
  {
    hide Says, IsField, Offers, SupportsComponent, Definitions, Placements;
    var f, x := fields[i], ContextOf(c);
    RepeatsExactly(fields, i);
    forall d ensures IsField(c, f.field, d) <==> f.field in x.definitions && x.definitions[f.field] == d {
      FieldLookup(c, f.field, d);
    }
    if f.field in x.definitions {
      assert IsField(c, f.field, x.definitions[f.field]);
      if f.component.Some? { OffersExactly(c, x.definitions[f.field], surface, f.component.value); }
    }
    assert f.component.Some? ==> (f.component.value in x.components <==> f.component.value in c.components);
  }

  /** Everything wrong with the i-th patch of a surface is reported at its place. */
  lemma FieldReported(c: Capability, p: Profile, fields: seq<FieldPatch>, surface: string, place: string, i: nat)
    requires Patches(p.spec, fields, surface, place) && i < |fields|
    ensures FieldSaid(c, fields, i, surface, place + "[" + Decimal(i) + "]", P.ProfileIssues(c, p))
  {
    hide At, Says, PatchSaid, FieldSaid, P.FieldIssues, P.FieldRepeats, P.ProfileIssues, Patches, ContextOf;
    PatchInProfile(c, p, fields, surface, place, i);
    PatchSays(fields[i], P.FieldRepeats(fields, i), surface, ItemPath(place, i), ContextOf(c), P.ProfileIssues(c, p));
    SaidOfCapability(c, fields, i, surface, ItemPath(place, i), P.ProfileIssues(c, p));
  }

  /** What a part says, the whole says. */
  lemma SaysAll(own: multiset<Issue>, all: multiset<Issue>)
    requires own <= all
    ensures forall code, path :: Says(own, code, path) ==> Says(all, code, path)
  {
    forall code, path | Says(own, code, path) ensures Says(all, code, path) {
      SaysMore(own, all, code, path);
    }
  }

  // ----- actions

  lemma ActionInProfile(c: Capability, p: Profile, i: nat)
    requires p.spec.actions.Some? && i < |p.spec.actions.value|
    ensures P.ActionIssues(p.spec.actions.value[i], P.ActionRepeats(p.spec.actions.value, i), ItemPath("spec.actions", i), ContextOf(c))
         <= P.ProfileIssues(c, p)
  {
    var x, actions := ContextOf(c), p.spec.actions.value;
    var part := P.ActionPart(actions, x);
    PartOfUpto(|actions|, part, i);
    assert part(i) <= P.ActionsIssues(Some(actions), x);
    hide At, P.ActionPart, P.ActionIssues, P.ProfileIssues, P.SpecIssues, P.ActionsIssues, ContextOf, Upto, ItemPath;
    SpecInProfile(c, p);
    SpecParts(c, p.spec);
  }

  /** Everything wrong with the i-th action patch is reported at its place. */
  lemma ActionReported(c: Capability, p: Profile, i: nat)
    requires p.spec.actions.Some? && i < |p.spec.actions.value|
    ensures var actions, all := p.spec.actions.value, P.ProfileIssues(c, p);
            var a, path := actions[i], "spec.actions[" + Decimal(i) + "]";
            && ((exists j :: 0 <= j < i && actions[j].action == a.action) ==> Says(all, "duplicate-action", path + ".action"))
            && ((forall d :: !IsAction(c, a.action, d)) ==> Says(all, "unknown-action", path + ".action"))
            && (forall d :: IsAction(c, a.action, d) && a.placement.Some? && a.placement.value !in d.placements ==>
                  Says(all, "unsupported-action-placement", path + ".placement"))
  {
    hide At, Says, P.ActionIssues, P.ActionRepeats, P.ProfileIssues, IsAction, Definitions, Placements;
    var actions, all, x := p.spec.actions.value, P.ProfileIssues(c, p), ContextOf(c);
    var a, path := actions[i], ItemPath("spec.actions", i);
    assert "spec.actions" + "[" + Decimal(i) + "]" == "spec.actions[" + Decimal(i) + "]";
    ActionInProfile(c, p, i);
    ActionSays(a, P.ActionRepeats(actions, i), path, x);
    SaysAll(P.ActionIssues(a, P.ActionRepeats(actions, i), path, x), all);
    ActionRepeatsExactly(actions, i);
    forall d ensures IsAction(c, a.action, d) <==> a.action in x.placements && x.placements[a.action] == d {
      ActionLookup(c, a.action, d);
    }
    if a.action in x.placements { assert IsAction(c, a.action, x.placements[a.action]); }
  }

  lemma ActionRepeatsExactly(actions: seq<ActionPatch>, i: nat)
    requires i < |actions|
    ensures P.ActionRepeats(actions, i) <==> exists j :: 0 <= j < i && actions[j].action == actions[i].action
  {
    var names := P.ActionNames(actions);
    if j :| 0 <= j < i && actions[j].action == actions[i].action { assert names[j] == names[i]; }
  }

  lemma ActionParts(a: ActionPatch, repeated: bool, path: string, x: Context)
    ensures var all := P.ActionIssues(a, repeated, path, x);
            && When(repeated, PatchActionRepeated, path) <= all
            && When(a.action !in x.placements, PatchActionUnknown, path) <= all
            && When(P.NotPlaceable(a, x), PatchActionPlacement, path) <= all
  {
    hide At, When, ReferenceIssuesWhen, P.NotPlaceable;
  }

  lemma ActionSays(a: ActionPatch, repeated: bool, path: string, x: Context)
    ensures var all := P.ActionIssues(a, repeated, path, x);
            && (repeated ==> Says(all, "duplicate-action", path + ".action"))
            && (a.action !in x.placements ==> Says(all, "unknown-action", path + ".action"))
            && (a.action in x.placements && a.placement.Some? && a.placement.value !in x.placements[a.action].placements ==>
                  Says(all, "unsupported-action-placement", path + ".placement"))
  {
    hide At, When, Says, Coded, P.ActionIssues;
    var all := P.ActionIssues(a, repeated, path, x);
    ActionParts(a, repeated, path, x);
    CodePatchActionRepeated(path);
    SaysIf(repeated, PatchActionRepeated, path, "duplicate-action", path + ".action", all);
    CodePatchActionUnknown(path);
    SaysIf(a.action !in x.placements, PatchActionUnknown, path, "unknown-action", path + ".action", all);
    CodePatchActionPlacement(path);
    SaysIf(P.NotPlaceable(a, x), PatchActionPlacement, path, "unsupported-action-placement", path + ".placement", all);
  }

  // ----- the list and the document as a whole

  /** Too many sorts and a page size the data source does not allow, for the data source the
      profile names or else the default one. */
  lemma ListReported(c: Capability, p: Profile, s: DataSource)
    requires p.spec.list.Some? && c.definitionVersion == "2" && IsSource(c, NamedSource(c, p.spec), s)
    ensures var l, all := p.spec.list.value, P.ProfileIssues(c, p);
            && (l.defaultSort.Some? && |l.defaultSort.value| > s.maxSortFields ==>
                  Says(all, "too-many-data-source-sort-fields", "spec.list.defaultSort"))
            && (l.pageSize.Some? && s.maxPageSize > 0 && l.pageSize.value > s.maxPageSize ==>
                  Says(all, "page-size-exceeds-data-source-limit", "spec.list.pageSize"))
            && (l.pageSize.Some? && s.pageSizeOptions != [] && l.pageSize.value !in s.pageSizeOptions ==>
                  Says(all, "unsupported-page-size", "spec.list.pageSize"))
  {
    var l, all, x := p.spec.list.value, P.ProfileIssues(c, p), ContextOf(c);
    var source := P.EffectiveSource(c, p.spec);
    SourceIs(c, NamedSource(c, p.spec), s);
    assert source == Some(s);
    StrictIs(c);
    ListInProfile(c, p);
    hide At, When, Says, Coded, P.ProfileIssues, P.EffectiveSource, ContextOf, IsSource, FindDataSource;
    CodeSortFields("spec.list.defaultSort");
    SaysIf(P.TooManySortFields(l.defaultSort, source, x), Findings.SortFields, "spec.list.defaultSort",
           "too-many-data-source-sort-fields", "spec.list.defaultSort", all);
    if l.pageSize.Some? { PageSays(l.pageSize.value, s, all); }
  }

  lemma PageSays(value: int, s: DataSource, all: multiset<Issue>)
    requires PageSizeIssues(value, s, "spec.list.pageSize") <= all
    ensures s.maxPageSize > 0 && value > s.maxPageSize ==> Says(all, "page-size-exceeds-data-source-limit", "spec.list.pageSize")
    ensures s.pageSizeOptions != [] && value !in s.pageSizeOptions ==> Says(all, "unsupported-page-size", "spec.list.pageSize")
  {
    hide At, When, Says, Coded;
    CodePageSizeLimit("spec.list.pageSize");
    SaysIf(BeyondMaximum(value, s), PageSizeLimit, "spec.list.pageSize", "page-size-exceeds-data-source-limit", "spec.list.pageSize", all);
    CodePageSizeOption("spec.list.pageSize");
    SaysIf(NoOption(value, s), PageSizeOption, "spec.list.pageSize", "unsupported-page-size", "spec.list.pageSize", all);
  }

  lemma ListInProfile(c: Capability, p: Profile)
    requires p.spec.list.Some?
    ensures var l, all, x, source := p.spec.list.value, P.ProfileIssues(c, p), ContextOf(c), P.EffectiveSource(c, p.spec);
            && When(P.TooManySortFields(l.defaultSort, source, x), Findings.SortFields, "spec.list.defaultSort") <= all
            && P.PageIssues(l.pageSize, source, "spec.list.pageSize", x) <= all
            && P.SortsIssues(l.defaultSort, "spec.list.defaultSort", x) <= all
  {
    hide At, When, P.ProfileIssues, P.SpecIssues, P.ListIssues, P.EffectiveSource, P.TooManySortFields, P.PageIssues, P.SortsIssues, ContextOf;
    SpecInProfile(c, p);
    SpecParts(c, p.spec);
    ListParts(p.spec.list.value, P.EffectiveSource(c, p.spec), ContextOf(c));
  }

  /** The i-th sort, and what it refers to. */
  lemma SortReported(c: Capability, p: Profile, i: nat)
    requires p.spec.list.Some? && p.spec.list.value.defaultSort.Some? && i < |p.spec.list.value.defaultSort.value|
    ensures var s, all, path := p.spec.list.value.defaultSort.value[i], P.ProfileIssues(c, p), "spec.list.defaultSort[" + Decimal(i) + "].field";
            && ((forall d :: !IsField(c, s.field, d)) ==> Says(all, "unknown-sort-field", path))
            && (forall d :: IsField(c, s.field, d) && !d.sortable ==> Says(all, "unsupported-sort-field", path))
  {
    hide At, When, Says, P.ProfileIssues, P.EffectiveSource, IsField, SortableIssues, SortablePart, Definitions, Placements;
    var l, all, x := p.spec.list.value, P.ProfileIssues(c, p), ContextOf(c);
    var sorts, place := l.defaultSort.value, ItemPath("spec.list.defaultSort", i);
    assert place + ".field" == "spec.list.defaultSort[" + Decimal(i) + "].field";
    ListInProfile(c, p);
    SortInList(sorts, i, x);
    SortSays(sorts, i, "spec.list.defaultSort", x, all);
    forall d ensures IsField(c, sorts[i].field, d) <==> sorts[i].field in x.definitions && x.definitions[sorts[i].field] == d {
      FieldLookup(c, sorts[i].field, d);
    }
    if sorts[i].field in x.definitions { assert IsField(c, sorts[i].field, x.definitions[sorts[i].field]); }
  }

  lemma SortInList(sorts: seq<Sort>, i: nat, x: Context)
    requires i < |sorts|
    ensures SortablePart(sorts, "spec.list.defaultSort", x)(i) <= SortableIssues(sorts, "spec.list.defaultSort", x)
  {
    hide SortablePart, Upto;
    PartOfUpto(|sorts|, SortablePart(sorts, "spec.list.defaultSort", x), i);
  }

  lemma SortSays(sorts: seq<Sort>, i: nat, path: string, x: Context, all: multiset<Issue>)
    requires i < |sorts| && SortablePart(sorts, path, x)(i) <= all
    ensures sorts[i].field !in x.definitions ==> Says(all, "unknown-sort-field", ItemPath(path, i) + ".field")
    ensures sorts[i].field in x.definitions && !x.definitions[sorts[i].field].sortable ==>
      Says(all, "unsupported-sort-field", ItemPath(path, i) + ".field")
  {
    var place, s := ItemPath(path, i), sorts[i];
    var unsortable := s.field in x.definitions && !SortableField(s.field, x);
    assert SortablePart(sorts, path, x)(i) == When(s.field !in x.definitions, SortFieldUnknown, place) + When(unsortable, SortFieldUnsortable, place);
    hide At, When, Says, Coded, ItemPath, SortablePart;
    CodeSortFieldUnknown(place);
    SaysIf(s.field !in x.definitions, SortFieldUnknown, place, "unknown-sort-field", place + ".field", all);
    CodeSortFieldUnsortable(place);
    SaysIf(unsortable, SortFieldUnsortable, place, "unsupported-sort-field", place + ".field", all);
  }

  /** Another page, another definition, an unknown data source, and what a page that is only a
      table does not support. */
  lemma DocumentReported(c: Capability, p: Profile)
    ensures var all, spec := P.ProfileIssues(c, p), p.spec;
            && (p.metadata.pageKey != c.pageKey ==> Says(all, "page-key-mismatch", "metadata.pageKey"))
            && (p.metadata.definitionHash != c.definitionHash ==> Says(all, "definition-drift", "metadata.definitionHash"))
            && (spec.dataSource.Some? && (forall s :: !IsSource(c, spec.dataSource.value, s)) ==> Says(all, "unknown-data-source", "spec.dataSource"))
            && (TableOnly(c) ==>
                  && (spec.dataSource.Some? ==> Says(all, "unsupported-limited-surface", "spec.dataSource"))
                  && (spec.form.Some? ==> Says(all, "unsupported-limited-surface", "spec.form"))
                  && (spec.detail.Some? ==> Says(all, "unsupported-limited-surface", "spec.detail"))
                  && (spec.actions.Some? ==> Says(all, "unsupported-limited-surface", "spec.actions"))
                  && (spec.list.Some? && spec.list.value.defaultSort.Some? ==> Says(all, "unsupported-limited-surface", "spec.list.defaultSort")))
  {
    hide At, When, Says, Coded, P.ProfileIssues, TableOnly, Limited, IsSource, FindDataSource;
    var all, spec := P.ProfileIssues(c, p), p.spec;
    TableExactly(c, spec);
    if spec.dataSource.Some? { SourceNamed(c, spec.dataSource.value); }
    DocumentParts(c, p);
    CodePageKeyMismatch("metadata.pageKey");
    SaysIf(p.metadata.pageKey != c.pageKey, PageKeyMismatch, "metadata.pageKey", "page-key-mismatch", "metadata.pageKey", all);
    CodeDefinitionDrift("metadata.definitionHash");
    SaysIf(p.metadata.definitionHash != c.definitionHash, DefinitionDrift, "metadata.definitionHash", "definition-drift", "metadata.definitionHash", all);
    CodeProfileDataSource("spec.dataSource");
    SaysIf(P.UnknownSource(c, spec.dataSource), ProfileDataSource, "spec.dataSource", "unknown-data-source", "spec.dataSource", all);
    if Limited(c) {
      LimitedSays(spec.dataSource.Some?, "spec.dataSource", all);
      LimitedSays(spec.form.Some?, "spec.form", all);
      LimitedSays(spec.detail.Some?, "spec.detail", all);
      LimitedSays(spec.actions.Some?, "spec.actions", all);
      if spec.list.Some? { LimitedSays(spec.list.value.defaultSort.Some?, "spec.list.defaultSort", all); }
    }
  }

  lemma LimitedSays(set_: bool, path: string, all: multiset<Issue>)
    requires When(set_, LimitedSurface, path) <= all
    ensures set_ ==> Says(all, "unsupported-limited-surface", path)
  {
    hide At, When, Says, Coded;
    CodeLimitedSurface(path);
    SaysIf(set_, LimitedSurface, path, "unsupported-limited-surface", path, all);
  }

  lemma DocumentParts(c: Capability, p: Profile)
    ensures var all, spec := P.ProfileIssues(c, p), p.spec;
            && When(p.metadata.pageKey != c.pageKey, PageKeyMismatch, "metadata.pageKey") <= all
            && When(p.metadata.definitionHash != c.definitionHash, DefinitionDrift, "metadata.definitionHash") <= all
            && When(P.UnknownSource(c, spec.dataSource), ProfileDataSource, "spec.dataSource") <= all
            && (Limited(c) ==>
                  && When(spec.dataSource.Some?, LimitedSurface, "spec.dataSource") <= all
                  && When(spec.form.Some?, LimitedSurface, "spec.form") <= all
                  && When(spec.detail.Some?, LimitedSurface, "spec.detail") <= all
                  && When(spec.actions.Some?, LimitedSurface, "spec.actions") <= all
                  && (spec.list.Some? ==> When(spec.list.value.defaultSort.Some?, LimitedSurface, "spec.list.defaultSort") <= all))
  {
    SpecParts(c, p.spec);
    SpecInProfile(c, p);
    hide At, When, P.SpecIssues, P.PatchesIssues, Limited, P.UnknownSource;
    var limited := P.LimitedIssues(p.spec);
    assert Limited(c) ==> limited <= P.ProfileIssues(c, p);
    if p.spec.list.Some? {
      assert P.LimitedListIssues(p.spec.list) <= limited;
    }
  }
}
