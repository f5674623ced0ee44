/** The validator of capabilities and the validator of profiles check the same things twice,
    in code of their own; here what the one demands is shown to imply what the other does. */
module Agreement {
  import opened Text
  import opened Canonical
  import opened Findings
  import opened Issues
  import opened Conditions
  import opened PresentationModel
  import D = DefaultPresentation
  import P = ProfileCheck

  function PatchOf(f: CompleteField): FieldPatch {
    FieldPatch(f.field, f.labelText, Some(f.component), Some(f.order), Some(f.hidden), f.width, f.span, f.placeholder, f.help, f.visibleWhen)
  }

  function PatchesOf(fields: seq<CompleteField>): seq<FieldPatch> {
    seq(|fields|, i requires 0 <= i < |fields| => PatchOf(fields[i]))
  }

  function ActionPatchOf(a: CompleteAction): ActionPatch {
    ActionPatch(a.action, a.labelText, Some(a.placement), Some(a.order), Some(a.hidden), a.confirm, a.visibleWhen)
  }

  function ActionsOf(actions: seq<CompleteAction>): seq<ActionPatch> {
    seq(|actions|, i requires 0 <= i < |actions| => ActionPatchOf(actions[i]))
  }

  /** The default presentation, every property spelled out as a patch. */
  function SpelledOut(p: CompletePresentation): ProfileSpec {
    ProfileSpec(Some(p.title), Some(p.dataSource),
      Some(ListPatch(Some(PatchesOf(p.columns)), Some(p.density), Some(p.pageSize), Some(p.defaultSort))),
      Some(SearchPatch(Some(PatchesOf(p.searchFields)), Some(p.collapsedByDefault))),
      Some(LayoutPatch(Some(PatchesOf(p.formFields)), Some(p.formColumns))),
      Some(LayoutPatch(Some(PatchesOf(p.detailFields)), Some(p.detailColumns))),
      Some(ActionsOf(p.actions)))
  }

  predicate Taken<T(==)>(part: Option<T>, whole: Option<T>) {
    part == None || part == whole
  }

  ghost predicate TakenLayout(part: Option<LayoutPatch>, fields: seq<CompleteField>, columns: int) {
    part.Some? ==> Taken(part.value.fields, Some(PatchesOf(fields))) && Taken(part.value.columns, Some(columns))
  }

  ghost predicate TakenList(part: Option<ListPatch>, p: CompletePresentation) {
    part.Some? ==>
      && Taken(part.value.columns, Some(PatchesOf(p.columns))) && Taken(part.value.density, Some(p.density))
      && Taken(part.value.pageSize, Some(p.pageSize)) && Taken(part.value.defaultSort, Some(p.defaultSort))
  }

  /** A spec that sets some of these properties to what they are by default, and no others. */
  ghost predicate TakenFrom(spec: ProfileSpec, p: CompletePresentation) {
    && Taken(spec.title, Some(p.title)) && Taken(spec.dataSource, Some(p.dataSource)) && Taken(spec.actions, Some(ActionsOf(p.actions)))
    && TakenList(spec.list, p)
    && (spec.search.Some? ==> Taken(spec.search.value.fields, Some(PatchesOf(p.searchFields)))
                              && Taken(spec.search.value.collapsedByDefault, Some(p.collapsedByDefault)))
    && TakenLayout(spec.form, p.formFields, p.formColumns) && TakenLayout(spec.detail, p.detailFields, p.detailColumns)
  }

  /** What a field of a default presentation must satisfy is enough for its patch. */
  lemma FieldAgrees(f: CompleteField, surface: Surface, x: Context, marshal: Encoder)
    requires D.GoodField(f, surface, x, marshal)
    ensures P.GoodField(PatchOf(f), surface, x)
  {
    hide KnownWhen, SupportsComponent, WellShapedWhen;
  }

  lemma FieldsAgree(fields: seq<CompleteField>, surface: Surface, x: Context, marshal: Encoder)
    requires D.GoodFields(fields, surface, x, marshal)
    ensures P.GoodFields(PatchesOf(fields), surface, x)
  {
    hide D.GoodField, P.GoodField;
    forall i | 0 <= i < |fields| ensures P.GoodField(PatchesOf(fields)[i], surface, x) {
      FieldAgrees(fields[i], surface, x, marshal);
    }
  }

  lemma ActionAgrees(a: CompleteAction, x: Context, marshal: Encoder)
    requires D.GoodAction(a, x, marshal)
    ensures P.GoodAction(ActionPatchOf(a), x)
  {
    hide KnownWhen, WellShapedWhen;
  }

  lemma ActionsAgree(actions: seq<CompleteAction>, x: Context, marshal: Encoder)
    requires D.GoodActions(actions, x, marshal)
    ensures P.GoodActions(ActionsOf(actions), x)
  {
    hide D.GoodAction, P.GoodAction;
    forall i | 0 <= i < |actions| ensures P.GoodAction(ActionsOf(actions)[i], x) {
      ActionAgrees(actions[i], x, marshal);
    }
  }

  lemma ListAgrees(list: ListPatch, c: Capability, marshal: Encoder)
    requires D.GoodPresentation(c, marshal) && TakenList(Some(list), c.defaultPresentation)
    ensures P.GoodList(list, FindDataSource(c.dataSources, c.defaultPresentation.dataSource), ContextOf(c))
  {
    var p, x := c.defaultPresentation, ContextOf(c);
    FieldsAgree(p.columns, LIST, x, marshal);
    hide D.GoodFields, P.GoodFields, D.GoodActions, D.NothingMissing, D.GoodSettings, Sortable, GoodSorts, GoodText, PageSizeAllowed, PatchesOf, ContextOf,
         FindDataSource;
  }

  lemma SpecAgrees(c: Capability, spec: ProfileSpec, marshal: Encoder)
    requires D.GoodPresentation(c, marshal) && TakenFrom(spec, c.defaultPresentation)
    ensures P.GoodSpec(c, spec)
  {
    var p, x := c.defaultPresentation, ContextOf(c);
    FieldsAgree(p.searchFields, SEARCH, x, marshal);
    FieldsAgree(p.formFields, FORM, x, marshal);
    FieldsAgree(p.detailFields, DETAIL, x, marshal);
    ActionsAgree(p.actions, x, marshal);
    if spec.list.Some? { ListAgrees(spec.list.value, c, marshal); }
    hide D.GoodFields, P.GoodFields, D.GoodActions, P.GoodActions, P.GoodList, D.NothingMissing, D.GoodSettings, Sortable, GoodSorts, GoodText, PatchesOf,
         ActionsOf, ContextOf, FindDataSource, TakenList;
  }

  /** Whatever defaults a profile repeats, it passes whenever the capability itself passes,
      provided that on a limited page it repeats nothing unsupported there. */
  lemma RepeatedDefaultsPass(c: Capability, p: Profile, rules: Rules)
    requires D.GoodCapability(c, rules) && TakenFrom(p.spec, c.defaultPresentation)
    requires p.metadata.pageKey == c.pageKey && p.metadata.definitionHash == c.definitionHash
    ensures P.GoodProfile(c, p) <==> (Limited(c) ==> P.LimitedSpec(p.spec))
  {
    hide D.GoodIdentity, D.GoodPresentation, D.NoConditions, TakenFrom, P.GoodSpec, P.LimitedSpec, Limited;
    SpecAgrees(c, p.spec, rules.marshal);
  }

  /** The profile that spells out the whole default presentation passes ValidateProfile
      exactly when the capability is not a limited table. */
  lemma DefaultProfilePasses(c: Capability, p: Profile, rules: Rules)
    requires D.GoodCapability(c, rules) && p.spec == SpelledOut(c.defaultPresentation)
    requires p.metadata.pageKey == c.pageKey && p.metadata.definitionHash == c.definitionHash
    ensures P.GoodProfile(c, p) <==> !Limited(c)
  {
    hide D.GoodCapability, P.GoodProfile, Limited, PatchesOf, ActionsOf;
    RepeatedDefaultsPass(c, p, rules);
  }

  /** The profile that patches nothing passes for every capability. */
  lemma EmptyProfilePasses(c: Capability, p: Profile)
    requires p.spec == ProfileSpec(None, None, None, None, None, None, None)
    requires p.metadata.pageKey == c.pageKey && p.metadata.definitionHash == c.definitionHash
    ensures P.GoodProfile(c, p)
  {
    hide Limited, ContextOf;
  }

  /** And so for the lists that the validators return. */
  lemma PassesReport(c: Capability, p: Profile, rules: Rules, ofProfile: seq<Issue>)
    requires D.GoodCapability(c, rules) && P.IsReport(Some(c), Some(p), ofProfile) && p.spec == SpelledOut(c.defaultPresentation)
    requires p.metadata.pageKey == c.pageKey && p.metadata.definitionHash == c.definitionHash
    ensures ofProfile == [] <==> !Limited(c)
  {
    hide D.GoodCapability, P.ProfileIssues, P.GoodProfile, Limited, SpelledOut, Ascending, At;
    P.ProfileClean(c, p);
    DefaultProfilePasses(c, p, rules);
    assert |ofProfile| == |multiset(ofProfile)|;
  }

  /** In the validators' own terms: if ValidateCapability reports nothing, ValidateProfile
      reports nothing on the spelled-out default, unless the capability is a limited table. */
  lemma ReportsAgree(c: Capability, p: Profile, rules: Rules, ofCapability: seq<Issue>, ofProfile: seq<Issue>)
    requires D.IsReport(Some(c), rules, ofCapability) && P.IsReport(Some(c), Some(p), ofProfile) && ofCapability == []
    requires p.spec == SpelledOut(c.defaultPresentation)
    requires p.metadata.pageKey == c.pageKey && p.metadata.definitionHash == c.definitionHash
    ensures ofProfile == [] <==> !Limited(c)
  {
    hide D.CapabilityIssues, D.GoodCapability, P.ProfileIssues, P.GoodProfile, Limited, SpelledOut, Ascending, At;
    D.CapabilityClean(c, rules);
    assert |multiset(ofCapability)| == 0;
    PassesReport(c, p, rules, ofProfile);
  }
}
