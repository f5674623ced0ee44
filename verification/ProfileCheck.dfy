/** ValidateProfile of admin/presentation/validation.go: a profile against the capability it
    patches. */
module ProfileCheck {
  import opened Text
  import opened Findings
  import opened Issues
  import opened Conditions
  import opened PresentationModel

  // ----- what a profile has to satisfy

  /** A registered field on a surface it is registered for; a component, if one is set, that
      it supports there; a required form field not set to hidden and without a condition. */
  ghost predicate GoodField(f: FieldPatch, surface: Surface, x: Context) {
    && f.field in x.definitions
    && var d := x.definitions[f.field];
    && surface in d.surfaces
    && (f.component.Some? ==> f.component.value in x.components && SupportsComponent(d, surface, f.component.value, x.strict))
    && (surface == FORM && d.required ==> f.hidden != Some(true) && f.visibleWhen == None)
    && KnownWhen(f.visibleWhen, x.definitions.Keys)
  }

  ghost predicate GoodFields(fields: seq<FieldPatch>, surface: Surface, x: Context) {
    && (forall i, j :: 0 <= i < j < |fields| ==> fields[i].field != fields[j].field)
    && forall i :: 0 <= i < |fields| ==> GoodField(fields[i], surface, x)
  }

  ghost predicate GoodFieldsWhen(fields: Option<seq<FieldPatch>>, surface: Surface, x: Context) {
    fields.Some? ==> GoodFields(fields.value, surface, x)
  }

  ghost predicate GoodAction(a: ActionPatch, x: Context) {
    && a.action in x.placements
    && (a.placement.Some? ==> a.placement.value in x.placements[a.action].placements)
    && KnownWhen(a.visibleWhen, x.definitions.Keys)
  }

  ghost predicate GoodActions(actions: seq<ActionPatch>, x: Context) {
    && (forall i, j :: 0 <= i < j < |actions| ==> actions[i].action != actions[j].action)
    && forall i :: 0 <= i < |actions| ==> GoodAction(actions[i], x)
  }

  ghost predicate GoodList(list: ListPatch, source: Option<DataSource>, x: Context) {
    && GoodFieldsWhen(list.columns, LIST, x)
    && (list.defaultSort.Some? ==> Sortable(list.defaultSort.value, x))
    && (x.strict && source.Some? && list.defaultSort.Some? ==> |list.defaultSort.value| <= source.value.maxSortFields)
    && (x.strict && source.Some? && list.pageSize.Some? ==> PageSizeAllowed(list.pageSize.value, source.value))
  }

  function EffectiveSource(c: Capability, spec: ProfileSpec): Option<DataSource> {
    FindDataSource(c.dataSources, if spec.dataSource.Some? then spec.dataSource.value else c.defaultPresentation.dataSource)
  }

  ghost predicate GoodSpec(c: Capability, spec: ProfileSpec) {
    var x := ContextOf(c);
    && (spec.dataSource.Some? ==> FindDataSource(c.dataSources, spec.dataSource.value).Some?)
    && (spec.list.Some? ==> GoodList(spec.list.value, EffectiveSource(c, spec), x))
    && (spec.search.Some? ==> GoodFieldsWhen(spec.search.value.fields, SEARCH, x))
    && (spec.form.Some? ==> GoodFieldsWhen(spec.form.value.fields, FORM, x))
    && (spec.detail.Some? ==> GoodFieldsWhen(spec.detail.value.fields, DETAIL, x))
    && (spec.actions.Some? ==> GoodActions(spec.actions.value, x))
  }

  /** What a field patch may not set on a limited table page. */
  predicate PlainPatch(f: FieldPatch, allowWidth: bool) {
    && f.component == None && f.span == None && f.placeholder == None && f.help == None
    && (f.width.Some? ==> allowWidth) && f.visibleWhen == None
  }

  ghost predicate PlainPatches(fields: Option<seq<FieldPatch>>, allowWidth: bool) {
    fields.Some? ==> forall i :: 0 <= i < |fields.value| ==> PlainPatch(fields.value[i], allowWidth)
  }

  ghost predicate LimitedSpec(spec: ProfileSpec) {
    && spec.dataSource == None && spec.form == None && spec.detail == None && spec.actions == None
    && (spec.list.Some? ==> spec.list.value.defaultSort == None && PlainPatches(spec.list.value.columns, true))
    && (spec.search.Some? ==> PlainPatches(spec.search.value.fields, false))
  }

  ghost predicate GoodProfile(c: Capability, p: Profile) {
    && p.metadata.pageKey == c.pageKey && p.metadata.definitionHash == c.definitionHash
    && (Limited(c) ==> LimitedSpec(p.spec))
    && GoodSpec(c, p.spec)
  }

  // ----- one field

  function ComponentIssues(component: Option<string>, d: CapabilityField, surface: Surface, path: string, x: Context): multiset<Issue> {
    if component == None then multiset{}
    else
      When(component.value !in x.components, PatchComponentUnknown, path)
      + When(component.value in x.components && !SupportsComponent(d, surface, component.value, x.strict), PatchComponentUnsupported, path)
  }

  predicate HidesRequired(f: FieldPatch, surface: Surface, d: CapabilityField) {
    surface == FORM && d.required && f.hidden.Some? && f.hidden.value
  }

  predicate ConditionsRequired(f: FieldPatch, surface: Surface, d: CapabilityField) {
    surface == FORM && d.required && f.visibleWhen.Some?
  }

  function KnownFieldIssues(f: FieldPatch, surface: Surface, path: string, x: Context): multiset<Issue>
    requires f.field in x.definitions
  {
    var d := x.definitions[f.field];
    When(surface !in d.surfaces, PatchFieldSurface, path)
    + ComponentIssues(f.component, d, surface, path, x)
    + When(HidesRequired(f, surface, d), RequiredHidden, path)
    + When(ConditionsRequired(f, surface, d), RequiredConditional, path)
    + ReferenceIssuesWhen(f.visibleWhen, MemberPath(path, "visibleWhen"), x.definitions.Keys)
  }

  function FieldIssues(f: FieldPatch, repeated: bool, surface: Surface, path: string, x: Context): multiset<Issue> {
    When(repeated, PatchFieldRepeated, path)
    + if f.field !in x.definitions then When(true, PatchFieldUnknown, path) else KnownFieldIssues(f, surface, path, x)
  }

  method ValidateComponent(component: Option<string>, d: CapabilityField, surface: Surface, path: string, x: Context, log: IssueLog)
    modifies log
    ensures log.Bag() == old(log.Bag()) + ComponentIssues(component, d, surface, path, x)
  {
    hide At, When, IssueLog.Bag, SupportsComponent;
    if component.Some? {
      log.Check(component.value !in x.components, PatchComponentUnknown, path);
      log.Check(component.value in x.components && !SupportsComponent(d, surface, component.value, x.strict), PatchComponentUnsupported, path);
    }
  }

  method ValidateSemanticField(f: FieldPatch, repeated: bool, surface: Surface, path: string, x: Context, log: IssueLog)
    modifies log
    ensures log.Bag() == old(log.Bag()) + FieldIssues(f, repeated, surface, path, x)
  {
    hide At, When, IssueLog.Bag, MemberPath, ComponentIssues, HidesRequired, ConditionsRequired, ReferenceIssuesWhen;
    log.Check(repeated, PatchFieldRepeated, path);
    if f.field !in x.definitions {
      log.Check(true, PatchFieldUnknown, path);
      return;
    }
    var d := x.definitions[f.field];
    log.Check(surface !in d.surfaces, PatchFieldSurface, path);
    ValidateComponent(f.component, d, surface, path, x, log);
    log.Check(HidesRequired(f, surface, d), RequiredHidden, path);
    log.Check(ConditionsRequired(f, surface, d), RequiredConditional, path);
    ValidateSemanticCondition(f.visibleWhen, MemberPath(path, "visibleWhen"), x.definitions.Keys, log);
  }

  lemma FieldClean(f: FieldPatch, repeated: bool, surface: Surface, path: string, x: Context)
    ensures |FieldIssues(f, repeated, surface, path, x)| == 0 <==> !repeated && GoodField(f, surface, x)
  {
    hide At, When, MemberPath, SupportsComponent, ReferenceIssuesWhen, KnownWhen;
    WhenCount(repeated, PatchFieldRepeated, path);
    WhenCount(true, PatchFieldUnknown, path);
    if f.field in x.definitions {
      var d := x.definitions[f.field];
      WhenCount(surface !in d.surfaces, PatchFieldSurface, path);
      if f.component.Some? {
        var component := f.component.value;
        WhenCount(component !in x.components, PatchComponentUnknown, path);
        WhenCount(component in x.components && !SupportsComponent(d, surface, component, x.strict), PatchComponentUnsupported, path);
      }
      WhenCount(HidesRequired(f, surface, d), RequiredHidden, path);
      WhenCount(ConditionsRequired(f, surface, d), RequiredConditional, path);
      ReferenceWhenClean(f.visibleWhen, MemberPath(path, "visibleWhen"), x.definitions.Keys);
    }
  }

  // ----- the fields of a surface

  function FieldNames(fields: seq<FieldPatch>): (names: seq<string>)
    ensures |names| == |fields| && forall i :: 0 <= i < |fields| ==> names[i] == fields[i].field
  {
    seq(|fields|, i requires 0 <= i < |fields| => fields[i].field)
  }

  predicate FieldRepeats(fields: seq<FieldPatch>, i: nat)
    requires i < |fields|
  {
    FieldNames(fields)[i] in NamesBefore(FieldNames(fields), i)
  }

  function FieldPart(fields: seq<FieldPatch>, surface: Surface, path: string, x: Context): Part<nat> {
    (i: nat) => if i >= |fields| then multiset{} else FieldIssues(fields[i], FieldRepeats(fields, i), surface, ItemPath(path, i), x)
  }

  function FieldsIssues(fields: Option<seq<FieldPatch>>, surface: Surface, path: string, x: Context): multiset<Issue> {
    if fields == None then multiset{} else Upto(|fields.value|, FieldPart(fields.value, surface, path, x))
  }

  method ValidateSemanticFields(fields: seq<FieldPatch>, surface: Surface, path: string, x: Context, log: IssueLog)
    modifies log
    ensures log.Bag() == old(log.Bag()) + FieldsIssues(Some(fields), surface, path, x)
  {
    hide At, IssueLog.Bag, ItemPath, NamesBefore, FieldIssues, Upto;
    ghost var part := FieldPart(fields, surface, path, x);
    UptoNext(0, part);
    ghost var before := log.Bag();
    var seen: set<string> := {};
    NamesFirst(FieldNames(fields));
    for index := 0 to |fields|
      invariant seen == NamesBefore(FieldNames(fields), index)
      invariant log.Bag() == before + Upto(index, part)
    {
      UptoNext(index, part);
      ValidateSemanticField(fields[index], fields[index].field in seen, surface, ItemPath(path, index), x, log);
      NamesNext(FieldNames(fields), index);
      seen := seen + {fields[index].field};
    }
  }

  method ValidateFieldsWhen(fields: Option<seq<FieldPatch>>, surface: Surface, path: string, x: Context, log: IssueLog)
    modifies log
    ensures log.Bag() == old(log.Bag()) + FieldsIssues(fields, surface, path, x)
  {
    hide At, IssueLog.Bag, FieldPart, Upto;
    if fields.Some? {
      ValidateSemanticFields(fields.value, surface, path, x, log);
    }
  }

  lemma FieldsClean(fields: Option<seq<FieldPatch>>, surface: Surface, path: string, x: Context)
    ensures |FieldsIssues(fields, surface, path, x)| == 0 <==> GoodFieldsWhen(fields, surface, x)
  {
    hide At, ItemPath, NamesBefore, FieldIssues, GoodField;
    if fields.Some? {
      var list := fields.value;
      UptoClean(|list|, FieldPart(list, surface, path, x));
      NamesDistinct(FieldNames(list));
      forall i | 0 <= i < |list|
        ensures |FieldPart(list, surface, path, x)(i)| == 0 <==> !FieldRepeats(list, i) && GoodField(list[i], surface, x)
      {
        FieldClean(list[i], FieldRepeats(list, i), surface, ItemPath(path, i), x);
      }
    }
  }

  // ----- the actions

  predicate NotPlaceable(a: ActionPatch, x: Context) {
    a.action in x.placements && a.placement.Some? && a.placement.value !in x.placements[a.action].placements
  }

  function ActionIssues(a: ActionPatch, repeated: bool, path: string, x: Context): multiset<Issue> {
    When(repeated, PatchActionRepeated, path)
    + When(a.action !in x.placements, PatchActionUnknown, path)
    + When(NotPlaceable(a, x), PatchActionPlacement, path)
    + ReferenceIssuesWhen(a.visibleWhen, MemberPath(path, "visibleWhen"), x.definitions.Keys)
  }

  method ValidateSemanticAction(a: ActionPatch, repeated: bool, path: string, x: Context, log: IssueLog)
    modifies log
    ensures log.Bag() == old(log.Bag()) + ActionIssues(a, repeated, path, x)
  {
    hide At, When, IssueLog.Bag, MemberPath, NotPlaceable, ReferenceIssuesWhen;
    log.Check(repeated, PatchActionRepeated, path);
    log.Check(a.action !in x.placements, PatchActionUnknown, path);
    log.Check(NotPlaceable(a, x), PatchActionPlacement, path);
    ValidateSemanticCondition(a.visibleWhen, MemberPath(path, "visibleWhen"), x.definitions.Keys, log);
  }

  lemma ActionClean(a: ActionPatch, repeated: bool, path: string, x: Context)
    ensures |ActionIssues(a, repeated, path, x)| == 0 <==> !repeated && GoodAction(a, x)
  {
    hide At, When, MemberPath, ReferenceIssuesWhen, KnownWhen;
    WhenCount(repeated, PatchActionRepeated, path);
    WhenCount(a.action !in x.placements, PatchActionUnknown, path);
    WhenCount(NotPlaceable(a, x), PatchActionPlacement, path);
    ReferenceWhenClean(a.visibleWhen, MemberPath(path, "visibleWhen"), x.definitions.Keys);
  }

  function ActionNames(actions: seq<ActionPatch>): (names: seq<string>)
    ensures |names| == |actions| && forall i :: 0 <= i < |actions| ==> names[i] == actions[i].action
  {
    seq(|actions|, i requires 0 <= i < |actions| => actions[i].action)
  }

  predicate ActionRepeats(actions: seq<ActionPatch>, i: nat)
    requires i < |actions|
  {
    ActionNames(actions)[i] in NamesBefore(ActionNames(actions), i)
  }

  const ACTIONS := "spec.actions"

  function ActionPart(actions: seq<ActionPatch>, x: Context): Part<nat> {
    (i: nat) => if i >= |actions| then multiset{} else ActionIssues(actions[i], ActionRepeats(actions, i), ItemPath(ACTIONS, i), x)
  }

  function ActionsIssues(actions: Option<seq<ActionPatch>>, x: Context): multiset<Issue> {
    if actions == None then multiset{} else Upto(|actions.value|, ActionPart(actions.value, x))
  }

  method ValidateSemanticActions(actions: seq<ActionPatch>, x: Context, log: IssueLog)
    modifies log
    ensures log.Bag() == old(log.Bag()) + ActionsIssues(Some(actions), x)
  {
    hide At, IssueLog.Bag, ItemPath, NamesBefore, ActionIssues, Upto, ACTIONS;
    ghost var part := ActionPart(actions, x);
    UptoNext(0, part);
    ghost var before := log.Bag();
    var seen: set<string> := {};
    NamesFirst(ActionNames(actions));
    for index := 0 to |actions|
      invariant seen == NamesBefore(ActionNames(actions), index)
      invariant log.Bag() == before + Upto(index, part)
    {
      UptoNext(index, part);
      ValidateSemanticAction(actions[index], actions[index].action in seen, ItemPath(ACTIONS, index), x, log);
      NamesNext(ActionNames(actions), index);
      seen := seen + {actions[index].action};
    }
  }

  method ValidateActionsWhen(actions: Option<seq<ActionPatch>>, x: Context, log: IssueLog)
    modifies log
    ensures log.Bag() == old(log.Bag()) + ActionsIssues(actions, x)
  {
    hide At, IssueLog.Bag, ActionPart, Upto;
    if actions.Some? {
      ValidateSemanticActions(actions.value, x, log);
    }
  }

  lemma ActionsClean(actions: Option<seq<ActionPatch>>, x: Context)
    ensures |ActionsIssues(actions, x)| == 0 <==> (actions.Some? ==> GoodActions(actions.value, x))
  {
    hide At, ItemPath, NamesBefore, ActionIssues, GoodAction, ACTIONS;
    if actions.Some? {
      var list := actions.value;
      UptoClean(|list|, ActionPart(list, x));
      NamesDistinct(ActionNames(list));
      forall i | 0 <= i < |list| ensures |ActionPart(list, x)(i)| == 0 <==> !ActionRepeats(list, i) && GoodAction(list[i], x) {
        ActionClean(list[i], ActionRepeats(list, i), ItemPath(ACTIONS, i), x);
      }
    }
  }

  // ----- the list

  predicate TooManySortFields(sorts: Option<seq<Sort>>, source: Option<DataSource>, x: Context) {
    x.strict && source.Some? && sorts.Some? && |sorts.value| > source.value.maxSortFields
  }

  function SortsIssues(sorts: Option<seq<Sort>>, path: string, x: Context): multiset<Issue> {
    if sorts == None then multiset{} else SortableIssues(sorts.value, path, x)
  }

  function PageIssues(pageSize: Option<int>, source: Option<DataSource>, path: string, x: Context): multiset<Issue> {
    if x.strict && pageSize.Some? && source.Some? then PageSizeIssues(pageSize.value, source.value, path) else multiset{}
  }

  function ListIssues(list: Option<ListPatch>, source: Option<DataSource>, x: Context): multiset<Issue> {
    if list == None then multiset{}
    else
      FieldsIssues(list.value.columns, LIST, "spec.list.columns", x)
      + SortsIssues(list.value.defaultSort, "spec.list.defaultSort", x)
      + When(TooManySortFields(list.value.defaultSort, source, x), Findings.SortFields, "spec.list.defaultSort")
      + PageIssues(list.value.pageSize, source, "spec.list.pageSize", x)
  }

  method ValidateList(list: Option<ListPatch>, source: Option<DataSource>, x: Context, log: IssueLog)
    modifies log
    ensures log.Bag() == old(log.Bag()) + ListIssues(list, source, x)
  {
    hide At, When, IssueLog.Bag, FieldsIssues, SortableIssues, TooManySortFields, PageSizeIssues, LIST;
    if list == None {
      return;
    }
    ValidateFieldsWhen(list.value.columns, LIST, "spec.list.columns", x, log);
    if list.value.defaultSort.Some? {
      ValidateSemanticSort(list.value.defaultSort.value, "spec.list.defaultSort", x, log);
    }
    log.Check(TooManySortFields(list.value.defaultSort, source, x), Findings.SortFields, "spec.list.defaultSort");
    if x.strict && list.value.pageSize.Some? && source.Some? {
      ValidateCapabilityPageSize(list.value.pageSize.value, source.value, "spec.list.pageSize", log);
    }
  }

  lemma ListClean(list: Option<ListPatch>, source: Option<DataSource>, x: Context)
    ensures |ListIssues(list, source, x)| == 0 <==> (list.Some? ==> GoodList(list.value, source, x))
  {
    hide At, When, FieldsIssues, SortableIssues, PageSizeIssues, GoodFieldsWhen, Sortable, PageSizeAllowed, LIST;
    if list.Some? {
      var l := list.value;
      FieldsClean(l.columns, LIST, "spec.list.columns", x);
      if l.defaultSort.Some? { SortableClean(l.defaultSort.value, "spec.list.defaultSort", x); }
      WhenCount(TooManySortFields(l.defaultSort, source, x), Findings.SortFields, "spec.list.defaultSort");
      if l.pageSize.Some? && source.Some? { PageSizeClean(l.pageSize.value, source.value, "spec.list.pageSize"); }
    }
  }

  // ----- the spec

  predicate UnknownSource(c: Capability, dataSource: Option<string>) {
    dataSource.Some? && FindDataSource(c.dataSources, dataSource.value) == None
  }

  function SearchFields(search: Option<SearchPatch>): Option<seq<FieldPatch>> {
    if search == None then None else search.value.fields
  }

  function LayoutFields(layout: Option<LayoutPatch>): Option<seq<FieldPatch>> {
    if layout == None then None else layout.value.fields
  }

  function SpecIssues(c: Capability, spec: ProfileSpec): multiset<Issue> {
    var x := ContextOf(c);
    When(UnknownSource(c, spec.dataSource), ProfileDataSource, "spec.dataSource")
    + ListIssues(spec.list, EffectiveSource(c, spec), x)
    + FieldsIssues(SearchFields(spec.search), SEARCH, "spec.search.fields", x)
    + FieldsIssues(LayoutFields(spec.form), FORM, "spec.form.fields", x)
    + FieldsIssues(LayoutFields(spec.detail), DETAIL, "spec.detail.fields", x)
    + ActionsIssues(spec.actions, x)
  }

  method ValidateSpec(c: Capability, spec: ProfileSpec, log: IssueLog)
    modifies log
    ensures log.Bag() == old(log.Bag()) + SpecIssues(c, spec)
  {
    hide At, When, IssueLog.Bag, UnknownSource, ListIssues, EffectiveSource, FieldsIssues, ActionsIssues, ContextOf, SEARCH, FORM, DETAIL;
    var x := BuildContext(c);
    log.Check(UnknownSource(c, spec.dataSource), ProfileDataSource, "spec.dataSource");
    ValidateList(spec.list, EffectiveSource(c, spec), x, log);
    ValidateFieldsWhen(SearchFields(spec.search), SEARCH, "spec.search.fields", x, log);
    ValidateFieldsWhen(LayoutFields(spec.form), FORM, "spec.form.fields", x, log);
    ValidateFieldsWhen(LayoutFields(spec.detail), DETAIL, "spec.detail.fields", x, log);
    ValidateActionsWhen(spec.actions, x, log);
  }

  lemma SpecClean(c: Capability, spec: ProfileSpec)
    ensures |SpecIssues(c, spec)| == 0 <==> GoodSpec(c, spec)
  {
    hide At, When, ListIssues, EffectiveSource, FieldsIssues, ActionsIssues, ContextOf, GoodList, GoodFields, GoodActions, FindDataSource, SEARCH, FORM, DETAIL;
    var x := ContextOf(c);
    WhenCount(UnknownSource(c, spec.dataSource), ProfileDataSource, "spec.dataSource");
    ListClean(spec.list, EffectiveSource(c, spec), x);
    FieldsClean(SearchFields(spec.search), SEARCH, "spec.search.fields", x);
    FieldsClean(LayoutFields(spec.form), FORM, "spec.form.fields", x);
    FieldsClean(LayoutFields(spec.detail), DETAIL, "spec.detail.fields", x);
    ActionsClean(spec.actions, x);
  }

  // ----- limited tables

  /** The properties the loop goes through, and whether the patch sets them. */
  function Properties(f: FieldPatch, allowWidth: bool): seq<(string, bool)> {
    [("component", f.component.Some?), ("span", f.span.Some?), ("placeholder", f.placeholder.Some?), ("help", f.help.Some?),
     ("width", !allowWidth && f.width.Some?)]
  }

  function PropertyPart(properties: seq<(string, bool)>, path: string): Part<nat> {
    (i: nat) => if i >= |properties| then multiset{} else When(properties[i].1, LimitedSurface, MemberPath(path, properties[i].0))
  }

  function PatchIssues(f: FieldPatch, allowWidth: bool, path: string): multiset<Issue> {
    Upto(|Properties(f, allowWidth)|, PropertyPart(Properties(f, allowWidth), path))
    + When(f.visibleWhen.Some?, LimitedSurface, MemberPath(path, "visibleWhen"))
  }

  method ValidateLimitedFieldPatch(f: FieldPatch, allowWidth: bool, path: string, log: IssueLog)
    modifies log
    ensures log.Bag() == old(log.Bag()) + PatchIssues(f, allowWidth, path)
  {
    hide At, When, IssueLog.Bag, MemberPath, Properties, Upto;
    var properties := Properties(f, allowWidth);
    ghost var part := PropertyPart(properties, path);
    UptoNext(0, part);
    ghost var before := log.Bag();
    for i := 0 to |properties|
      invariant log.Bag() == before + Upto(i, part)
    {
      UptoNext(i, part);
      log.Check(properties[i].1, LimitedSurface, MemberPath(path, properties[i].0));
    }
    log.Check(f.visibleWhen.Some?, LimitedSurface, MemberPath(path, "visibleWhen"));
  }

  lemma PatchClean(f: FieldPatch, allowWidth: bool, path: string)
    ensures |PatchIssues(f, allowWidth, path)| == 0 <==> PlainPatch(f, allowWidth)
  {
    hide At, When, MemberPath, Properties;
    var properties := Properties(f, allowWidth);
    UptoClean(|properties|, PropertyPart(properties, path));
    forall i | 0 <= i < |properties| ensures |PropertyPart(properties, path)(i)| == 0 <==> !properties[i].1 {
      WhenCount(properties[i].1, LimitedSurface, MemberPath(path, properties[i].0));
    }
    WhenCount(f.visibleWhen.Some?, LimitedSurface, MemberPath(path, "visibleWhen"));
    PropertiesPlain(f, allowWidth);
  }

  lemma PropertiesPlain(f: FieldPatch, allowWidth: bool)
    ensures var properties := Properties(f, allowWidth);
            PlainPatch(f, allowWidth) <==> f.visibleWhen == None && forall i :: 0 <= i < |properties| ==> !properties[i].1
  {
    var properties := Properties(f, allowWidth);
    assert (forall i :: 0 <= i < |properties| ==> !properties[i].1)
      <==> !properties[0].1 && !properties[1].1 && !properties[2].1 && !properties[3].1 && !properties[4].1;
  }

  function PatchPart(fields: seq<FieldPatch>, allowWidth: bool, path: string): Part<nat> {
    (i: nat) => if i >= |fields| then multiset{} else PatchIssues(fields[i], allowWidth, ItemPath(path, i))
  }

  function PatchesIssues(fields: Option<seq<FieldPatch>>, allowWidth: bool, path: string): multiset<Issue> {
    if fields == None then multiset{} else Upto(|fields.value|, PatchPart(fields.value, allowWidth, path))
  }

  method ValidateLimitedFieldPatches(fields: Option<seq<FieldPatch>>, path: string, allowWidth: bool, log: IssueLog)
    modifies log
    ensures log.Bag() == old(log.Bag()) + PatchesIssues(fields, allowWidth, path)
  {
    hide At, IssueLog.Bag, ItemPath, PatchIssues, Upto;
    if fields == None {
      return;
    }
    ghost var part := PatchPart(fields.value, allowWidth, path);
    UptoNext(0, part);
    ghost var before := log.Bag();
    for index := 0 to |fields.value|
      invariant log.Bag() == before + Upto(index, part)
    {
      UptoNext(index, part);
      ValidateLimitedFieldPatch(fields.value[index], allowWidth, ItemPath(path, index), log);
    }
  }

  lemma PatchesClean(fields: Option<seq<FieldPatch>>, allowWidth: bool, path: string)
    ensures |PatchesIssues(fields, allowWidth, path)| == 0 <==> PlainPatches(fields, allowWidth)
  {
    hide At, ItemPath, PatchIssues, PlainPatch;
    if fields.Some? {
      UptoClean(|fields.value|, PatchPart(fields.value, allowWidth, path));
      forall i | 0 <= i < |fields.value|
        ensures |PatchPart(fields.value, allowWidth, path)(i)| == 0 <==> PlainPatch(fields.value[i], allowWidth)
      {
        PatchClean(fields.value[i], allowWidth, ItemPath(path, i));
      }
    }
  }

  function LimitedListIssues(list: Option<ListPatch>): multiset<Issue> {
    if list == None then multiset{}
    else
      When(list.value.defaultSort.Some?, LimitedSurface, "spec.list.defaultSort")
      + PatchesIssues(list.value.columns, true, "spec.list.columns")
  }

  function LimitedIssues(spec: ProfileSpec): multiset<Issue> {
    When(spec.dataSource.Some?, LimitedSurface, "spec.dataSource")
    + When(spec.form.Some?, LimitedSurface, "spec.form")
    + When(spec.detail.Some?, LimitedSurface, "spec.detail")
    + When(spec.actions.Some?, LimitedSurface, "spec.actions")
    + LimitedListIssues(spec.list)
    + PatchesIssues(SearchFields(spec.search), false, "spec.search.fields")
  }

  method ValidateLimitedList(list: Option<ListPatch>, log: IssueLog)
    modifies log
    ensures log.Bag() == old(log.Bag()) + LimitedListIssues(list)
  {
    hide At, When, IssueLog.Bag, PatchesIssues;
    if list.Some? {
      log.Check(list.value.defaultSort.Some?, LimitedSurface, "spec.list.defaultSort");
      ValidateLimitedFieldPatches(list.value.columns, "spec.list.columns", true, log);
    }
  }

  method ValidateLimitedPresentationProfile(spec: ProfileSpec, log: IssueLog)
    modifies log
    ensures log.Bag() == old(log.Bag()) + LimitedIssues(spec)
  {
    hide At, When, IssueLog.Bag, LimitedListIssues, PatchesIssues;
    log.Check(spec.dataSource.Some?, LimitedSurface, "spec.dataSource");
    log.Check(spec.form.Some?, LimitedSurface, "spec.form");
    log.Check(spec.detail.Some?, LimitedSurface, "spec.detail");
    log.Check(spec.actions.Some?, LimitedSurface, "spec.actions");
    ValidateLimitedList(spec.list, log);
    ValidateLimitedFieldPatches(SearchFields(spec.search), "spec.search.fields", false, log);
  }

  lemma LimitedClean(spec: ProfileSpec)
    ensures |LimitedIssues(spec)| == 0 <==> LimitedSpec(spec)
  {
    hide At, When, PatchesIssues, PlainPatches;
    WhenCount(spec.dataSource.Some?, LimitedSurface, "spec.dataSource");
    WhenCount(spec.form.Some?, LimitedSurface, "spec.form");
    WhenCount(spec.detail.Some?, LimitedSurface, "spec.detail");
    WhenCount(spec.actions.Some?, LimitedSurface, "spec.actions");
    if spec.list.Some? {
      WhenCount(spec.list.value.defaultSort.Some?, LimitedSurface, "spec.list.defaultSort");
      PatchesClean(spec.list.value.columns, true, "spec.list.columns");
    }
    PatchesClean(SearchFields(spec.search), false, "spec.search.fields");
    NoPatches(false);
  }

  lemma NoPatches(allowWidth: bool)
    ensures PlainPatches(None, allowWidth)
  {
  }

  // ----- the whole profile

  function ProfileIssues(c: Capability, p: Profile): multiset<Issue> {
    When(p.metadata.pageKey != c.pageKey, PageKeyMismatch, "metadata.pageKey")
    + When(p.metadata.definitionHash != c.definitionHash, DefinitionDrift, "metadata.definitionHash")
    + (if Limited(c) then LimitedIssues(p.spec) else multiset{})
    + SpecIssues(c, p.spec)
  }

  /** The report on a profile, also for the pointers that are not set. */
  ghost predicate IsReport(c: Option<Capability>, p: Option<Profile>, issues: seq<Issue>) {
    if p == None then issues == [At(ProfileMissing, "$")]
    else if c == None then issues == [At(PageUnknown, "metadata.pageKey")]
    else Ascending(issues) && multiset(issues) == ProfileIssues(c.value, p.value)
  }

  method CollectIssues(c: Capability, p: Profile, log: IssueLog)
    modifies log
    ensures log.Bag() == old(log.Bag()) + ProfileIssues(c, p)
  {
    hide At, When, IssueLog.Bag, LimitedIssues, SpecIssues, Limited;
    log.Check(p.metadata.pageKey != c.pageKey, PageKeyMismatch, "metadata.pageKey");
    log.Check(p.metadata.definitionHash != c.definitionHash, DefinitionDrift, "metadata.definitionHash");
    if Limited(c) {
      ValidateLimitedPresentationProfile(p.spec, log);
    }
    ValidateSpec(c, p.spec, log);
  }

  lemma ProfileClean(c: Capability, p: Profile)
    ensures |ProfileIssues(c, p)| == 0 <==> GoodProfile(c, p)
  {
    hide At, When, LimitedIssues, SpecIssues, Limited, LimitedSpec, GoodSpec;
    WhenCount(p.metadata.pageKey != c.pageKey, PageKeyMismatch, "metadata.pageKey");
    WhenCount(p.metadata.definitionHash != c.definitionHash, DefinitionDrift, "metadata.definitionHash");
    LimitedClean(p.spec);
    SpecClean(c, p.spec);
  }

  /** ValidateProfile: the sorted list of all issues, empty exactly for a profile that is good
      for the capability. */
  method ValidateProfile(c: Option<Capability>, p: Option<Profile>) returns (issues: seq<Issue>)
    ensures IsReport(c, p, issues)
    ensures issues == [] <==> c.Some? && p.Some? && GoodProfile(c.value, p.value)
  {
    hide At, ProfileIssues, GoodProfile, Ascending;
    if p == None {
      return [At(ProfileMissing, "$")];
    }
    if c == None {
      return [At(PageUnknown, "metadata.pageKey")];
    }
    var log := new IssueLog();
    CollectIssues(c.value, p.value, log);
    log.Sort();
    issues := log.issues;
    ProfileClean(c.value, p.value);
    assert |issues| == |multiset(issues)|;
  }

  /** Any two runs of ValidateProfile return the identical list. */
  lemma ReportUnique(c: Option<Capability>, p: Option<Profile>, a: seq<Issue>, b: seq<Issue>)
    requires IsReport(c, p, a) && IsReport(c, p, b)
    ensures a == b
  {
    hide At, ProfileIssues, Ascending;
    if c.Some? && p.Some? {
      ArrangementUnique(a, b);
    }
  }
}
