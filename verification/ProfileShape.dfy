/** The shape of a profile document: what ParseDocument of admin/presentation/validation.go
    reports of a document it could decode. */
module ProfileShape {
  import opened Text
  import opened Canonical
  import opened Findings
  import opened Issues
  import opened Patterns
  import opened Conditions
  import opened PresentationModel

  const API_VERSION := "mss.io/v1alpha1"
  const KIND := "AdminPagePresentation"

  // ----- what a profile has to satisfy

  predicate Within(value: Option<int>, low: int, high: int) {
    value.Some? ==> low <= value.value <= high
  }

  /** The whole application without a subject, or a role or user with one of 1 to 160 characters. */
  predicate GoodScope(scope: Scope) {
    || (scope.kind == "application" && scope.subject == None)
    || ((scope.kind == "role" || scope.kind == "user") && scope.subject.Some? && 1 <= |scope.subject.value| <= 160)
  }

  ghost predicate GoodField(f: FieldPatch, marshal: Encoder) {
    && IsReference(f.field) && (f.component.Some? ==> IsIdentifier(f.component.value))
    && GoodText(f.labelText) && GoodText(f.placeholder) && GoodText(f.help)
    && Within(f.order, 0, 10000) && Within(f.width, 60, 1200) && Within(f.span, 1, 24)
    && WellShapedWhen(f.visibleWhen, marshal)
  }

  ghost predicate GoodFields(fields: Option<seq<FieldPatch>>, marshal: Encoder) {
    fields.Some? ==> |fields.value| <= 100 && forall i :: 0 <= i < |fields.value| ==> GoodField(fields.value[i], marshal)
  }

  ghost predicate GoodAction(a: ActionPatch, marshal: Encoder) {
    && IsIdentifier(a.action) && (a.placement.Some? ==> ValidPlacement(a.placement.value))
    && GoodText(a.labelText) && GoodText(a.confirm)
    && Within(a.order, 0, 10000) && WellShapedWhen(a.visibleWhen, marshal)
  }

  ghost predicate GoodActions(actions: Option<seq<ActionPatch>>, marshal: Encoder) {
    actions.Some? ==> |actions.value| <= 64 && forall i :: 0 <= i < |actions.value| ==> GoodAction(actions.value[i], marshal)
  }

  /** A patch that is given sets something. */
  ghost predicate GoodList(list: Option<ListPatch>, marshal: Encoder) {
    list.Some? ==>
      var l := list.value;
      && l != ListPatch(None, None, None, None)
      && GoodFields(l.columns, marshal) && (l.density.Some? ==> ValidDensity(l.density.value))
      && Within(l.pageSize, 1, 200) && (l.defaultSort.Some? ==> GoodSorts(l.defaultSort.value))
  }

  ghost predicate GoodSearch(search: Option<SearchPatch>, marshal: Encoder) {
    search.Some? ==> search.value != SearchPatch(None, None) && GoodFields(search.value.fields, marshal)
  }

  ghost predicate GoodLayout(layout: Option<LayoutPatch>, marshal: Encoder) {
    layout.Some? ==> layout.value != LayoutPatch(None, None) && GoodFields(layout.value.fields, marshal) && Within(layout.value.columns, 1, 4)
  }

  ghost predicate GoodSpec(s: ProfileSpec, marshal: Encoder) {
    && s != ProfileSpec(None, None, None, None, None, None, None)
    && GoodText(s.title) && (s.dataSource.Some? ==> IsIdentifier(s.dataSource.value))
    && GoodList(s.list, marshal) && GoodSearch(s.search, marshal) && GoodLayout(s.form, marshal) && GoodLayout(s.detail, marshal)
    && GoodActions(s.actions, marshal)
  }

  ghost predicate GoodProfile(p: Profile, marshal: Encoder) {
    && p.apiVersion == API_VERSION && p.kind == KIND
    && IsIdentifier(p.metadata.name) && IsIdentifier(p.metadata.pageKey) && MatchesHash(p.metadata.definitionHash)
    && (p.metadata.description.Some? ==> |p.metadata.description.value| <= 500)
    && GoodScope(p.metadata.scope) && GoodSpec(p.spec, marshal)
  }

  // ----- scope

  function SubjectIssues(subject: string): multiset<Issue> {
    When(|subject| < 1 || |subject| > 160, ScopeSubjectInvalid, "metadata.scope.subject")
  }

  function ScopeIssues(scope: Scope): multiset<Issue> {
    if scope.kind == "application" then When(scope.subject.Some?, ScopeSubjectUnexpected, "metadata.scope.subject")
    else if scope.kind == "role" then
      if scope.subject == None then When(true, ScopeSubjectMissing, "metadata.scope.subject") else SubjectIssues(scope.subject.value)
    else if scope.kind == "user" then
      if scope.subject == None then When(true, ScopeSubjectInvalid, "metadata.scope.subject") else SubjectIssues(scope.subject.value)
    else When(true, Findings.ScopeKind, "metadata.scope.kind")
  }

  method ValidateScope(scope: Scope, log: IssueLog)
    modifies log
    ensures log.Bag() == old(log.Bag()) + ScopeIssues(scope)
  {
    hide At, When, IssueLog.Bag;
    if scope.kind == "application" {
      log.Check(scope.subject.Some?, ScopeSubjectUnexpected, "metadata.scope.subject");
    } else if scope.kind == "role" {
      if scope.subject == None {
        log.Check(true, ScopeSubjectMissing, "metadata.scope.subject");
      } else {
        ValidateOpaqueScopeSubject(scope.subject.value, log);
      }
    } else if scope.kind == "user" {
      if scope.subject == None {
        log.Check(true, ScopeSubjectInvalid, "metadata.scope.subject");
      } else {
        ValidateOpaqueScopeSubject(scope.subject.value, log);
      }
    } else {
      log.Check(true, Findings.ScopeKind, "metadata.scope.kind");
    }
  }

  method ValidateOpaqueScopeSubject(subject: string, log: IssueLog)
    modifies log
    ensures log.Bag() == old(log.Bag()) + SubjectIssues(subject)
  {
    hide At, When, IssueLog.Bag;
    log.Check(|subject| < 1 || |subject| > 160, ScopeSubjectInvalid, "metadata.scope.subject");
  }

  lemma ScopeClean(scope: Scope)
    ensures |ScopeIssues(scope)| == 0 <==> GoodScope(scope)
  {
    hide At, When;
    var path := "metadata.scope.subject";
    WhenCount(scope.subject.Some?, ScopeSubjectUnexpected, path);
    WhenCount(true, ScopeSubjectMissing, path);
    WhenCount(true, ScopeSubjectInvalid, path);
    WhenCount(true, Findings.ScopeKind, "metadata.scope.kind");
    if scope.subject.Some? {
      WhenCount(|scope.subject.value| < 1 || |scope.subject.value| > 160, ScopeSubjectInvalid, path);
    }
    assert scope.kind == "application" ==> scope.kind != "role" && scope.kind != "user";
    assert scope.kind == "role" ==> scope.kind != "user";
  }

  // ----- fields and actions

  predicate BadIdentifier(value: Option<string>) {
    value.Some? && !IsIdentifier(value.value)
  }

  ghost function FieldIssues(f: FieldPatch, path: string, marshal: Encoder): multiset<Issue> {
    When(!IsReference(f.field), ReferenceInvalid, path)
    + TextIssues(f.labelText, MemberPath(path, "label"))
    + TextIssues(f.placeholder, MemberPath(path, "placeholder"))
    + TextIssues(f.help, MemberPath(path, "help"))
    + When(BadIdentifier(f.component), IdentifierInvalid, MemberPath(path, "component"))
    + When(OutOf(f.order, 0, 10000), PatchOrder, path)
    + When(OutOf(f.width, 60, 1200), PatchWidth, path)
    + When(OutOf(f.span, 1, 24), PatchSpan, path)
    + ShapeIssuesWhen(f.visibleWhen, MemberPath(path, "visibleWhen"), marshal)
  }

  method ValidateFieldPatch(f: FieldPatch, path: string, marshal: Encoder, log: IssueLog)
    modifies log
    ensures log.Bag() == old(log.Bag()) + FieldIssues(f, path, marshal)
  {
    hide At, When, IssueLog.Bag, MemberPath, IsReference, BadIdentifier, OutOf, TextIssues, ShapeIssues;
    log.Check(!IsReference(f.field), ReferenceInvalid, path);
    ValidateLocalizedText(f.labelText, MemberPath(path, "label"), log);
    ValidateLocalizedText(f.placeholder, MemberPath(path, "placeholder"), log);
    ValidateLocalizedText(f.help, MemberPath(path, "help"), log);
    log.Check(BadIdentifier(f.component), IdentifierInvalid, MemberPath(path, "component"));
    log.Check(OutOf(f.order, 0, 10000), PatchOrder, path);
    log.Check(OutOf(f.width, 60, 1200), PatchWidth, path);
    log.Check(OutOf(f.span, 1, 24), PatchSpan, path);
    ValidateConditionShape(f.visibleWhen, MemberPath(path, "visibleWhen"), log, 0, marshal);
  }

  lemma FieldClean(f: FieldPatch, path: string, marshal: Encoder)
    ensures |FieldIssues(f, path, marshal)| == 0 <==> GoodField(f, marshal)
  {
    hide At, When, MemberPath, IsReference, IsIdentifier, TextIssues, ShapeIssuesWhen, GoodText, WellShapedWhen;
    WhenCount(!IsReference(f.field), ReferenceInvalid, path);
    TextClean(f.labelText, MemberPath(path, "label"));
    TextClean(f.placeholder, MemberPath(path, "placeholder"));
    TextClean(f.help, MemberPath(path, "help"));
    WhenCount(BadIdentifier(f.component), IdentifierInvalid, MemberPath(path, "component"));
    WhenCount(OutOf(f.order, 0, 10000), PatchOrder, path);
    WhenCount(OutOf(f.width, 60, 1200), PatchWidth, path);
    WhenCount(OutOf(f.span, 1, 24), PatchSpan, path);
    ShapeWhenClean(f.visibleWhen, MemberPath(path, "visibleWhen"), marshal);
  }

  ghost function FieldPart(fields: seq<FieldPatch>, path: string, marshal: Encoder): Part<nat> {
    (i: nat) => if i >= |fields| then multiset{} else FieldIssues(fields[i], ItemPath(path, i), marshal)
  }

  ghost function FieldsIssues(fields: Option<seq<FieldPatch>>, path: string, marshal: Encoder): multiset<Issue> {
    if fields == None then multiset{}
    else When(|fields.value| > 100, TooManyFields, path) + Upto(|fields.value|, FieldPart(fields.value, path, marshal))
  }

  method ValidateFieldPatches(fields: Option<seq<FieldPatch>>, path: string, marshal: Encoder, log: IssueLog)
    modifies log
    ensures log.Bag() == old(log.Bag()) + FieldsIssues(fields, path, marshal)
  {
    hide At, When, IssueLog.Bag, ItemPath, FieldIssues, Upto;
    if fields == None {
      return;
    }
    UptoNext(0, FieldPart(fields.value, path, marshal));
    log.Check(|fields.value| > 100, TooManyFields, path);
    ghost var before := log.Bag();
    for index := 0 to |fields.value|
      invariant log.Bag() == before + Upto(index, FieldPart(fields.value, path, marshal))
    {
      UptoNext(index, FieldPart(fields.value, path, marshal));
      ValidateFieldPatch(fields.value[index], ItemPath(path, index), marshal, log);
    }
  }

  lemma FieldsClean(fields: Option<seq<FieldPatch>>, path: string, marshal: Encoder)
    ensures |FieldsIssues(fields, path, marshal)| == 0 <==> GoodFields(fields, marshal)
  {
    hide At, When, ItemPath, FieldIssues, GoodField, Upto;
    if fields.Some? {
      var part := FieldPart(fields.value, path, marshal);
      WhenCount(|fields.value| > 100, TooManyFields, path);
      UptoClean(|fields.value|, part);
      forall i | 0 <= i < |fields.value| ensures |part(i)| == 0 <==> GoodField(fields.value[i], marshal) {
        FieldClean(fields.value[i], ItemPath(path, i), marshal);
      }
    }
  }

  ghost function ActionIssues(a: ActionPatch, path: string, marshal: Encoder): multiset<Issue> {
    When(!IsIdentifier(a.action), IdentifierInvalid, MemberPath(path, "action"))
    + TextIssues(a.labelText, MemberPath(path, "label"))
    + TextIssues(a.confirm, MemberPath(path, "confirm"))
    + When(a.placement.Some? && !ValidPlacement(a.placement.value), PatchPlacement, path)
    + When(OutOf(a.order, 0, 10000), PatchActionOrder, path)
    + ShapeIssuesWhen(a.visibleWhen, MemberPath(path, "visibleWhen"), marshal)
  }

  method ValidateActionPatch(a: ActionPatch, path: string, marshal: Encoder, log: IssueLog)
    modifies log
    ensures log.Bag() == old(log.Bag()) + ActionIssues(a, path, marshal)
  {
    hide At, When, IssueLog.Bag, MemberPath, IsIdentifier, ValidPlacement, OutOf, TextIssues, ShapeIssues;
    log.Check(!IsIdentifier(a.action), IdentifierInvalid, MemberPath(path, "action"));
    ValidateLocalizedText(a.labelText, MemberPath(path, "label"), log);
    ValidateLocalizedText(a.confirm, MemberPath(path, "confirm"), log);
    log.Check(a.placement.Some? && !ValidPlacement(a.placement.value), PatchPlacement, path);
    log.Check(OutOf(a.order, 0, 10000), PatchActionOrder, path);
    ValidateConditionShape(a.visibleWhen, MemberPath(path, "visibleWhen"), log, 0, marshal);
  }

  lemma ActionClean(a: ActionPatch, path: string, marshal: Encoder)
    ensures |ActionIssues(a, path, marshal)| == 0 <==> GoodAction(a, marshal)
  {
    hide At, When, MemberPath, IsIdentifier, ValidPlacement, TextIssues, ShapeIssuesWhen, GoodText, WellShapedWhen;
    WhenCount(!IsIdentifier(a.action), IdentifierInvalid, MemberPath(path, "action"));
    TextClean(a.labelText, MemberPath(path, "label"));
    TextClean(a.confirm, MemberPath(path, "confirm"));
    WhenCount(a.placement.Some? && !ValidPlacement(a.placement.value), PatchPlacement, path);
    WhenCount(OutOf(a.order, 0, 10000), PatchActionOrder, path);
    ShapeWhenClean(a.visibleWhen, MemberPath(path, "visibleWhen"), marshal);
  }

  ghost function ActionPart(actions: seq<ActionPatch>, marshal: Encoder): Part<nat> {
    (i: nat) => if i >= |actions| then multiset{} else ActionIssues(actions[i], ItemPath("spec.actions", i), marshal)
  }

  ghost function ActionsIssues(actions: Option<seq<ActionPatch>>, marshal: Encoder): multiset<Issue> {
    if actions == None then multiset{}
    else When(|actions.value| > 64, TooManyActions, "spec.actions") + Upto(|actions.value|, ActionPart(actions.value, marshal))
  }

  method ValidateActionPatches(actions: Option<seq<ActionPatch>>, marshal: Encoder, log: IssueLog)
    modifies log
    ensures log.Bag() == old(log.Bag()) + ActionsIssues(actions, marshal)
  {
    hide At, When, IssueLog.Bag, ItemPath, ActionIssues, Upto;
    if actions == None {
      return;
    }
    UptoNext(0, ActionPart(actions.value, marshal));
    log.Check(|actions.value| > 64, TooManyActions, "spec.actions");
    ghost var before := log.Bag();
    for index := 0 to |actions.value|
      invariant log.Bag() == before + Upto(index, ActionPart(actions.value, marshal))
    {
      UptoNext(index, ActionPart(actions.value, marshal));
      ValidateActionPatch(actions.value[index], ItemPath("spec.actions", index), marshal, log);
    }
  }

  lemma ActionsClean(actions: Option<seq<ActionPatch>>, marshal: Encoder)
    ensures |ActionsIssues(actions, marshal)| == 0 <==> GoodActions(actions, marshal)
  {
    hide At, When, ItemPath, ActionIssues, GoodAction, Upto;
    if actions.Some? {
      var part := ActionPart(actions.value, marshal);
      WhenCount(|actions.value| > 64, TooManyActions, "spec.actions");
      UptoClean(|actions.value|, part);
      forall i | 0 <= i < |actions.value| ensures |part(i)| == 0 <==> GoodAction(actions.value[i], marshal) {
        ActionClean(actions.value[i], ItemPath("spec.actions", i), marshal);
      }
    }
  }

  // ----- the spec

  ghost function ListIssues(list: Option<ListPatch>, path: string, marshal: Encoder): multiset<Issue> {
    if list == None then multiset{}
    else
      var l := list.value;
      When(l.columns == None && l.density == None && l.pageSize == None && l.defaultSort == None, ListEmpty, path)
      + FieldsIssues(l.columns, MemberPath(path, "columns"), marshal)
      + When(l.density.Some? && !ValidDensity(l.density.value), PatchDensity, path)
      + When(OutOf(l.pageSize, 1, 200), PatchPageSize, path)
      + if l.defaultSort == None then multiset{} else SortIssues(l.defaultSort.value, MemberPath(path, "defaultSort"))
  }

  method ValidateListPatch(list: Option<ListPatch>, path: string, marshal: Encoder, log: IssueLog)
    modifies log
    ensures log.Bag() == old(log.Bag()) + ListIssues(list, path, marshal)
  {
    hide At, When, IssueLog.Bag, MemberPath, FieldsIssues, ValidDensity, OutOf, SortIssues;
    if list == None {
      return;
    }
    var l := list.value;
    log.Check(l.columns == None && l.density == None && l.pageSize == None && l.defaultSort == None, ListEmpty, path);
    ValidateFieldPatches(l.columns, MemberPath(path, "columns"), marshal, log);
    log.Check(l.density.Some? && !ValidDensity(l.density.value), PatchDensity, path);
    log.Check(OutOf(l.pageSize, 1, 200), PatchPageSize, path);
    if l.defaultSort.Some? {
      ValidateSorts(l.defaultSort.value, MemberPath(path, "defaultSort"), log);
    }
  }

  lemma ListClean(list: Option<ListPatch>, path: string, marshal: Encoder)
    ensures |ListIssues(list, path, marshal)| == 0 <==> GoodList(list, marshal)
  {
    hide At, When, MemberPath, FieldsIssues, GoodFields, ValidDensity, SortIssues, GoodSorts;
    if list.Some? {
      var l := list.value;
      WhenCount(l.columns == None && l.density == None && l.pageSize == None && l.defaultSort == None, ListEmpty, path);
      FieldsClean(l.columns, MemberPath(path, "columns"), marshal);
      WhenCount(l.density.Some? && !ValidDensity(l.density.value), PatchDensity, path);
      WhenCount(OutOf(l.pageSize, 1, 200), PatchPageSize, path);
      if l.defaultSort.Some? { SortsClean(l.defaultSort.value, MemberPath(path, "defaultSort")); }
    }
  }

  ghost function SearchIssues(search: Option<SearchPatch>, path: string, marshal: Encoder): multiset<Issue> {
    if search == None then multiset{}
    else
      When(search.value.fields == None && search.value.collapsedByDefault == None, SearchEmpty, path)
      + FieldsIssues(search.value.fields, MemberPath(path, "fields"), marshal)
  }

  method ValidateSearchPatch(search: Option<SearchPatch>, path: string, marshal: Encoder, log: IssueLog)
    modifies log
    ensures log.Bag() == old(log.Bag()) + SearchIssues(search, path, marshal)
  {
    hide At, When, IssueLog.Bag, MemberPath, FieldsIssues;
    if search.Some? {
      log.Check(search.value.fields == None && search.value.collapsedByDefault == None, SearchEmpty, path);
      ValidateFieldPatches(search.value.fields, MemberPath(path, "fields"), marshal, log);
    }
  }

  lemma SearchClean(search: Option<SearchPatch>, path: string, marshal: Encoder)
    ensures |SearchIssues(search, path, marshal)| == 0 <==> GoodSearch(search, marshal)
  {
    hide At, When, MemberPath, FieldsIssues, GoodFields;
    if search.Some? {
      WhenCount(search.value.fields == None && search.value.collapsedByDefault == None, SearchEmpty, path);
      FieldsClean(search.value.fields, MemberPath(path, "fields"), marshal);
    }
  }

  ghost function LayoutIssues(layout: Option<LayoutPatch>, path: string, marshal: Encoder): multiset<Issue> {
    if layout == None then multiset{}
    else
      When(layout.value.fields == None && layout.value.columns == None, LayoutEmpty, path)
      + FieldsIssues(layout.value.fields, MemberPath(path, "fields"), marshal)
      + When(OutOf(layout.value.columns, 1, 4), PatchColumns, path)
  }

  /** validateFormLike, for the form and for the detail page. */
  method ValidateFormLike(layout: Option<LayoutPatch>, path: string, marshal: Encoder, log: IssueLog)
    modifies log
    ensures log.Bag() == old(log.Bag()) + LayoutIssues(layout, path, marshal)
  {
    hide At, When, IssueLog.Bag, MemberPath, FieldsIssues, OutOf;
    if layout.Some? {
      log.Check(layout.value.fields == None && layout.value.columns == None, LayoutEmpty, path);
      ValidateFieldPatches(layout.value.fields, MemberPath(path, "fields"), marshal, log);
      log.Check(OutOf(layout.value.columns, 1, 4), PatchColumns, path);
    }
  }

  lemma LayoutClean(layout: Option<LayoutPatch>, path: string, marshal: Encoder)
    ensures |LayoutIssues(layout, path, marshal)| == 0 <==> GoodLayout(layout, marshal)
  {
    hide At, When, MemberPath, FieldsIssues, GoodFields;
    if layout.Some? {
      WhenCount(layout.value.fields == None && layout.value.columns == None, LayoutEmpty, path);
      FieldsClean(layout.value.fields, MemberPath(path, "fields"), marshal);
      WhenCount(OutOf(layout.value.columns, 1, 4), PatchColumns, path);
    }
  }

  predicate EmptySpec(s: ProfileSpec) {
    && s.title == None && s.dataSource == None && s.list == None && s.search == None
    && s.form == None && s.detail == None && s.actions == None
  }

  ghost function SpecIssues(s: ProfileSpec, marshal: Encoder): multiset<Issue> {
    When(EmptySpec(s), SpecEmpty, "spec")
    + TextIssues(s.title, "spec.title")
    + When(BadIdentifier(s.dataSource), IdentifierInvalid, "spec.dataSource")
    + ListIssues(s.list, "spec.list", marshal)
    + SearchIssues(s.search, "spec.search", marshal)
    + LayoutIssues(s.form, "spec.form", marshal)
    + LayoutIssues(s.detail, "spec.detail", marshal)
    + ActionsIssues(s.actions, marshal)
  }

  method ValidateProfileSpec(s: ProfileSpec, marshal: Encoder, log: IssueLog)
    modifies log
    ensures log.Bag() == old(log.Bag()) + SpecIssues(s, marshal)
  {
    hide At, When, IssueLog.Bag, EmptySpec, BadIdentifier, TextIssues, ListIssues, SearchIssues, LayoutIssues, ActionsIssues;
    log.Check(EmptySpec(s), SpecEmpty, "spec");
    ValidateLocalizedText(s.title, "spec.title", log);
    log.Check(BadIdentifier(s.dataSource), IdentifierInvalid, "spec.dataSource");
    ValidateListPatch(s.list, "spec.list", marshal, log);
    ValidateSearchPatch(s.search, "spec.search", marshal, log);
    ValidateFormLike(s.form, "spec.form", marshal, log);
    ValidateFormLike(s.detail, "spec.detail", marshal, log);
    ValidateActionPatches(s.actions, marshal, log);
  }

  lemma SpecClean(s: ProfileSpec, marshal: Encoder)
    ensures |SpecIssues(s, marshal)| == 0 <==> GoodSpec(s, marshal)
  {
    hide At, When, IsIdentifier, TextIssues, ListIssues, SearchIssues, LayoutIssues, ActionsIssues,
         GoodText, GoodList, GoodSearch, GoodLayout, GoodActions;
    WhenCount(EmptySpec(s), SpecEmpty, "spec");
    TextClean(s.title, "spec.title");
    WhenCount(BadIdentifier(s.dataSource), IdentifierInvalid, "spec.dataSource");
    ListClean(s.list, "spec.list", marshal);
    SearchClean(s.search, "spec.search", marshal);
    LayoutClean(s.form, "spec.form", marshal);
    LayoutClean(s.detail, "spec.detail", marshal);
    ActionsClean(s.actions, marshal);
  }

  // ----- the whole profile

  ghost function ProfileIssues(p: Profile, marshal: Encoder): multiset<Issue> {
    When(p.apiVersion != API_VERSION, ApiVersion, "apiVersion")
    + When(p.kind != KIND, ProfileKind, "kind")
    + When(!IsIdentifier(p.metadata.name), IdentifierInvalid, "metadata.name")
    + When(!IsIdentifier(p.metadata.pageKey), IdentifierInvalid, "metadata.pageKey")
    + When(!MatchesHash(p.metadata.definitionHash), ProfileHash, "metadata.definitionHash")
    + When(p.metadata.description.Some? && |p.metadata.description.value| > 500, DescriptionLength, "metadata.description")
    + ScopeIssues(p.metadata.scope)
    + SpecIssues(p.spec, marshal)
  }

  method ValidateProfileShape(p: Profile, marshal: Encoder, log: IssueLog)
    modifies log
    ensures log.Bag() == old(log.Bag()) + ProfileIssues(p, marshal)
  {
    hide At, When, IssueLog.Bag, IsIdentifier, MatchesHash, ScopeIssues, SpecIssues;
    log.Check(p.apiVersion != API_VERSION, ApiVersion, "apiVersion");
    log.Check(p.kind != KIND, ProfileKind, "kind");
    log.Check(!IsIdentifier(p.metadata.name), IdentifierInvalid, "metadata.name");
    log.Check(!IsIdentifier(p.metadata.pageKey), IdentifierInvalid, "metadata.pageKey");
    log.Check(!MatchesHash(p.metadata.definitionHash), ProfileHash, "metadata.definitionHash");
    log.Check(p.metadata.description.Some? && |p.metadata.description.value| > 500, DescriptionLength, "metadata.description");
    ValidateScope(p.metadata.scope, log);
    ValidateProfileSpec(p.spec, marshal, log);
  }

  /** The shape check finds nothing exactly in a good profile. */
  lemma ProfileClean(p: Profile, marshal: Encoder)
    ensures |ProfileIssues(p, marshal)| == 0 <==> GoodProfile(p, marshal)
  {
    hide At, When, IsIdentifier, MatchesHash, ScopeIssues, SpecIssues, GoodScope, GoodSpec, API_VERSION, KIND;
    WhenCount(p.apiVersion != API_VERSION, ApiVersion, "apiVersion");
    WhenCount(p.kind != KIND, ProfileKind, "kind");
    WhenCount(!IsIdentifier(p.metadata.name), IdentifierInvalid, "metadata.name");
    WhenCount(!IsIdentifier(p.metadata.pageKey), IdentifierInvalid, "metadata.pageKey");
    WhenCount(!MatchesHash(p.metadata.definitionHash), ProfileHash, "metadata.definitionHash");
    WhenCount(p.metadata.description.Some? && |p.metadata.description.value| > 500, DescriptionLength, "metadata.description");
    ScopeClean(p.metadata.scope);
    SpecClean(p.spec, marshal);
  }

  // ----- the whole document

  const MAX_DOCUMENT_BYTES := 128 * 1024

  datatype Attempt<T> = Done(value: T) | Failed(error: string)

  /** A document: its size, and how the duplicate-key check, decoding into a profile, the end
      of the stream and decoding into a tree turn out. */
  datatype Source = Source(
    size: nat, keyError: Option<string>, profile: Attempt<Profile>, endError: Option<string>, tree: Attempt<Json>)

  /** The one problem of a document that cannot be decoded. */
  function Undecoded(d: Source): Option<Problem> {
    if d.size == 0 then Some(DocumentEmpty)
    else if d.size > MAX_DOCUMENT_BYTES then Some(DocumentTooLarge)
    else if d.keyError.Some? then Some(JsonInvalid(d.keyError.value))
    else if d.profile.Failed? then Some(DocumentInvalid(d.profile.error))
    else if d.endError.Some? then Some(JsonInvalid(d.endError.value))
    else if d.tree.Failed? then Some(JsonInvalid(d.tree.error))
    else None
  }

  /** The issues of a decoded document: its unexpected nulls and those of its shape. */
  ghost function DocumentIssues(value: Json, p: Profile, marshal: Encoder): multiset<Issue> {
    NullsOf(value, "$", false) + ProfileIssues(p, marshal)
  }

  /** Nulls only where they may stand, and a good profile. */
  ghost predicate GoodDocument(value: Json, p: Profile, marshal: Encoder) {
    NullsAllowed(value, false) && GoodProfile(p, marshal)
  }

  function NumberError(literal: string): Problem {
    JsonInvalid("invalid JSON number \"" + literal + "\"")
  }

  /** It can be decoded, it is good, and its canonical form can be written. */
  ghost predicate Acceptable(d: Source, marshal: Encoder) {
    && Undecoded(d) == None && GoodDocument(d.tree.value, d.profile.value, marshal)
    && Writable(d.tree.value, marshal.parseFloat)
  }

  ghost predicate IsReport(d: Source, marshal: Encoder, issues: seq<Issue>) {
    if Undecoded(d).Some? then issues == [At(Undecoded(d).value, "$")]
    else if GoodDocument(d.tree.value, d.profile.value, marshal) && FirstBad(d.tree.value, marshal.parseFloat).Some? then
      issues == [At(NumberError(FirstBad(d.tree.value, marshal.parseFloat).value), "$")]
    else Ascending(issues) && multiset(issues) == DocumentIssues(d.tree.value, d.profile.value, marshal)
  }

  method InspectDocument(value: Json, p: Profile, marshal: Encoder) returns (issues: seq<Issue>)
    ensures Ascending(issues) && multiset(issues) == DocumentIssues(value, p, marshal)
    ensures issues == [] <==> GoodDocument(value, p, marshal)
  {
    hide At, When, NullsOf, NullsAllowed, ProfileIssues, GoodProfile, Ascending;
    var log := new IssueLog();
    InspectUnexpectedNulls(value, "$", false, log);
    ValidateProfileShape(p, marshal, log);
    log.Sort();
    issues := log.issues;
    NoNullIssues(value, "$", false);
    ProfileClean(p, marshal);
    ReportEmpty(issues, NullsOf(value, "$", false), ProfileIssues(p, marshal));
  }

  /** ParseDocument: one issue if the document cannot be decoded; else the sorted list of all
      that is wrong with it; else one issue if its canonical form, which the document without
      issues is returned with, cannot be written. */
  method ParseDocument(d: Source, marshal: Encoder) returns (issues: seq<Issue>, canonical: Option<string>)
    ensures IsReport(d, marshal, issues)
    ensures issues == [] <==> Acceptable(d, marshal)
    ensures canonical == if Acceptable(d, marshal) then Some(Print(d.tree.value, marshal.quote)) else None
  {
    hide At, DocumentIssues, GoodDocument, Ascending, Print, FirstBad, Writable, NumberError;
    canonical := None;
    if d.size == 0 {
      return [At(DocumentEmpty, "$")], None;
    }
    if d.size > MAX_DOCUMENT_BYTES {
      return [At(DocumentTooLarge, "$")], None;
    }
    if d.keyError.Some? {
      return [At(JsonInvalid(d.keyError.value), "$")], None;
    }
    if d.profile.Failed? {
      return [At(DocumentInvalid(d.profile.error), "$")], None;
    }
    if d.endError.Some? {
      return [At(JsonInvalid(d.endError.value), "$")], None;
    }
    if d.tree.Failed? {
      return [At(JsonInvalid(d.tree.error), "$")], None;
    }
    issues := InspectDocument(d.tree.value, d.profile.value, marshal);
    if issues != [] {
      return;
    }
    var output := new Buffer();
    var bad := WriteValue(output, d.tree.value, true, marshal.quote, marshal.parseFloat);
    NothingBad(d.tree.value, marshal.parseFloat);
    if bad.Some? {
      return [At(NumberError(bad.value), "$")], None;
    }
    assert "" + Print(d.tree.value, marshal.quote) == Print(d.tree.value, marshal.quote);
    canonical := Some(output.text);
  }

  /** Any two runs of ParseDocument return the identical list, whatever the orders in which
      maps were iterated. */
  lemma ReportUnique(d: Source, marshal: Encoder, a: seq<Issue>, b: seq<Issue>)
    requires IsReport(d, marshal, a) && IsReport(d, marshal, b)
    ensures a == b
  {
    hide At, DocumentIssues, GoodDocument, FirstBad, NumberError, Ascending;
    if Undecoded(d) == None && multiset(a) == multiset(b) && Ascending(a) && Ascending(b) {
      ArrangementUnique(a, b);
    }
  }
}
