/** A page with one text column: that there are capabilities which ValidateCapability accepts,
    limited tables and others. */
module Sample {
  import opened Text
  import opened Canonical
  import opened Patterns
  import opened Conditions
  import opened PresentationModel
  import opened CapabilityIdentity
  import opened Sound = SoundCapability
  import D = DefaultPresentation
  import P = ProfileCheck
  import Agreement

  function Title(): LocalizedText {
    LocalizedText(None, Some("Users"))
  }

  function Name(): CapabilityField {
    CapabilityField("name", Title(), "string", "plain", false, false, false, [LIST], ["text"], [], [],
                                FieldValidation(None, None, None, None, "", None, None))
  }

  function Column(): CompleteField {
    CompleteField("name", None, "text", 0, false, None, None, None, None, None)
  }

  function Table(): CompletePresentation {
    CompletePresentation(Title(), "rows", [Column()], "middle", 20, [], [], false, [], 1, [], 1, [])
  }

  function Rows(): DataSource {
    DataSource("rows", ["read"], [], 0, 0)
  }

  function Edit(): CapabilityAction {
    CapabilityAction("edit", ["write"], ["row"])
  }

  function Digest(): string {
    "sha256:" + seq(64, i => 'a')
  }

  function Page(actions: seq<CapabilityAction>): Capability {
    Capability("users", VERSION_1, Digest(), ["text"], [Name()], [Rows()], actions, Table())
  }

  /** Only the empty string is blank, and the digest is the hash of everything. */
  ghost predicate Ordinary(rules: Rules) {
    (forall s :: rules.blank(s) <==> s == "") && forall c :: rules.hash(c) == Hash(Digest())
  }

  lemma LettersMatch(s: string)
    requires 2 <= |s| <= 120 && forall i :: 0 <= i < |s| ==> IsLower(s[i])
    ensures IsIdentifier(s) && BeforeDot(s) == s
  {
    BeforeDotSplits(s, s);
  }

  lemma IdentifiersMatch()
    ensures IsIdentifier("users") && IsIdentifier("text") && IsIdentifier("rows") && IsIdentifier("edit") && IsIdentifier("name")
    ensures BeforeDot("users") == "users"
  {
    hide IsIdentifier, BeforeDot;
    LettersMatch("users");
    LettersMatch("text");
    LettersMatch("rows");
    LettersMatch("edit");
    LettersMatch("name");
  }

  lemma UsersOpen()
    ensures "users" !in PROTECTED
  {
    assert forall name :: name in PROTECTED ==> |name| != 5 || name[0] == 'l';
  }

  lemma DigestMatches()
    ensures MatchesHash(Digest())
  {
    assert Digest()[..7] == "sha256:";
  }

  lemma KeyPasses(actions: seq<CapabilityAction>, rules: Rules)
    requires Ordinary(rules)
    ensures GoodKey(Page(actions), rules)
  {
    hide IsIdentifier, MatchesHash, BeforeDot, PROTECTED, Digest;
    IdentifiersMatch();
    UsersOpen();
    DigestMatches();
  }

  lemma IdsPass(actions: seq<CapabilityAction>)
    requires actions == [] || actions == [Edit()]
    ensures GoodIds(Page(actions))
  {
    IdentifiersMatch();
    hide IsIdentifier, BeforeDot;
    assert MatchesIdentifier("name");
  }

  lemma NamePasses(rules: Rules)
    ensures GoodField(Name(), false, {"text"}, rules)
  {
    assert Name().components[0] == "text" && Name().surfaces[0] == LIST;
  }

  lemma RowsPass(rules: Rules)
    requires Ordinary(rules)
    ensures GoodSource(Rows(), false, rules)
  {
  }

  lemma EditPasses(rules: Rules)
    requires Ordinary(rules)
    ensures GoodAction(Edit(), rules)
  {
  }

  lemma PageRegistered(actions: seq<CapabilityAction>, rules: Rules)
    requires actions == [] || actions == [Edit()]
    requires Ordinary(rules)
    ensures GoodRegistered(Page(actions), rules)
  {
    IdsPass(actions);
    NamePasses(rules);
    RowsPass(rules);
    EditPasses(rules);
    hide GoodIds, GoodField, GoodSource, GoodAction;
    assert Names(["text"]) == {"text"};
  }

  lemma ColumnPasses(actions: seq<CapabilityAction>, marshal: Encoder)
    ensures D.GoodField(Column(), LIST, ContextOf(Page(actions)), marshal)
  {
    DefinitionsAreLast([Name()]);
    assert IsLastField([Name()], "name", 0);
  }

  lemma PageShown(actions: seq<CapabilityAction>, marshal: Encoder)
    requires actions == [] || actions == [Edit()]
    ensures D.GoodPresentation(Page(actions), marshal)
  {
    ColumnPasses(actions, marshal);
    hide D.GoodField, ContextOf, LIST;
    assert D.CollectionOf(Table(), LIST)[0] == Column();
    assert D.Shows(Table(), LIST, "name");
    assert D.SomeVisible(Table().columns);
    assert !ContextOf(Page(actions)).strict by { NotStrict(actions); }
  }

  lemma NotStrict(actions: seq<CapabilityAction>)
    ensures !ContextOf(Page(actions)).strict
  {
  }

  lemma PagesPass(actions: seq<CapabilityAction>, rules: Rules)
    requires actions == [] || actions == [Edit()]
    requires Ordinary(rules)
    ensures D.GoodCapability(Page(actions), rules) && (Limited(Page(actions)) <==> actions == [])
  {
    hide GoodKey, GoodRegistered, D.GoodPresentation;
    KeyPasses(actions, rules);
    PageRegistered(actions, rules);
    PageShown(actions, rules.marshal);
  }

  /** The same spelled-out default is rejected on the page without an action, a limited table,
      and accepted on the page with one. */
  lemma BothOutcomes(p: Profile, rules: Rules)
    requires Ordinary(rules) && p.spec == Agreement.SpelledOut(Table())
    requires p.metadata.pageKey == "users" && p.metadata.definitionHash == Digest()
    ensures !P.GoodProfile(Page([]), p) && P.GoodProfile(Page([Edit()]), p)
  {
    hide D.GoodCapability, P.GoodProfile, Limited, Agreement.SpelledOut, Digest;
    PagesPass([], rules);
    PagesPass([Edit()], rules);
    Agreement.DefaultProfilePasses(Page([]), p, rules);
    Agreement.DefaultProfilePasses(Page([Edit()]), p, rules);
  }
}
