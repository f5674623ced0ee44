/** One revisioned write as the code performs it, statement by statement, in
    admin/models/app_config.go and admin/models/user_config.go. */
module ConfigWrites {
  import opened Text
  import opened ConfigRevisions

  // ----- keys

  /** group and name: what stands before and behind the first separator. */
  ghost predicate Splits(key: string, separator: char, group: string, name: string) {
    if separator in key then separator !in group && key == group + [separator] + name
    else group == "" && name == key
  }

  method SplitKey(key: string, separator: char) returns (group: string, name: string)
    ensures Splits(key, separator, group, name)
  {
    var i := 0;
    while i < |key| && key[i] != separator
      invariant 0 <= i <= |key|
      invariant separator !in key[..i]
    {
      i := i + 1;
    }
    if i == |key| {
      assert key[..i] == key;
      return "", key;
    }
    assert key == key[..i] + [key[i]] + key[i + 1..];
    return key[..i], key[i + 1..];
  }

  /** Two keys with a separator name the same (group, name) only if they are equal, and one
      (group, name) never goes by two cache fields or two by one. */
  lemma SplitUnique(key: string, other: string, separator: char, group: string, name: string, g: string, n: string)
    requires Splits(key, separator, group, name) && Splits(other, separator, g, n)
    ensures group + [separator] + name == g + [separator] + n <==> group == g && name == n
    ensures separator in key && separator in other ==> (group == g && name == n <==> key == other)
  {
    assert separator !in group && separator !in g;
    if group + [separator] + name == g + [separator] + n {
      var field := group + [separator] + name;
      assert field[|group|] == separator;
      assert field == g + [separator] + n && field[|g|] == separator;
      assert forall k :: 0 <= k < |group| ==> field[k] == group[k];
      assert forall k :: 0 <= k < |g| ==> field[k] == g[k];
      assert |group| == |g|;
      assert field[..|group|] == group && field[..|g|] == g;
      assert field[|group| + 1..] == name && field[|g| + 1..] == n;
    }
  }

  // ----- the transaction

  /** Which database statement fails; locking a revision also does when the row it finds is
      that of another scope, owner or resource. */
  datatype Faults = Faults(lockProfile: bool, lockTheme: bool, upsert: bool, advanceProfile: bool, advanceTheme: bool)

  predicate Faulty(f: Faults, r: Request) {
    f.lockProfile || f.upsert || f.advanceProfile || (InTheme(r) && (f.lockTheme || f.advanceTheme))
  }

  /** A row of this owner with this group and name, holding this flag and value. */
  predicate Stored(row: Row, owner: Owner, group: string, name: string, auth: bool, value: string) {
    row.owner == owner && row.group == group && row.name == name && row.auth == auth && row.value == value
  }

  class Store {
    var revisions: map<Resource, int>
    var rows: map<nat, Row>

    ghost function Value(): Db
      reads this
    {
      Db(revisions, rows)
    }

    constructor (revisions: map<Resource, int>, rows: map<nat, Row>)
      ensures Value() == Db(revisions, rows)
    {
      this.revisions, this.rows := revisions, rows;
    }

    /** Creates the revision row if need be, locks it and reads it. */
    method LockRevision(resource: Resource, fault: bool) returns (revision: int, err: bool)
      modifies this`revisions
      ensures forall r :: Rev(Value(), r) == Rev(old(Value()), r)
      ensures err == (fault || Rev(old(Value()), resource) < 0)
      ensures !err ==> revision == Rev(old(Value()), resource) && revisions == old(revisions)[resource := revision]
    {
      if fault {
        return 0, true;
      }
      if resource !in revisions {
        revisions := revisions[resource := 0];
      }
      revision := revisions[resource];
      err := revision < 0;
    }

    /** The guarded update; false also when no row matches or the revision is at its end. */
    method AdvanceRevision(resource: Resource, current: int, fault: bool) returns (err: bool)
      modifies this`revisions
      ensures err == (fault || !CanAdvance(current) || resource !in old(revisions) || old(revisions)[resource] != current)
      ensures revisions == if err then old(revisions) else old(revisions)[resource := current + 1]
    {
      if current < 0 || current == MAX_REVISION || fault {
        return true;
      }
      if current > MAX_REVISION || resource !in revisions || revisions[resource] != current {
        return true;
      }
      revisions := revisions[resource := current + 1];
      err := false;
    }

    /** The ids both queries find, gathered in a map. */
    method ExactCandidates(r: Request, rules: Rules) returns (byId: map<nat, Row>)
      ensures byId.Keys == Candidates(rows, r, rules) && forall id :: id in byId ==> byId[id] == rows[id]
    {
      byId := map[];
      var rest := rows.Keys;
      while rest != {}
        invariant rest <= rows.Keys
        invariant forall id :: id in byId <==> id in rows && id !in rest && IsCandidate(rows[id], r, rules)
        invariant forall id :: id in byId ==> byId[id] == rows[id]
        decreases rest
      {
        var id :| id in rest;
        var row := rows[id];
        if row.owner == r.owner && rules.matches((row.group, row.name), (r.group, r.name)) {
          byId := byId[id := row];
        }
        if row.owner == r.owner && rules.trimmed((row.group, row.name), (r.group, r.name)) {
          byId := byId[id := row];
        }
        rest := rest - {id};
      }
    }

    method UpsertExact(r: Request, newId: nat, rules: Rules, fault: bool) returns (err: bool)
      modifies this`rows
      ensures !err ==> exists id :: id in rows && Stored(rows[id], r.owner, r.group, r.name, r.auth, r.value) && rows == old(rows)[id := rows[id]]
      ensures err == (fault || Target(old(rows), r, newId, rules) == None)
      ensures rows == if err then old(rows) else old(rows)[Target(old(rows), r, newId, rules).value := RowOf(r)]
    {
      var candidates := ExactCandidates(r, rules);
      if |candidates| > 1 {
        ManyCandidates(candidates.Keys);
        return true;
      }
      if |candidates| == 1 {
        var id :| id in candidates;
        OneCandidate(candidates.Keys, id);
        if candidates[id].group != r.group || candidates[id].name != r.name || fault {
          return true;
        }
        rows := rows[id := Row(r.owner, r.group, r.name, r.auth, r.value)];
        assert Stored(rows[id], r.owner, r.group, r.name, r.auth, r.value);
        return false;
      }
      if fault {
        return true;
      }
      rows := rows[newId := Row(r.owner, r.group, r.name, r.auth, r.value)];
      assert Stored(rows[newId], r.owner, r.group, r.name, r.auth, r.value);
      err := false;
    }

    /** The body of the transaction; what it leaves behind on an error is rolled back. */
    method Transact(r: Request, newId: nat, rules: Rules, faults: Faults) returns (err: bool)
      modifies this
      ensures err == (Faulty(faults, r) || Serial(old(Value()), r, newId, rules) == None)
      ensures !err ==> Serial(old(Value()), r, newId, rules) == Some(Value())
    {
      hide Target;
      var profile, theme := 0, 0;
      profile, err := LockRevision(Profile(r.owner), faults.lockProfile);
      if err {
        return;
      }
      if InTheme(r) {
        theme, err := LockRevision(Theme(r.owner), faults.lockTheme);
        if err {
          return;
        }
      }
      err := UpsertExact(r, newId, rules, faults.upsert);
      if err {
        return;
      }
      err := AdvanceRevision(Profile(r.owner), profile, faults.advanceProfile);
      if err {
        return;
      }
      if InTheme(r) {
        err := AdvanceRevision(Theme(r.owner), theme, faults.advanceTheme);
      }
      assert !err ==> revisions == Advanced(old(Value()), r);
    }

    /** SetAppConfig and SetUserConfig for an owner, one transaction at a time. */
    method SetConfig(owner: Owner, key: string, separator: char, auth: bool, value: string, newId: nat, rules: Rules, faults: Faults)
        returns (err: bool, ghost request: Request)
      modifies this
      ensures request.owner == owner && request.auth == auth && request.value == value
      ensures Splits(key, separator, request.group, request.name)
      ensures key == "" ==> !err && Value() == old(Value())
      ensures key != "" ==> err == (!Accepts(request, rules) || Faulty(faults, request) || Serial(old(Value()), request, newId, rules) == None)
      ensures key != "" ==> Value() == if err then old(Value()) else Serial(old(Value()), request, newId, rules).value
      ensures key != "" && owner.User? && rules.blank(owner.id) ==> err
      ensures key != "" && request.name == "" ==> err
      ensures key != "" && request.group != "theme" && rules.canonical(request.group) == "theme" ==> err
      ensures key != "" && !err && Unique(old(rows)) && Reflexive(rules) && newId !in old(rows) ==>
        && (exists id :: id in rows && Stored(rows[id], owner, request.group, request.name, auth, value))
        && (forall id :: id in rows && rows[id].owner == owner && rows[id].group == request.group && rows[id].name == request.name ==>
              rows[id].auth == auth && rows[id].value == value)
        && Unique(rows)
    {
      var group, name := SplitKey(key, separator);
      var r := Request(owner, group, name, auth, value);
      request := r;
      if key == "" {
        return false, r;
      }
      if owner.User? && rules.blank(owner.id) {
        return true, r;
      }
      if name == "" {
        return true, r;
      }
      if rules.canonical(group) == THEME && group != THEME {
        return true, r;
      }
      var revisionsBefore, rowsBefore := revisions, rows;
      err := Transact(r, newId, rules, faults);
      if !err && Unique(rowsBefore) && Reflexive(rules) && newId !in rowsBefore {
        SerialWrites(old(Value()), r, newId, rules);
      }
      if err {
        revisions, rows := revisionsBefore, rowsBefore;
      }
    }
  }

  lemma OneCandidate(ids: set<nat>, id: nat)
    requires |ids| == 1 && id in ids
    ensures ids == {id}
  {
    assert |ids - {id}| == 0;
  }

  lemma ManyCandidates(ids: set<nat>)
    requires |ids| > 1
    ensures forall id :: ids != {id}
  {
    forall id: nat ensures ids != {id} {
      assert |{id}| == 1;
    }
  }
}
