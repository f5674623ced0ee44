/** Merging a Go coverprofile and summing it by package subtree,
    scripts/check-go-coverage.py. */
module Coverages {
  import opened Text

  datatype Coverage = Coverage(statements: int, covered: int) {
    function Plus(other: Coverage): Coverage {
      Coverage(statements + other.statements, covered + other.covered)
    }

    predicate AtMost(other: Coverage) {
      statements <= other.statements && covered <= other.covered
    }

    predicate Sane() {
      0 <= covered <= statements
    }
  }

  const NOTHING := Coverage(0, 0)

  datatype Block = Block(filename: string, statements: int, covered: bool)

  /** A stripped row: empty, without three fields or with bad numbers, or proper. */
  datatype Row = Blank | Malformed | Fields(location: string, statements: int, executions: int)

  datatype Profile = Profile(total: Coverage, packages: map<string, Coverage>)

  // ----- file names and packages

  function BeforeFirst(s: string, c: char): string {
    if s == "" || s[0] == c then "" else [s[0]] + BeforeFirst(s[1..], c)
  }

  function BeforeLast(s: string, c: char): string {
    if s == "" then ""
    else if s[|s| - 1] == c then s[..|s| - 1]
    else BeforeLast(s[..|s| - 1], c)
  }

  function PackageOf(filename: string): string {
    if '/' in filename then BeforeLast(filename, '/') else "."
  }

  function FileOf(location: string): string {
    BeforeFirst(location, ':')
  }

  // ----- which profiles are accepted, and the blocks they describe

  predicate RowOk(r: Row) {
    !r.Malformed? && (r.Fields? ==> ':' in r.location && r.statements >= 0 && r.executions >= 0)
  }

  ghost predicate Consistent(rows: seq<Row>) {
    forall i, j :: 0 <= i < |rows| && 0 <= j < |rows| && rows[i].Fields? && rows[j].Fields? && rows[i].location == rows[j].location
      ==> rows[i].statements == rows[j].statements
  }

  ghost predicate Acceptable(rows: seq<Row>) {
    (forall i :: 0 <= i < |rows| ==> RowOk(rows[i])) && Consistent(rows)
  }

  /** Some row gives this location, and with this many statements. */
  ghost predicate Names(rows: seq<Row>, location: string, statements: int) {
    exists i :: 0 <= i < |rows| && rows[i].Fields? && rows[i].location == location && rows[i].statements == statements
  }

  /** Some row says that this location was executed. */
  ghost predicate Executes(rows: seq<Row>, location: string) {
    exists i :: 0 <= i < |rows| && rows[i].Fields? && rows[i].location == location && rows[i].executions > 0
  }

  /** One block for each location, covered when any of its rows was executed. */
  ghost predicate Describes(rows: seq<Row>, blocks: map<string, Block>) {
    && (forall l :: l in blocks ==> Names(rows, l, blocks[l].statements) && blocks[l].filename == FileOf(l)
                                    && (blocks[l].covered <==> Executes(rows, l)))
    && forall i :: 0 <= i < |rows| && rows[i].Fields? ==> rows[i].location in blocks
  }

  /** The same rows, in whatever order and however often. */
  ghost predicate SameRows(a: seq<Row>, b: seq<Row>) {
    forall r :: r in a <==> r in b
  }

  lemma Transfer(a: seq<Row>, b: seq<Row>)
    requires SameRows(a, b)
    ensures Acceptable(a) ==> Acceptable(b)
    ensures forall l, n :: Names(a, l, n) ==> Names(b, l, n)
    ensures forall l :: Executes(a, l) ==> Executes(b, l)
  {
    forall i | 0 <= i < |b| ensures b[i] in a {
    }
    forall l, n | Names(a, l, n) ensures Names(b, l, n) {
      var i :| 0 <= i < |a| && a[i].Fields? && a[i].location == l && a[i].statements == n;
      assert a[i] in b;
    }
    forall l | Executes(a, l) ensures Executes(b, l) {
      var i :| 0 <= i < |a| && a[i].Fields? && a[i].location == l && a[i].executions > 0;
      assert a[i] in b;
    }
  }

  /** Merging does not depend on the order of the rows or on repetitions. */
  lemma MergeIgnoresOrder(a: seq<Row>, b: seq<Row>, x: map<string, Block>, y: map<string, Block>)
    requires SameRows(a, b) && Acceptable(a) && Describes(a, x) && Describes(b, y)
    ensures Acceptable(b) && x == y
  {
    Transfer(a, b);
    Transfer(b, a);
    forall l | l in x ensures l in y && x[l] == y[l] {
      var i :| 0 <= i < |a| && a[i].Fields? && a[i].location == l && a[i].statements == x[l].statements;
      assert a[i] in b;
      SameStatements(b, l, x[l].statements, y[l].statements);
    }
    forall l | l in y ensures l in x {
      var i :| 0 <= i < |b| && b[i].Fields? && b[i].location == l && b[i].statements == y[l].statements;
      assert b[i] in a;
    }
  }

  lemma SameStatements(rows: seq<Row>, l: string, m: int, n: int)
    requires Consistent(rows) && Names(rows, l, m) && Names(rows, l, n)
    ensures m == n
  {
  }

  /** One row goes into the blocks, or the profile is inconsistent. */
  method MergeRow(rows: seq<Row>, n: nat, blocks: map<string, Block>) returns (merged: map<string, Block>, ok: bool)
    requires n < |rows| && rows[n].Fields? && RowOk(rows[n])
    requires Consistent(rows[..n]) && Describes(rows[..n], blocks)
    ensures ok <==> Consistent(rows[..n + 1])
    ensures ok ==> Describes(rows[..n + 1], merged)
  {
    var row, location := rows[n], rows[n].location;
    var before, after := rows[..n], rows[..n + 1];
    assert after == before + [row];
    NamesGrow(before, row);
    if location in blocks && blocks[location].statements != row.statements {
      assert Names(after, location, blocks[location].statements) && Names(after, location, row.statements);
      if Consistent(after) { SameStatements(after, location, blocks[location].statements, row.statements); }
      return blocks, false;
    }
    var previous := location in blocks && blocks[location].covered;
    merged := blocks[location := Block(FileOf(location), row.statements, previous || row.executions > 0)];
    ok := true;
    ConsistentGrows(before, row, blocks);
  }

  lemma NamesGrow(rows: seq<Row>, row: Row)
    requires row.Fields?
    ensures forall l, n :: Names(rows + [row], l, n) <==> Names(rows, l, n) || (l == row.location && n == row.statements)
    ensures forall l :: Executes(rows + [row], l) <==> Executes(rows, l) || (l == row.location && row.executions > 0)
  {
    var all := rows + [row];
    assert all[|rows|] == row;
    forall l, n | Names(rows, l, n) ensures Names(all, l, n) {
      var i :| 0 <= i < |rows| && rows[i].Fields? && rows[i].location == l && rows[i].statements == n;
      assert all[i] == rows[i];
    }
    forall l | Executes(rows, l) ensures Executes(all, l) {
      var i :| 0 <= i < |rows| && rows[i].Fields? && rows[i].location == l && rows[i].executions > 0;
      assert all[i] == rows[i];
    }
  }

  lemma ConsistentGrows(rows: seq<Row>, row: Row, blocks: map<string, Block>)
    requires row.Fields? && Consistent(rows) && Describes(rows, blocks)
    requires row.location in blocks ==> blocks[row.location].statements == row.statements
    ensures Consistent(rows + [row])
  {
    var all := rows + [row];
    forall i | 0 <= i < |rows| && rows[i].Fields? && rows[i].location == row.location ensures rows[i].statements == row.statements {
      assert Names(rows, row.location, rows[i].statements);
      SameStatements(rows, row.location, rows[i].statements, blocks[row.location].statements);
    }
  }

  // ----- sums

  type Weight = string -> Coverage

  /** The sum over a set of names, in no order. */
  ghost function Sum(names: set<string>, w: Weight): Coverage
    decreases |names|
  {
    if names == {} then NOTHING
    else
      var k :| k in names;
      w(k).Plus(Sum(names - {k}, w))
  }

  /** Any name may come first. */
  lemma {:induction false} AnyFirst(names: set<string>, name: string, w: Weight)
    requires name in names
    ensures Sum(names, w) == w(name).Plus(Sum(names - {name}, w))
    decreases |names|
  {
    var k :| k in names && Sum(names, w) == w(k).Plus(Sum(names - {k}, w));
    if k != name {
      var rest := names - {k} - {name};
      AnyFirst(names - {k}, name, w);
      AnyFirst(names - {name}, k, w);
      assert names - {name} - {k} == rest;
      Rearranged(w(k), w(name), Sum(rest, w));
    }
  }

  lemma Rearranged(a: Coverage, b: Coverage, c: Coverage)
    ensures a.Plus(b.Plus(c)) == b.Plus(a.Plus(c)) && a.Plus(b.Plus(c)) == a.Plus(b).Plus(c)
  {
  }

  lemma Added(names: set<string>, name: string, w: Weight)
    requires name !in names
    ensures Sum(names + {name}, w) == w(name).Plus(Sum(names, w))
  {
    AnyFirst(names + {name}, name, w);
    assert names + {name} - {name} == names;
  }

  /** The sum over two disjoint sets is the sum of the sums. */
  lemma {:induction false} SumSplits(a: set<string>, b: set<string>, w: Weight)
    requires a !! b
    ensures Sum(a + b, w) == Sum(a, w).Plus(Sum(b, w))
    decreases |a|
  {
    if a == {} {
      assert a + b == b;
    } else {
      var k :| k in a;
      AnyFirst(a, k, w);
      AnyFirst(a + b, k, w);
      assert a + b - {k} == (a - {k}) + b;
      SumSplits(a - {k}, b, w);
      Rearranged(w(k), Sum(a - {k}, w), Sum(b, w));
    }
  }

  /** Covered never exceeds statements in a sum either. */
  lemma {:induction false} SumSane(names: set<string>, w: Weight)
    requires forall k :: k in names ==> w(k).Sane()
    ensures Sum(names, w).Sane()
    decreases |names|
  {
    if names != {} {
      var k :| k in names;
      AnyFirst(names, k, w);
      SumSane(names - {k}, w);
    }
  }

  /** A part of a sum of sane coverages is at most the whole. */
  lemma SumMonotone(part: set<string>, whole: set<string>, w: Weight)
    requires part <= whole && forall k :: k in whole ==> w(k).Sane()
    ensures Sum(part, w).AtMost(Sum(whole, w))
  {
    assert part + (whole - part) == whole;
    SumSplits(part, whole - part, w);
    SumSane(whole - part, w);
  }

  function CoverageOf(b: Block): Coverage {
    Coverage(b.statements, if b.covered then b.statements else 0)
  }

  function BlockWeight(blocks: map<string, Block>): Weight {
    l => if l in blocks then CoverageOf(blocks[l]) else NOTHING
  }

  function PackageWeight(packages: map<string, Coverage>): Weight {
    p => if p in packages then packages[p] else NOTHING
  }

  /** The package of a location. */
  function Home(location: string): string {
    PackageOf(FileOf(location))
  }

  function InPackage(locations: set<string>, package: string): set<string> {
    set l | l in locations && Home(l) == package
  }

  function InPackages(locations: set<string>, packages: set<string>): set<string> {
    set l | l in locations && Home(l) in packages
  }

  /** Each package of some block has the sum of its blocks. */
  ghost predicate Grouped(locations: set<string>, w: Weight, packages: map<string, Coverage>) {
    && (forall l :: l in locations ==> Home(l) in packages)
    && forall p :: p in packages ==> InPackage(locations, p) != {} && packages[p] == Sum(InPackage(locations, p), w)
  }

  lemma {:induction false} PackagesSumUp(locations: set<string>, w: Weight, packages: map<string, Coverage>, some: set<string>)
    requires Grouped(locations, w, packages) && some <= packages.Keys
    ensures Sum(InPackages(locations, some), w) == Sum(some, PackageWeight(packages))
    decreases |some|
  {
    var chosen := InPackages(locations, some);
    if some != {} {
      var p :| p in some;
      var others := InPackages(locations, some - {p});
      assert chosen == InPackage(locations, p) + others;
      SumSplits(InPackage(locations, p), others, w);
      PackagesSumUp(locations, w, packages, some - {p});
      AnyFirst(some, p, PackageWeight(packages));
    } else {
      assert chosen == {};
    }
  }

  lemma GroupedGrows(locations: set<string>, w: Weight, packages: map<string, Coverage>, l: string)
    requires Grouped(locations, w, packages) && l !in locations
    ensures Grouped(locations + {l}, w, packages[Home(l) := PackageWeight(packages)(Home(l)).Plus(w(l))])
  {
    var p, more := Home(l), locations + {l};
    var grown := packages[p := PackageWeight(packages)(p).Plus(w(l))];
    assert InPackage(more, p) == InPackage(locations, p) + {l};
    Added(InPackage(locations, p), l, w);
    if p !in packages {
      assert InPackage(locations, p) == {};
    }
    forall q | q in grown ensures InPackage(more, q) != {} && grown[q] == Sum(InPackage(more, q), w) {
      if q == p {
        assert l in InPackage(more, q);
      } else {
        assert InPackage(more, q) == InPackage(locations, q);
      }
    }
  }

  // ----- the code

  ghost predicate Totals(blocks: map<string, Block>, profile: Profile) {
    profile.total == Sum(blocks.Keys, BlockWeight(blocks)) && Grouped(blocks.Keys, BlockWeight(blocks), profile.packages)
  }

  /** The outcome of parse_profile: the total of all blocks and its distribution. */
  ghost predicate Summarizes(rows: seq<Row>, profile: Profile) {
    exists blocks :: Describes(rows, blocks) && Totals(blocks, profile)
  }

  method MergeRows(rows: seq<Row>) returns (merged: Option<map<string, Block>>)
    ensures merged.Some? <==> Acceptable(rows)
    ensures merged.Some? ==> Describes(rows, merged.value)
  {
    hide Describes, Consistent;
    var blocks: map<string, Block> := map[];
    NothingDescribed(rows);
    for n := 0 to |rows|
      invariant Acceptable(rows[..n]) && Describes(rows[..n], blocks)
    {
      AcceptableGrows(rows, n);
      match rows[n]
      case Blank =>
        BlankIgnored(rows[..n], blocks);
        assert rows[..n + 1] == rows[..n] + [Blank];
      case Malformed =>
        return None;
      case Fields(location, statements, executions) =>
        if ':' !in location || statements < 0 || executions < 0 {
          return None;
        }
        var ok: bool;
        blocks, ok := MergeRow(rows, n, blocks);
        if !ok {
          return None;
        }
    }
    assert rows[..|rows|] == rows;
    merged := Some(blocks);
  }

  lemma NothingDescribed(rows: seq<Row>)
    ensures Acceptable(rows[..0]) && Describes(rows[..0], map[])
  {
  }

  /** What is wrong with the first rows stays wrong. */
  lemma AcceptableGrows(rows: seq<Row>, n: nat)
    requires n < |rows| && Acceptable(rows[..n])
    ensures Acceptable(rows[..n + 1]) <==> RowOk(rows[n]) && Consistent(rows[..n + 1])
    ensures Acceptable(rows) ==> Acceptable(rows[..n + 1])
  {
    assert forall i :: 0 <= i < n + 1 ==> rows[..n + 1][i] == rows[i];
  }

  lemma BlankIgnored(rows: seq<Row>, blocks: map<string, Block>)
    requires Acceptable(rows) && Describes(rows, blocks)
    ensures Acceptable(rows + [Blank]) && Describes(rows + [Blank], blocks)
  {
    var all := rows + [Blank];
    forall l, n | Names(rows, l, n) ensures Names(all, l, n) {
      var i :| 0 <= i < |rows| && rows[i].Fields? && rows[i].location == l && rows[i].statements == n;
      assert all[i] == rows[i];
    }
    forall l ensures Executes(rows, l) <==> Executes(all, l) {
      if Executes(rows, l) {
        var i :| 0 <= i < |rows| && rows[i].Fields? && rows[i].location == l && rows[i].executions > 0;
        assert all[i] == rows[i];
      }
    }
  }

  method SumBlocks(blocks: map<string, Block>) returns (profile: Profile)
    ensures Totals(blocks, profile)
  {
    hide Grouped, Sum;
    var total := NOTHING;
    var packages: map<string, Coverage> := map[];
    var rest := blocks.Keys;
    ghost var w := BlockWeight(blocks);
    NothingSummed(w);
    assert blocks.Keys - rest == {};
    while rest != {}
      invariant rest <= blocks.Keys
      invariant total == Sum(blocks.Keys - rest, w) && Grouped(blocks.Keys - rest, w, packages)
      decreases rest
    {
      var l :| l in rest;
      var block := blocks[l];
      var coverage := Coverage(block.statements, if block.covered then block.statements else 0);
      Added(blocks.Keys - rest, l, w);
      GroupedGrows(blocks.Keys - rest, w, packages, l);
      assert blocks.Keys - (rest - {l}) == blocks.Keys - rest + {l};
      total := total.Plus(coverage);
      var package := PackageOf(FileOf(l));
      packages := packages[package := (if package in packages then packages[package] else NOTHING).Plus(coverage)];
      rest := rest - {l};
    }
    assert blocks.Keys - rest == blocks.Keys;
    profile := Profile(total, packages);
  }

  lemma NothingSummed(w: Weight)
    ensures Sum({}, w) == NOTHING && Grouped({}, w, map[])
  {
  }

  lemma AcceptedRows(rows: seq<Row>)
    requires Acceptable(rows)
    ensures forall i :: 0 <= i < |rows| ==>
      rows[i] == Blank || (rows[i].Fields? && ':' in rows[i].location && rows[i].statements >= 0 && rows[i].executions >= 0)
  {
    forall i | 0 <= i < |rows|
      ensures rows[i] == Blank || (rows[i].Fields? && ':' in rows[i].location && rows[i].statements >= 0 && rows[i].executions >= 0)
    {
      assert RowOk(rows[i]);
    }
  }

  /** parse_profile on the stripped rows behind the mode line. */
  method ParseProfile(rows: seq<Row>) returns (profile: Option<Profile>)
    ensures profile.Some? <==> Acceptable(rows)
    ensures profile.Some? ==> forall i :: 0 <= i < |rows| ==>
      rows[i] == Blank || (rows[i].Fields? && ':' in rows[i].location && rows[i].statements >= 0 && rows[i].executions >= 0)
    ensures profile.Some? ==> Summarizes(rows, profile.value)
  {
    hide Acceptable, Describes, Totals;
    var blocks := MergeRows(rows);
    if blocks == None {
      return None;
    }
    var summary := SumBlocks(blocks.value);
    profile := Some(summary);
    AcceptedRows(rows);
  }

  // ----- what follows for the numbers

  ghost predicate Nonnegative(blocks: map<string, Block>) {
    forall l :: l in blocks ==> blocks[l].statements >= 0
  }

  lemma BlocksNonnegative(rows: seq<Row>, blocks: map<string, Block>)
    requires Acceptable(rows) && Describes(rows, blocks)
    ensures Nonnegative(blocks)
  {
    forall l | l in blocks ensures blocks[l].statements >= 0 {
      assert Names(rows, l, blocks[l].statements);
    }
  }

  /** The total is the sum over the packages; in it, and in every package, covered does not
      exceed statements. */
  lemma TotalIsPackageSum(rows: seq<Row>, profile: Profile)
    requires Acceptable(rows) && Summarizes(rows, profile)
    ensures profile.total == Sum(profile.packages.Keys, PackageWeight(profile.packages))
    ensures profile.total.Sane() && forall p :: p in profile.packages ==> profile.packages[p].Sane()
  {
    hide Acceptable, Describes, PackageWeight, Home;
    var blocks :| Describes(rows, blocks) && Totals(blocks, profile);
    BlocksNonnegative(rows, blocks);
    TotalsAddUp(blocks, profile);
    TotalsSane(blocks, profile);
  }

  lemma TotalsAddUp(blocks: map<string, Block>, profile: Profile)
    requires Totals(blocks, profile)
    ensures profile.total == Sum(profile.packages.Keys, PackageWeight(profile.packages))
  {
    PackagesSumUp(blocks.Keys, BlockWeight(blocks), profile.packages, profile.packages.Keys);
    assert InPackages(blocks.Keys, profile.packages.Keys) == blocks.Keys;
  }

  lemma TotalsSane(blocks: map<string, Block>, profile: Profile)
    requires Totals(blocks, profile) && Nonnegative(blocks)
    ensures profile.total.Sane() && forall p :: p in profile.packages ==> profile.packages[p].Sane()
  {
    var w := BlockWeight(blocks);
    SumSane(blocks.Keys, w);
    forall p | p in profile.packages ensures profile.packages[p].Sane() {
      SumSane(InPackage(blocks.Keys, p), w);
    }
  }

  /** The result does not depend on the order or the repetition of the rows. */
  lemma ProfileIgnoresOrder(a: seq<Row>, b: seq<Row>, p: Profile, q: Profile)
    requires SameRows(a, b) && Acceptable(a) && Summarizes(a, p) && Summarizes(b, q)
    ensures p == q
  {
    var x :| Describes(a, x) && Totals(x, p);
    var y :| Describes(b, y) && Totals(y, q);
    MergeIgnoresOrder(a, b, x, y);
    assert p.packages == q.packages by {
      PackagesDetermined(x, p, q);
    }
  }

  lemma PackagesDetermined(blocks: map<string, Block>, p: Profile, q: Profile)
    requires Totals(blocks, p) && Totals(blocks, q)
    ensures p.packages == q.packages
  {
    forall k | k in p.packages ensures k in q.packages && q.packages[k] == p.packages[k] {
      var l :| l in InPackage(blocks.Keys, k);
    }
    forall k | k in q.packages ensures k in p.packages {
      var l :| l in InPackage(blocks.Keys, k);
    }
  }

  // ----- the numbers read off the rows

  /** The sum of a count over a set of locations. */
  ghost function Count(locations: set<string>, n: string -> int): int
    decreases |locations|
  {
    if locations == {} then 0
    else
      var l :| l in locations;
      n(l) + Count(locations - {l}, n)
  }

  lemma {:induction false} AnyCountFirst(locations: set<string>, l: string, n: string -> int)
    requires l in locations
    ensures Count(locations, n) == n(l) + Count(locations - {l}, n)
    decreases |locations|
  {
    var k :| k in locations && Count(locations, n) == n(k) + Count(locations - {k}, n);
    if k != l {
      AnyCountFirst(locations - {k}, l, n);
      AnyCountFirst(locations - {l}, k, n);
      assert locations - {k} - {l} == locations - {l} - {k};
    }
  }

  /** The locations that the rows give, and those that some row says were executed. */
  ghost function Given(rows: seq<Row>): set<string> {
    set i | 0 <= i < |rows| && rows[i].Fields? :: rows[i].location
  }

  ghost function Executed(rows: seq<Row>): set<string> {
    set i | 0 <= i < |rows| && rows[i].Fields? && rows[i].executions > 0 :: rows[i].location
  }

  /** n gives each location the number of statements in its rows. */
  ghost predicate CountsStatements(rows: seq<Row>, n: string -> int) {
    forall i :: 0 <= i < |rows| && rows[i].Fields? ==> n(rows[i].location) == rows[i].statements
  }

  lemma {:induction false} SumCounts(names: set<string>, w: Weight, executed: set<string>, n: string -> int)
    requires forall l :: l in names ==> w(l) == Coverage(n(l), if l in executed then n(l) else 0)
    ensures Sum(names, w) == Coverage(Count(names, n), Count(names * executed, n))
    decreases |names|
  {
    if names == {} {
      assert names * executed == {};
    } else {
      var l :| l in names;
      AnyFirst(names, l, w);
      AnyCountFirst(names, l, n);
      SumCounts(names - {l}, w, executed, n);
      if l in executed {
        AnyCountFirst(names * executed, l, n);
        assert names * executed - {l} == (names - {l}) * executed;
      } else {
        assert names * executed == (names - {l}) * executed;
      }
    }
  }

  lemma WeightsCount(rows: seq<Row>, blocks: map<string, Block>, n: string -> int)
    requires Describes(rows, blocks) && CountsStatements(rows, n)
    ensures blocks.Keys == Given(rows)
    ensures forall l :: l in blocks ==> BlockWeight(blocks)(l) == Coverage(n(l), if l in Executed(rows) then n(l) else 0)
  {
    forall l | l in blocks
      ensures l in Given(rows) && BlockWeight(blocks)(l) == Coverage(n(l), if l in Executed(rows) then n(l) else 0)
    {
      assert Names(rows, l, blocks[l].statements);
      assert Executes(rows, l) <==> l in Executed(rows);
    }
  }

  /** The statements of the total are those of every location once, and the covered ones those
      of the executed locations; and so for each package, over the locations of the files
      directly in it. There is a package for each location, and no other. */
  lemma TotalCountsStatements(rows: seq<Row>, profile: Profile, n: string -> int)
    requires Summarizes(rows, profile) && CountsStatements(rows, n)
    ensures profile.total == Coverage(Count(Given(rows), n), Count(Given(rows) * Executed(rows), n))
    ensures forall p :: p in profile.packages ==>
      var here := set l | l in Given(rows) && Home(l) == p;
      profile.packages[p] == Coverage(Count(here, n), Count(here * Executed(rows), n))
    ensures forall p :: p in profile.packages <==> exists l :: l in Given(rows) && Home(l) == p
  {
    var blocks :| Describes(rows, blocks) && Totals(blocks, profile);
    var w := BlockWeight(blocks);
    WeightsCount(rows, blocks, n);
    hide Describes, Home, BlockWeight, Count, Sum, CountsStatements, Given, Executed;
    SumCounts(blocks.Keys, w, Executed(rows), n);
    forall p | p in profile.packages
      ensures var here := set l | l in Given(rows) && Home(l) == p;
              profile.packages[p] == Coverage(Count(here, n), Count(here * Executed(rows), n)) && exists l :: l in Given(rows) && Home(l) == p
    {
      var here := set l | l in Given(rows) && Home(l) == p;
      assert here == InPackage(blocks.Keys, p);
      SumCounts(here, w, Executed(rows), n);
      var l :| l in here;
    }
  }

  /** The file of a location is what stands before its first colon. */
  lemma {:induction false} FileExactly(location: string, file: string)
    requires ':' in location
    ensures FileOf(location) == file <==> exists rest :: location == file + ":" + rest && ':' !in file
  {
    BeforeFirstSplits(location, ':');
    var first := FileOf(location);
    assert location == first + ":" + location[|first| + 1..];
    if rest :| location == file + ":" + rest && ':' !in file {
      assert location[|first|] == ':' && location[|file|] == ':';
      assert forall k :: 0 <= k < |first| ==> location[k] == first[k];
      assert forall k :: 0 <= k < |file| ==> location[k] == file[k];
      assert |first| == |file|;
      assert first == location[..|first|] == location[..|file|] == file;
    }
  }

  lemma {:induction false} BeforeFirstSplits(s: string, c: char)
    requires c in s
    ensures var b := BeforeFirst(s, c); c !in b && |b| < |s| && s[..|b|] == b && s[|b|] == c
  {
    if s[0] != c {
      assert s == [s[0]] + s[1..];
      BeforeFirstSplits(s[1..], c);
      var b := BeforeFirst(s[1..], c);
      assert s[..|b| + 1] == [s[0]] + s[1..][..|b|];
    }
  }

  lemma {:induction false} BeforeLastSplits(s: string, c: char)
    requires c in s
    ensures var b := BeforeLast(s, c); |b| < |s| && s[..|b|] == b && s[|b|] == c && c !in s[|b| + 1..]
  {
    var n := |s| - 1;
    if s[n] != c {
      assert s == s[..n] + [s[n]];
      BeforeLastSplits(s[..n], c);
      var b := BeforeLast(s[..n], c);
      assert s[..n][..|b|] == s[..|b|];
      assert s[|b| + 1..] == s[..n][|b| + 1..] + [s[n]];
    }
  }

  /** The package of a file is what stands before its last slash, and "." without one. */
  lemma PackageExactly(file: string, package: string)
    ensures '/' in file ==> (PackageOf(file) == package <==> exists base :: file == package + "/" + base && '/' !in base)
    ensures '/' !in file ==> PackageOf(file) == "."
  {
    if '/' in file {
      BeforeLastSplits(file, '/');
      var last := PackageOf(file);
      assert file == last + "/" + file[|last| + 1..];
      if base :| file == package + "/" + base && '/' !in base {
        hide PackageOf, BeforeLast;
        SplitOnce(last, file[|last| + 1..], package, base);
      }
    }
  }

  lemma SplitOnce(a: string, x: string, b: string, y: string)
    requires a + "/" + x == b + "/" + y && '/' !in x && '/' !in y
    ensures a == b
  {
    var s := a + "/" + x;
    assert s[|a|] == '/' && s[|b|] == '/';
    assert forall k :: |a| < k < |s| ==> s[k] == x[k - |a| - 1];
    assert forall k :: |b| < k < |s| ==> s[k] == y[k - |b| - 1];
    assert |a| == |b|;
    assert a == s[..|a|] && b == s[..|b|];
  }

  ghost predicate Rooted(pattern: string, root: string, slashes: string) {
    && pattern == root + slashes + "/..." && (forall i :: 0 <= i < |slashes| ==> slashes[i] == '/')
    && (root == "" || root[|root| - 1] != '/')
  }

  /** The root of a subtree pattern is the pattern without its end and the slashes before that. */
  lemma RootExactly(pattern: string, root: string)
    requires IsSubtree(pattern)
    ensures Root(pattern) == root <==> exists slashes :: Rooted(pattern, root, slashes)
  {
    RootSplits(pattern);
    if slashes :| Rooted(pattern, root, slashes) {
      WithoutEnd(root + slashes);
      StrippedUnique(root, slashes);
    }
  }

  lemma WithoutEnd(s: string)
    ensures (s + "/...")[..|s + "/..."| - 4] == s
  {
  }

  lemma RootSplits(pattern: string)
    requires IsSubtree(pattern)
    ensures exists slashes :: Rooted(pattern, Root(pattern), slashes)
  {
    var s := pattern[..|pattern| - 4];
    assert pattern == s + "/...";
    StrippedSplits(s);
    var slashes := s[|Stripped(s)|..];
    assert s == Stripped(s) + slashes;
    assert Rooted(pattern, Root(pattern), slashes);
  }

  lemma {:induction false} StrippedSplits(s: string)
    ensures Stripped(s) <= s && (forall i :: |Stripped(s)| <= i < |s| ==> s[i] == '/') && (Stripped(s) == "" || Stripped(s)[|Stripped(s)| - 1] != '/')
  {
    if s != "" && s[|s| - 1] == '/' {
      StrippedSplits(s[..|s| - 1]);
    }
  }

  lemma {:induction false} StrippedUnique(root: string, slashes: string)
    requires (forall i :: 0 <= i < |slashes| ==> slashes[i] == '/') && (root == "" || root[|root| - 1] != '/')
    ensures Stripped(root + slashes) == root
    decreases |slashes|
  {
    if slashes == "" {
      assert root + slashes == root;
    } else {
      var fewer := slashes[..|slashes| - 1];
      assert (root + slashes)[..|root + slashes| - 1] == root + fewer;
      StrippedUnique(root, fewer);
    }
  }

  // ----- package patterns

  /** Whether a pattern asks for a subtree, and its root without trailing slashes. */
  predicate IsSubtree(pattern: string) {
    |pattern| >= 4 && pattern[|pattern| - 4..] == "/..."
  }

  function Stripped(s: string): string {
    if s != "" && s[|s| - 1] == '/' then Stripped(s[..|s| - 1]) else s
  }

  function Root(pattern: string): string
    requires IsSubtree(pattern)
  {
    Stripped(pattern[..|pattern| - 4])
  }

  predicate Under(package: string, root: string) {
    package == root || (root + "/") <= package
  }

  predicate Matches(package: string, pattern: string) {
    if IsSubtree(pattern) then Under(package, Root(pattern)) else package == pattern
  }

  function Matching(packages: map<string, Coverage>, pattern: string): set<string> {
    set p | p in packages && Matches(p, pattern)
  }

  /** matching_coverage: the sum over the packages that match. */
  method MatchingCoverage(packages: map<string, Coverage>, pattern: string) returns (matched: Coverage)
    ensures matched == Sum(Matching(packages, pattern), PackageWeight(packages))
  {
    ghost var w := PackageWeight(packages);
    if IsSubtree(pattern) {
      var prefix := Root(pattern);
      matched := NOTHING;
      var rest := packages.Keys;
      ghost var done: set<string> := {};
      while rest != {}
        invariant rest <= packages.Keys
        invariant done == set p | p in packages && p !in rest && Matches(p, pattern)
        invariant matched == Sum(done, w)
        decreases rest
      {
        var package :| package in rest;
        if package == prefix || (prefix + "/") <= package {
          Added(done, package, w);
          matched := matched.Plus(packages[package]);
          done := done + {package};
        }
        rest := rest - {package};
      }
      assert done == Matching(packages, pattern);
    } else {
      matched := if pattern in packages then packages[pattern] else NOTHING;
      ExactMatch(packages, pattern);
    }
  }

  lemma ExactMatch(packages: map<string, Coverage>, pattern: string)
    requires !IsSubtree(pattern)
    ensures Sum(Matching(packages, pattern), PackageWeight(packages)) == PackageWeight(packages)(pattern)
  {
    var w := PackageWeight(packages);
    if pattern in packages {
      assert Matching(packages, pattern) == {} + {pattern};
      Added({}, pattern, w);
    } else {
      assert Matching(packages, pattern) == {};
    }
  }

  /** Two subtrees share a package only if the root of one lies in the other. */
  lemma SubtreesApart(package: string, a: string, b: string)
    requires Under(package, a) && Under(package, b)
    ensures Under(a, b) || Under(b, a)
  {
    if package != a && package != b {
      if |a| <= |b| {
        assert b == package[..|b|] && a == package[..|a|] && package[|a|] == '/';
        if |a| < |b| { assert (a + "/") == package[..|a| + 1] == b[..|a| + 1]; }
      } else {
        assert a == package[..|a|] && b == package[..|b|] && package[|b|] == '/';
        assert (b + "/") == package[..|b| + 1] == a[..|b| + 1];
      }
    }
  }

  ghost predicate Disjoint(packages: map<string, Coverage>, patterns: seq<string>) {
    forall i, j :: 0 <= i < j < |patterns| ==> Matching(packages, patterns[i]) !! Matching(packages, patterns[j])
  }

  ghost function MatchingAny(packages: map<string, Coverage>, patterns: seq<string>): set<string> {
    set p | p in packages && exists i :: 0 <= i < |patterns| && p in Matching(packages, patterns[i])
  }

  ghost function PatternSum(packages: map<string, Coverage>, patterns: seq<string>): Coverage {
    if patterns == [] then NOTHING
    else
      var last := |patterns| - 1;
      PatternSum(packages, patterns[..last]).Plus(Sum(Matching(packages, patterns[last]), PackageWeight(packages)))
  }

  lemma {:induction false} PatternSumIsUnion(packages: map<string, Coverage>, patterns: seq<string>)
    requires Disjoint(packages, patterns)
    ensures PatternSum(packages, patterns) == Sum(MatchingAny(packages, patterns), PackageWeight(packages))
  {
    if patterns == [] {
      assert MatchingAny(packages, patterns) == {};
    } else {
      var last := |patterns| - 1;
      PatternSumIsUnion(packages, patterns[..last]);
      UnionGrows(packages, patterns);
      SumSplits(MatchingAny(packages, patterns[..last]), Matching(packages, patterns[last]), PackageWeight(packages));
    }
  }

  lemma UnionGrows(packages: map<string, Coverage>, patterns: seq<string>)
    requires patterns != [] && Disjoint(packages, patterns)
    ensures var last := |patterns| - 1;
            && MatchingAny(packages, patterns) == MatchingAny(packages, patterns[..last]) + Matching(packages, patterns[last])
            && MatchingAny(packages, patterns[..last]) !! Matching(packages, patterns[last])
  {
    hide Matching;
    var last := |patterns| - 1;
    forall p | p in MatchingAny(packages, patterns[..last]) ensures p in MatchingAny(packages, patterns) && p !in Matching(packages, patterns[last]) {
      var i :| 0 <= i < last && p in Matching(packages, patterns[..last][i]);
      assert p in Matching(packages, patterns[i]);
    }
    forall p | p in MatchingAny(packages, patterns) ensures p in MatchingAny(packages, patterns[..last]) || p in Matching(packages, patterns[last]) {
      var i :| 0 <= i < |patterns| && p in Matching(packages, patterns[i]);
      if i < last { assert p in Matching(packages, patterns[..last][i]); }
    }
    assert forall p :: p in Matching(packages, patterns[last]) ==> p in packages by { MatchingKnown(packages, patterns[last]); }
  }

  lemma MatchingKnown(packages: map<string, Coverage>, pattern: string)
    ensures Matching(packages, pattern) <= packages.Keys
  {
  }

  /** Patterns that share no package never sum to more than the total. */
  lemma DisjointAtMostTotal(rows: seq<Row>, profile: Profile, patterns: seq<string>)
    requires Acceptable(rows) && Summarizes(rows, profile) && Disjoint(profile.packages, patterns)
    ensures PatternSum(profile.packages, patterns).AtMost(profile.total)
  {
    TotalIsPackageSum(rows, profile);
    PatternSumIsUnion(profile.packages, patterns);
    SumMonotone(MatchingAny(profile.packages, patterns), profile.packages.Keys, PackageWeight(profile.packages));
  }
}
