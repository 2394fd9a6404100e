/**
 * The metrics of `KPIDashboard.jsx`: synergy groups are bucketed by their
 * capacity scenario into four disjoint categories; each card counts its
 * groups and sums the enrolment of their courses, in total and per
 * provider; a per-scenario breakdown and a cross-check flag groups that no
 * card counts.
 */
module KpiDashboard {

  import opened Sorting
  import opened Records
  import SynergyEngine

  // ---------------------------------------------------------------------
  // Categories
  // ---------------------------------------------------------------------

  /** One card: its key, its caption and the scenario types it gathers. */
  datatype Category = Category(key: string, caption: string, scenarios: seq<string>)

  /** `CATEGORIES`, without the presentation fields. */
  const Categories: seq<Category> := [
    Category("recommended", "RECOMENDADA", ["optimal", "permuted"]),
    Category("possible", "POSIBLE", ["reference_potential"]),
    Category("unlikely", "IMPROBABLE", ["reference_unlikely"]),
    Category("not_recommended", "NO RECOMENDADA", ["overflow"])
  ]

  /** `ALL_KNOWN_SCENARIOS` */
  const AllKnownScenarios: seq<string> := ["optimal", "permuted", "reference_potential", "reference_unlikely", "overflow"]

  /** The four lists are pairwise disjoint and together hold exactly the known scenarios. */
  lemma {:induction false} CategoriesPartition()
    ensures forall i, j, s :: 0 <= i < j < |Categories| && s in Categories[i].scenarios ==> s !in Categories[j].scenarios
    ensures forall s :: s in AllKnownScenarios <==> exists i :: 0 <= i < |Categories| && s in Categories[i].scenarios
  {
    forall s | s in AllKnownScenarios ensures exists i :: 0 <= i < |Categories| && s in Categories[i].scenarios {
      if s in Categories[0].scenarios {
      } else if s in Categories[1].scenarios {
      } else if s in Categories[2].scenarios {
      } else {
        assert s in Categories[3].scenarios;
      }
    }
  }

  /** `item.type === 'group'` */
  predicate IsGroup(item: Item) {
    item.Group?
  }

  /** `cat.scenarios.includes(g.scenarioType)`; an absent type is in no list. */
  predicate InCategory(cat: Category, g: Item) {
    g.Group? && g.scenarioType.Some? && g.scenarioType.value in cat.scenarios
  }

  /** The test `InCategory(cat, _)` as a filter predicate. */
  function InCategoryTest(cat: Category): Item -> bool {
    (g: Item) => InCategory(cat, g)
  }

  /** A group whose scenario type is one of the known ones. */
  predicate Known(g: Item) {
    g.Group? && g.scenarioType.Some? && g.scenarioType.value in AllKnownScenarios
  }

  // ---------------------------------------------------------------------
  // Per-card metrics
  // ---------------------------------------------------------------------

  /** One card's figures. */
  datatype Metrics = Metrics(key: string, groupCount: nat, totalAlumnos: int, aspyAlumnos: int, masAlumnos: int)

  /** Every course. */
  function AnyCourse(): Course -> bool {
    (c: Course) => true
  }

  /** The test `c.source === name`. */
  function FromSource(name: string): Course -> bool {
    (c: Course) => SourceName(c.source) == name
  }

  /** The enrolment summed over the courses that pass `pick`. */
  function Students(cs: seq<Course>, pick: Course -> bool): int {
    if cs == [] then 0
    else Students(cs[..|cs| - 1], pick) + (if pick(cs[|cs| - 1]) then cs[|cs| - 1].inscritos else 0)
  }

  /** The enrolment summed over the picked courses of every group. */
  function GroupStudents(groups: seq<Item>, pick: Course -> bool): int {
    if groups == [] then 0
    else GroupStudents(groups[..|groups| - 1], pick) + Students(Members(groups[|groups| - 1]), pick)
  }

  /** `data.filter(item => item.type === 'group')` */
  function AllGroups(data: seq<Item>): seq<Item> {
    Filter(data, IsGroup)
  }

  /** One card's figures over the groups. */
  function CategoryMetrics(cat: Category, groups: seq<Item>): Metrics {
    var matching := Filter(groups, InCategoryTest(cat));
    Metrics(cat.key, |matching|,
      GroupStudents(matching, AnyCourse()),
      GroupStudents(matching, FromSource("ASPY")),
      GroupStudents(matching, FromSource("MAS")))
  }

  /** `CATEGORIES.map(...)` over the groups. */
  function MetricsFor(cats: seq<Category>, groups: seq<Item>): (r: seq<Metrics>)
    ensures |r| == |cats|
  {
    if cats == [] then [] else [CategoryMetrics(cats[0], groups)] + MetricsFor(cats[1..], groups)
  }

  /** The dashboard's cards for the data. */
  function DashboardMetrics(data: seq<Item>): seq<Metrics> {
    MetricsFor(Categories, AllGroups(data))
  }

  /** The inner `forEach` over one group's courses: the enrolment in total, for ASPY and for MAS. */
  method SumStudents(cs: seq<Course>) returns (total: int, aspy: int, mas: int)
    ensures total == Students(cs, AnyCourse())
    ensures aspy == Students(cs, FromSource("ASPY"))
    ensures mas == Students(cs, FromSource("MAS"))
  {
    total, aspy, mas := 0, 0, 0;
    var j := 0;
    while j < |cs|
      invariant 0 <= j <= |cs|
      invariant total == Students(cs[..j], AnyCourse())
      invariant aspy == Students(cs[..j], FromSource("ASPY"))
      invariant mas == Students(cs[..j], FromSource("MAS"))
    {
      var c := cs[j];
      assert cs[..j + 1][..j] == cs[..j] && cs[..j + 1][j] == c;
      var ins := c.inscritos;
      total := total + ins;
      if SourceName(c.source) == "ASPY" {
        aspy := aspy + ins;
      }
      if SourceName(c.source) == "MAS" {
        mas := mas + ins;
      }
      j := j + 1;
    }
    assert cs[..|cs|] == cs;
  }

  /** The outer `forEach` over a card's matching groups. */
  method SumGroups(matching: seq<Item>) returns (total: int, aspy: int, mas: int)
    ensures total == GroupStudents(matching, AnyCourse())
    ensures aspy == GroupStudents(matching, FromSource("ASPY"))
    ensures mas == GroupStudents(matching, FromSource("MAS"))
  {
    total, aspy, mas := 0, 0, 0;
    var i := 0;
    while i < |matching|
      invariant 0 <= i <= |matching|
      invariant total == GroupStudents(matching[..i], AnyCourse())
      invariant aspy == GroupStudents(matching[..i], FromSource("ASPY"))
      invariant mas == GroupStudents(matching[..i], FromSource("MAS"))
    {
      var t, a, ms := SumStudents(Members(matching[i]));
      assert matching[..i + 1][..i] == matching[..i] && matching[..i + 1][i] == matching[i];
      total, aspy, mas := total + t, aspy + a, mas + ms;
      i := i + 1;
    }
    assert matching[..|matching|] == matching;
  }

  /** One card: the groups whose scenario is in the category, counted, and their enrolment summed. */
  method ComputeCategory(cat: Category, groups: seq<Item>) returns (m: Metrics)
    ensures m == CategoryMetrics(cat, groups)
  {
    var matching := Filter(groups, InCategoryTest(cat));
    var total, aspy, mas := SumGroups(matching);
    m := Metrics(cat.key, |matching|, total, aspy, mas);
  }

  /** `cats.map(...)`: one card per category, in order. */
  method ComputeCards(cats: seq<Category>, groups: seq<Item>) returns (metrics: seq<Metrics>)
    ensures metrics == MetricsFor(cats, groups)
  {
    metrics := [];
    var k := 0;
    while k < |cats|
      invariant 0 <= k <= |cats|
      invariant metrics + MetricsFor(cats[k..], groups) == MetricsFor(cats, groups)
    {
      var m := ComputeCategory(cats[k], groups);
      assert cats[k..][1..] == cats[k + 1..];
      metrics := metrics + [m];
      k := k + 1;
    }
  }

  /** The `useMemo` body: the groups, then one card per category. */
  method ComputeMetrics(data: seq<Item>) returns (metrics: seq<Metrics>)
    ensures metrics == DashboardMetrics(data)
  {
    var groups := AllGroups(data);
    metrics := ComputeCards(Categories, groups);
  }

  /** Every course is from ASPY or from MAS, so the two provider sums make up the total. */
  lemma {:induction false} StudentsSplit(cs: seq<Course>)
    ensures Students(cs, FromSource("ASPY")) + Students(cs, FromSource("MAS")) == Students(cs, AnyCourse())
  {
    if cs != [] {
      StudentsSplit(cs[..|cs| - 1]);
    }
  }

  /** The provider sums of a card add up to its total. */
  lemma {:induction false} GroupStudentsSplit(groups: seq<Item>)
    ensures GroupStudents(groups, FromSource("ASPY")) + GroupStudents(groups, FromSource("MAS")) == GroupStudents(groups, AnyCourse())
  {
    if groups != [] {
      GroupStudentsSplit(groups[..|groups| - 1]);
      StudentsSplit(Members(groups[|groups| - 1]));
    }
  }

  /** On every card, ASPY students plus MAS students is the card's total. */
  lemma {:induction false} CardTotals(data: seq<Item>)
    ensures forall k :: 0 <= k < |DashboardMetrics(data)| ==>
      DashboardMetrics(data)[k].aspyAlumnos + DashboardMetrics(data)[k].masAlumnos == DashboardMetrics(data)[k].totalAlumnos
  {
    var groups := AllGroups(data);
    forall k | 0 <= k < |DashboardMetrics(data)|
      ensures DashboardMetrics(data)[k].aspyAlumnos + DashboardMetrics(data)[k].masAlumnos == DashboardMetrics(data)[k].totalAlumnos
    {
      MetricsForAt(Categories, groups, k);
      GroupStudentsSplit(Filter(groups, InCategoryTest(Categories[k])));
    }
  }

  /** The card at position `k` is the one for the `k`-th category. */
  lemma {:induction false} MetricsForAt(cats: seq<Category>, groups: seq<Item>, k: nat)
    requires k < |cats|
    ensures MetricsFor(cats, groups)[k] == CategoryMetrics(cats[k], groups)
  {
    if k > 0 {
      MetricsForAt(cats[1..], groups, k - 1);
    }
  }

  /** Items that are not groups are never counted: removing a single course changes no card. */
  lemma {:induction false} SinglesIgnored(before: seq<Item>, c: Course, after: seq<Item>)
    ensures DashboardMetrics(before + [Single(c)] + after) == DashboardMetrics(before + after)
  {
    FilterAppend(before + [Single(c)], after, IsGroup);
    FilterAppend(before, [Single(c)], IsGroup);
    FilterAppend(before, after, IsGroup);
    assert [Single(c)][1..] == [];
    assert Filter([Single(c)], IsGroup) == [];
    assert AllGroups(before + [Single(c)] + after) == AllGroups(before + after);
  }

  // ---------------------------------------------------------------------
  // Cross-check
  // ---------------------------------------------------------------------

  /** `computedMetrics.reduce((s, m) => s + m.groupCount, 0)` */
  function SumGroupCounts(metrics: seq<Metrics>): nat {
    if metrics == [] then 0 else metrics[0].groupCount + SumGroupCounts(metrics[1..])
  }

  /** The number of categories in `cats` that take the group. */
  function Hits(cats: seq<Category>, g: Item): nat {
    if cats == [] then 0 else (if InCategory(cats[0], g) then 1 else 0) + Hits(cats[1..], g)
  }

  /** A known group is on exactly one card, any other group on none. */
  lemma {:induction false} HitsKnown(g: Item)
    ensures Hits(Categories, g) == if Known(g) then 1 else 0
  {
    var c := Categories;
    assert Hits(c[3..], g) == (if InCategory(c[3], g) then 1 else 0) by {
      assert c[3..][0] == c[3] && c[3..][1..] == [];
    }
    assert Hits(c[2..], g) == (if InCategory(c[2], g) then 1 else 0) + Hits(c[3..], g) by {
      assert c[2..][0] == c[2] && c[2..][1..] == c[3..];
    }
    assert Hits(c[1..], g) == (if InCategory(c[1], g) then 1 else 0) + Hits(c[2..], g) by {
      assert c[1..][0] == c[1] && c[1..][1..] == c[2..];
    }
  }

  /** One more group adds to the counted total the number of cards that take it. */
  lemma {:induction false} CountStep(cats: seq<Category>, groups: seq<Item>, g: Item)
    ensures SumGroupCounts(MetricsFor(cats, groups + [g])) == SumGroupCounts(MetricsFor(cats, groups)) + Hits(cats, g)
  {
    if cats != [] {
      CountStep(cats[1..], groups, g);
      FilterAppend(groups, [g], InCategoryTest(cats[0]));
    }
  }

  /** The cards together count exactly the groups of known scenario type. */
  lemma {:induction false} CountedAreKnown(groups: seq<Item>)
    ensures SumGroupCounts(MetricsFor(Categories, groups)) == |Filter(groups, Known)|
  {
    if groups == [] {
      CountedNone(Categories);
    } else {
      var init, g := groups[..|groups| - 1], groups[|groups| - 1];
      assert groups == init + [g];
      CountedAreKnown(init);
      CountStep(Categories, init, g);
      HitsKnown(g);
      FilterAppend(init, [g], Known);
    }
  }

  /** With no groups every card counts zero. */
  lemma {:induction false} CountedNone(cats: seq<Category>)
    ensures SumGroupCounts(MetricsFor(cats, [])) == 0
  {
    if cats != [] {
      CountedNone(cats[1..]);
    }
  }

  /** The cross-check passes exactly when every group has a known scenario type. */
  lemma {:induction false} CrossCheck(data: seq<Item>)
    ensures SumGroupCounts(DashboardMetrics(data)) == |AllGroups(data)| <==>
      forall g :: g in AllGroups(data) ==> Known(g)
  {
    CountedAreKnown(AllGroups(data));
    FilterAll(AllGroups(data), Known);
  }

  // ---------------------------------------------------------------------
  // Scenario breakdown
  // ---------------------------------------------------------------------

  /** `g.scenarioType || 'UNDEFINED'` */
  function ScenarioLabel(g: Item): string {
    if g.Group? && g.scenarioType.Some? && g.scenarioType.value != "" then g.scenarioType.value else "UNDEFINED"
  }

  /** The test `ScenarioLabel(g) == st`. */
  function HasLabel(st: string): Item -> bool {
    (g: Item) => ScenarioLabel(g) == st
  }

  /** `scenarioBreakdown`: how many groups carry each label. */
  function Breakdown(groups: seq<Item>): map<string, nat> {
    if groups == [] then map[]
    else
      var m := Breakdown(groups[..|groups| - 1]);
      var st := ScenarioLabel(groups[|groups| - 1]);
      m[st := (if st in m then m[st] else 0) + 1]
  }

  /** The forEach that fills `scenarioBreakdown`. */
  method ScenarioBreakdown(groups: seq<Item>) returns (breakdown: map<string, nat>)
    ensures breakdown == Breakdown(groups)
  {
    breakdown := map[];
    var i := 0;
    while i < |groups|
      invariant 0 <= i <= |groups|
      invariant breakdown == Breakdown(groups[..i])
    {
      assert groups[..i + 1][..i] == groups[..i];
      var st := ScenarioLabel(groups[i]);
      if st !in breakdown {
        breakdown := breakdown[st := 0];
      }
      breakdown := breakdown[st := breakdown[st] + 1];
      i := i + 1;
    }
    assert groups[..|groups|] == groups;
  }

  /** The breakdown has a key for each label present, holding the number of groups with it. */
  lemma {:induction false} BreakdownCounts(groups: seq<Item>)
    ensures forall st :: st in Breakdown(groups) <==> exists k :: 0 <= k < |groups| && ScenarioLabel(groups[k]) == st
    ensures forall st :: st in Breakdown(groups) ==> Breakdown(groups)[st] == |Filter(groups, HasLabel(st))|
  {
    if groups != [] {
      var init, g := groups[..|groups| - 1], groups[|groups| - 1];
      assert groups == init + [g];
      BreakdownCounts(init);
      forall st ensures |Filter(groups, HasLabel(st))| == |Filter(init, HasLabel(st))| + (if ScenarioLabel(g) == st then 1 else 0) {
        FilterAppend(init, [g], HasLabel(st));
      }
      forall st | st !in Breakdown(init) ensures |Filter(init, HasLabel(st))| == 0 {
        FilterNoneLabel(init, st);
      }
      forall st ensures st in Breakdown(groups) <==> exists k :: 0 <= k < |groups| && ScenarioLabel(groups[k]) == st {
        if exists k :: 0 <= k < |init| && ScenarioLabel(init[k]) == st {
          var k :| 0 <= k < |init| && ScenarioLabel(init[k]) == st;
          assert groups[k] == init[k];
        }
        if exists k :: 0 <= k < |groups| && ScenarioLabel(groups[k]) == st {
          var k :| 0 <= k < |groups| && ScenarioLabel(groups[k]) == st;
          if k < |init| {
            assert init[k] == groups[k];
          }
        }
      }
    }
  }

  /** No group carries a label the breakdown does not have. */
  lemma {:induction false} FilterNoneLabel(groups: seq<Item>, st: string)
    requires forall k :: 0 <= k < |groups| ==> ScenarioLabel(groups[k]) != st
    ensures |Filter(groups, HasLabel(st))| == 0
  {
    forall x | x in groups ensures !HasLabel(st)(x) {
      var k :| 0 <= k < |groups| && groups[k] == x;
    }
    FilterNone(groups, HasLabel(st));
  }

  /** The labels the dashboard warns about: those that are not known scenarios. */
  function Unrecognized(breakdown: map<string, nat>): set<string> {
    set st | st in breakdown && st !in AllKnownScenarios
  }

  /** A group's label is unknown exactly when the group is not of a known scenario type. */
  lemma {:induction false} LabelKnown(g: Item)
    requires g.Group?
    ensures ScenarioLabel(g) in AllKnownScenarios <==> Known(g)
  {
    assert "UNDEFINED" !in AllKnownScenarios;
    assert "" !in AllKnownScenarios;
  }

  /** The dashboard warns about an unrecognised scenario exactly when its cross-check fails. */
  lemma {:induction false} WarningIffMismatch(data: seq<Item>)
    ensures Unrecognized(Breakdown(AllGroups(data))) != {} <==> SumGroupCounts(DashboardMetrics(data)) != |AllGroups(data)|
  {
    var groups := AllGroups(data);
    CrossCheck(data);
    BreakdownCounts(groups);
    FilterMembers(data, IsGroup);
    if Unrecognized(Breakdown(groups)) != {} {
      var st :| st in Unrecognized(Breakdown(groups));
      var k :| 0 <= k < |groups| && ScenarioLabel(groups[k]) == st;
      assert groups[k] in groups;
      LabelKnown(groups[k]);
    }
    if exists g :: g in groups && !Known(g) {
      var g :| g in groups && !Known(g);
      LabelKnown(g);
      var k :| 0 <= k < |groups| && groups[k] == g;
      assert ScenarioLabel(g) in Unrecognized(Breakdown(groups));
    }
  }

  // ---------------------------------------------------------------------
  // The dashboard over the engine's list
  // ---------------------------------------------------------------------

  /** The groups the engine proposes are built without a scenario type. */
  lemma {:induction false} ProposedGroupsUnclassified(courses: seq<Course>)
    ensures forall g :: g in SynergyEngine.Optimizations(courses) ==> g.Group? && g.scenarioType.None?
  {
    SynergyEngine.GroupsAreValid(courses);
  }

  /** Every group in the list before its final sort is one the engine proposed. */
  lemma {:induction false} StructureGroupsUnclassified(courses: seq<Course>)
    ensures forall g :: g in SynergyEngine.Structure(courses) && g.Group? ==> g.scenarioType.None?
  {
    var groups := SynergyEngine.Optimizations(courses);
    var rest := SynergyEngine.Singles(Filter(courses, Not(SynergyEngine.InIds(SynergyEngine.GroupedIds(groups)))));
    assert SynergyEngine.Structure(courses) == groups + rest;
    ProposedGroupsUnclassified(courses);
    forall g | g in rest ensures !g.Group? {
      var k :| 0 <= k < |rest| && rest[k] == g;
    }
  }

  /** Every group in the engine's presentation list is one of the groups it proposed. */
  lemma {:induction false} ProcessedGroupsUnclassified(courses: seq<Course>)
    ensures forall g :: g in SynergyEngine.ProcessedList(courses) && g.Group? ==> g.scenarioType.None?
    ensures SynergyEngine.Optimizations(courses) != [] <==>
      exists g :: g in SynergyEngine.ProcessedList(courses) && g.Group?
  {
    var groups := SynergyEngine.Optimizations(courses);
    var data := SynergyEngine.ProcessedList(courses);
    if groups == [] {
      assert data == SynergyEngine.Singles(courses);
      forall g | g in data ensures !g.Group? {
        var k :| 0 <= k < |data| && data[k] == g;
      }
    } else {
      var structure := SynergyEngine.Structure(courses);
      assert data == SortBy(structure, SynergyEngine.ItemLeq);
      assert multiset(data) == multiset(structure);
      StructureGroupsUnclassified(courses);
      forall g | g in data && g.Group? ensures g.scenarioType.None? {
        assert g in multiset(structure);
      }
      ProposedGroupsUnclassified(courses);
      assert groups[0] in structure;
      assert groups[0] in multiset(data);
    }
  }

  /**
   * The groups `processCourseListWithGroups` proposes carry no scenario type:
   * no card counts them, and the dashboard warns about an unrecognised type
   * exactly when the engine proposed at least one group.
   */
  lemma {:induction false} EngineGroupsUncounted(courses: seq<Course>)
    ensures SumGroupCounts(DashboardMetrics(SynergyEngine.ProcessedList(courses))) == 0
    ensures Unrecognized(Breakdown(AllGroups(SynergyEngine.ProcessedList(courses)))) != {} <==>
      SynergyEngine.Optimizations(courses) != []
  {
    EngineCardsEmpty(courses);
    EngineWarning(courses);
  }

  /** No card counts a group the engine proposed. */
  lemma {:induction false} EngineCardsEmpty(courses: seq<Course>)
    ensures SumGroupCounts(DashboardMetrics(SynergyEngine.ProcessedList(courses))) == 0
  {
    var data := SynergyEngine.ProcessedList(courses);
    ProcessedGroupsUnclassified(courses);
    FilterMembers(data, IsGroup);
    CountedAreKnown(AllGroups(data));
    FilterNone(AllGroups(data), Known);
  }

  /** The unrecognised-type warning shows exactly when the engine proposed a group. */
  lemma {:induction false} EngineWarning(courses: seq<Course>)
    ensures Unrecognized(Breakdown(AllGroups(SynergyEngine.ProcessedList(courses)))) != {} <==>
      SynergyEngine.Optimizations(courses) != []
  {
    var data := SynergyEngine.ProcessedList(courses);
    EngineCardsEmpty(courses);
    WarningIffMismatch(data);
    ProcessedGroupsUnclassified(courses);
    FilterMembers(data, IsGroup);
    if SynergyEngine.Optimizations(courses) == [] {
      FilterNone(data, IsGroup);
      assert AllGroups(data) == [];
    } else {
      var g :| g in data && g.Group?;
      assert g in AllGroups(data);
    }
  }
}
