/**
 * The list view of `App.jsx`: the filter state and its update
 * (`handleFilterChange`), the item filter (`filteredData` with its
 * `checkCourse` test), and the value lists offered by the filter bar
 * (`uniqueTitles`, `uniqueLocations`).
 */
module AppFilters {

  import opened Text
  import opened Sorting
  import opened Records

  // ---------------------------------------------------------------------
  // Filter state
  // ---------------------------------------------------------------------

  /**
   * The `filters` state. The date bounds are day numbers (`None` is an
   * empty field); `company` is 'ALL' or a provider name.
   */
  datatype Filters = Filters(
    search: string,
    startDate: Option<int>,
    endDate: Option<int>,
    location: string,
    company: string,
    showSynergiesOnly: bool)

  /** The state the page starts with. */
  const InitialFilters: Filters := Filters("", None, None, "", "ALL", false)

  /** One call `handleFilterChange(name, value)`: the field named and its new value. */
  datatype FilterChange =
    | SetSearch(search: string)
    | SetStartDate(startDate: Option<int>)
    | SetEndDate(endDate: Option<int>)
    | SetLocation(location: string)
    | SetCompany(company: string)
    | SetShowSynergiesOnly(show: bool)

  /**
   * `handleFilterChange`: the named field takes the value; a location that
   * is not blank also switches on the synergies-only view, and nothing else
   * changes.
   */
  function HandleFilterChange(prev: Filters, change: FilterChange): (next: Filters)
    ensures next.search == if change.SetSearch? then change.search else prev.search
    ensures next.startDate == if change.SetStartDate? then change.startDate else prev.startDate
    ensures next.endDate == if change.SetEndDate? then change.endDate else prev.endDate
    ensures next.location == if change.SetLocation? then change.location else prev.location
    ensures next.company == if change.SetCompany? then change.company else prev.company
    ensures next.showSynergiesOnly ==
      if change.SetShowSynergiesOnly? then change.show
      else if change.SetLocation? && Trim(change.location) != "" then true
      else prev.showSynergiesOnly
  {
    match change
    case SetSearch(v) => prev.(search := v)
    case SetStartDate(v) => prev.(startDate := v)
    case SetEndDate(v) => prev.(endDate := v)
    case SetLocation(v) =>
      var next := prev.(location := v);
      if v != "" && Trim(v) != "" then next.(showSynergiesOnly := true) else next
    case SetCompany(v) => prev.(company := v)
    case SetShowSynergiesOnly(v) => prev.(showSynergiesOnly := v)
  }

  /** Repeating a change changes nothing more. */
  lemma {:induction false} HandleFilterChangeIdempotent(prev: Filters, change: FilterChange)
    ensures HandleFilterChange(HandleFilterChange(prev, change), change) == HandleFilterChange(prev, change)
  {
  }

  // ---------------------------------------------------------------------
  // filteredData
  // ---------------------------------------------------------------------

  /** The search test: the lower-cased title or code contains the lower-cased search text. */
  predicate MatchesSearch(f: Filters, c: Course) {
    Contains(Lower(c.title), Lower(f.search)) || Contains(Lower(c.code), Lower(f.search))
  }

  /** `checkCourse(c)`: every filter that is set holds of the course. */
  predicate CheckCourse(f: Filters, c: Course) {
    && MatchesSearch(f, c)
    && (f.startDate.None? || c.startDate >= f.startDate.value)
    && (f.endDate.None? || c.startDate <= f.endDate.value)
    && (f.location == "" || c.ubicacion == f.location)
    && (f.company == "ALL" || SourceName(c.source) == f.company)
  }

  /** `courses.some(checkCourse)` */
  predicate SomePasses(f: Filters, courses: seq<Course>) {
    exists i :: 0 <= i < |courses| && CheckCourse(f, courses[i])
  }

  /** The test `data.filter` applies to each item. */
  predicate Keep(f: Filters, item: Item) {
    if f.showSynergiesOnly then item.Group? && SomePasses(f, item.courses)
    else if item.Group? then SomePasses(f, item.courses)
    else CheckCourse(f, item.course)
  }

  /** `filteredData` */
  function FilteredData(f: Filters, data: seq<Item>): seq<Item> {
    Filter(data, (item: Item) => Keep(f, item))
  }

  /** Empty search, no dates, empty location and company 'ALL' let every course through. */
  lemma {:induction false} CheckCourseNeutral(f: Filters, c: Course)
    requires f.search == "" && f.startDate.None? && f.endDate.None? && f.location == "" && f.company == "ALL"
    ensures CheckCourse(f, c)
  {
    assert Lower(f.search) == "";
    ContainsEmpty(Lower(c.title));
  }

  /** A set location or company demands exact equality with the course's own. */
  lemma {:induction false} CheckCourseExact(f: Filters, c: Course)
    requires CheckCourse(f, c)
    ensures f.location != "" ==> c.ubicacion == f.location
    ensures f.company != "ALL" ==> SourceName(c.source) == f.company
    ensures f.startDate.Some? ==> f.startDate.value <= c.startDate
    ensures f.endDate.Some? ==> c.startDate <= f.endDate.value
  {
  }

  /**
   * The result keeps the order of `data`; it holds exactly the items of
   * `data` that pass; a single course passes iff it passes `checkCourse`
   * (unless only synergies are shown), a group iff one of its courses does;
   * with synergies only, every item kept is a group.
   */
  lemma {:induction false} FilteredDataFacts(f: Filters, data: seq<Item>)
    ensures Subsequence(FilteredData(f, data), data)
    ensures forall x :: x in FilteredData(f, data) <==> x in data && Keep(f, x)
    ensures forall c :: Keep(f, Single(c)) <==> !f.showSynergiesOnly && CheckCourse(f, c)
    ensures forall id, cs, st :: Keep(f, Group(id, cs, st)) <==> SomePasses(f, cs)
    ensures f.showSynergiesOnly ==> forall x :: x in FilteredData(f, data) ==> x.Group?
  {
    FilterSubsequence(data, (item: Item) => Keep(f, item));
    FilterMembers(data, (item: Item) => Keep(f, item));
  }

  /** An item that is nothing but an empty group: nothing in it can pass. */
  predicate NonEmpty(item: Item) {
    item.Single? || item.courses != []
  }

  /** With the initial filters, every single course and every non-empty group is shown. */
  lemma {:induction false} InitialFiltersKeepAll(data: seq<Item>)
    ensures FilteredData(InitialFilters, data) == Filter(data, NonEmpty)
  {
    forall item | item in data ensures Keep(InitialFilters, item) == NonEmpty(item) {
      match item {
        case Single(c) =>
          CheckCourseNeutral(InitialFilters, c);
        case Group(_, cs, _) =>
          if cs != [] {
            CheckCourseNeutral(InitialFilters, cs[0]);
          }
      }
    }
    FilterExt(data, (item: Item) => Keep(InitialFilters, item), NonEmpty);
  }

  /** Showing synergies only narrows the list: its result is a subsequence of the full view's. */
  lemma {:induction false} SynergiesOnlyNarrows(f: Filters, data: seq<Item>)
    ensures Subsequence(FilteredData(f.(showSynergiesOnly := true), data), FilteredData(f.(showSynergiesOnly := false), data))
  {
    var only, all := f.(showSynergiesOnly := true), f.(showSynergiesOnly := false);
    FilterMonotone(data, (item: Item) => Keep(only, item), (item: Item) => Keep(all, item));
    assert FilteredData(only, data) == Filter(data, (item: Item) => Keep(only, item));
    assert FilteredData(all, data) == Filter(data, (item: Item) => Keep(all, item));
  }

  /**
   * After choosing a location, only groups remain, and each has a course at
   * that location.
   */
  lemma {:induction false} LocationChangeShowsGroups(prev: Filters, location: string, data: seq<Item>)
    requires Trim(location) != ""
    ensures var next := HandleFilterChange(prev, SetLocation(location));
      forall x :: x in FilteredData(next, data) ==>
        x.Group? && exists i :: 0 <= i < |x.courses| && x.courses[i].ubicacion == location
  {
    var next := HandleFilterChange(prev, SetLocation(location));
    FilteredDataFacts(next, data);
    forall x | x in FilteredData(next, data)
      ensures x.Group? && exists i :: 0 <= i < |x.courses| && x.courses[i].ubicacion == location
    {
      var i :| 0 <= i < |x.courses| && CheckCourse(next, x.courses[i]);
      CheckCourseExact(next, x.courses[i]);
    }
  }

  // ---------------------------------------------------------------------
  // uniqueTitles / uniqueLocations
  // ---------------------------------------------------------------------

  /** `courses.map(field)` */
  function Project(courses: seq<Course>, field: Course -> string): (r: seq<string>)
    ensures |r| == |courses|
    ensures forall i :: 0 <= i < |courses| ==> r[i] == field(courses[i])
  {
    seq(|courses|, i requires 0 <= i < |courses| => field(courses[i]))
  }

  /** `[...new Set(data.flatMap(...).map(field))].sort()` */
  function UniqueValues(data: seq<Item>, field: Course -> string): seq<string> {
    UniqueSorted(Project(Flatten(data), field))
  }

  /** `uniqueTitles` */
  function UniqueTitles(data: seq<Item>): seq<string> {
    UniqueValues(data, (c: Course) => c.title)
  }

  /** `uniqueLocations` */
  function UniqueLocations(data: seq<Item>): seq<string> {
    UniqueValues(data, (c: Course) => c.ubicacion)
  }

  /** The values offered are exactly those of the shown courses, each once, strictly increasing. */
  lemma {:induction false} UniqueValuesFacts(data: seq<Item>, field: Course -> string)
    ensures var r := UniqueValues(data, field);
      && (forall v :: v in r <==> exists c :: c in Flatten(data) && field(c) == v)
      && NoDup(r)
      && (forall i, j :: 0 <= i < j < |r| ==> StrLt(r[i], r[j]))
  {
    var flat := Flatten(data);
    var p := Project(flat, field);
    UniqueSortedFacts(p);
    forall v ensures v in p <==> exists c :: c in flat && field(c) == v {
      if v in p {
        var i :| 0 <= i < |p| && p[i] == v;
        assert flat[i] in flat;
      }
      if exists c :: c in flat && field(c) == v {
        var c :| c in flat && field(c) == v;
        var i :| 0 <= i < |flat| && flat[i] == c;
        assert p[i] == v;
      }
    }
  }

  /** `uniqueTitles` holds each course title once, sorted. */
  lemma {:induction false} UniqueTitlesFacts(data: seq<Item>)
    ensures var r := UniqueTitles(data);
      && (forall t :: t in r <==> exists c :: c in Flatten(data) && c.title == t)
      && NoDup(r)
      && (forall i, j :: 0 <= i < j < |r| ==> StrLt(r[i], r[j]))
  {
    UniqueValuesFacts(data, (c: Course) => c.title);
  }

  /** `uniqueLocations` holds each course location once, sorted. */
  lemma {:induction false} UniqueLocationsFacts(data: seq<Item>)
    ensures var r := UniqueLocations(data);
      && (forall l :: l in r <==> exists c :: c in Flatten(data) && c.ubicacion == l)
      && NoDup(r)
      && (forall i, j :: 0 <= i < j < |r| ==> StrLt(r[i], r[j]))
  {
    UniqueValuesFacts(data, (c: Course) => c.ubicacion);
  }
}
