/**
 * The live synergy engine: keyword extraction from course titles, the
 * similarity test, the greedy pairing of MAS courses with ASPY courses and
 * the merged, date-sorted presentation list (src/utils/synergyEngine.js).
 */
module SynergyEngine {

  import opened Text
  import opened Sorting
  import opened Records

  // ---------------------------------------------------------------------
  // Keywords
  // ---------------------------------------------------------------------

  /** One entry of the ordered keyword map: a key looked for in the title and the keyword it yields. */
  type Entry = (string, string)

  /** The forklift entries, which open the keyword map. */
  const ForkliftEntries: seq<Entry> := [
    ("carretilla", "carretilla"), ("frontal", "carretilla"), ("retracil", "carretilla"),
    ("apilador", "carretilla")
  ]

  /** The work-platform entries that follow them. */
  const PlatformEntries: seq<Entry> := [("plataforma", "pemp"), ("pemp", "pemp"), ("elevadora", "pemp")]

  /** The remaining entries, in declaration order, with the key of the high-voltage entry as a parameter. */
  function OtherEntries(tensionKey: string): (r: seq<Entry>)
    ensures |r| == 17
  {
    [ ("recurso", "preventivo"), ("prl", "prl"), ("basico", "prl_basico"),
      ("altura", "altura"), ("vertical", "altura"),
      ("primeros", "auxilios"), ("espacio", "confinado"), ("fuego", "extincion"),
      ("incendio", "incendio"), ("emergencia", "emergencia"),
      ("puente", "grua"), ("grua", "grua"),
      ("electric", "electric"), (tensionKey, "electric"),
      ("oficina", "pantalla"), ("pantalla", "pantalla"),
      ("riesgo", "riesgo") ]
  }

  /**
   * The keyword map as declared, in declaration order, with the accented
   * high-voltage key "tensión".
   */
  const KeywordMap: seq<Entry> := ForkliftEntries + PlatformEntries + OtherEntries("tensión")

  /**
   * The keyword map with its high-voltage entry keyed by "tension", the form
   * an accented "tensión" takes once the title is normalised.
   */
  const KeywordMapCorrected: seq<Entry> := ForkliftEntries + PlatformEntries + OtherEntries("tension")

  /** Lower-casing followed by NFD accent removal, as applied to every title. */
  function Normalize(title: string): (n: string)
    ensures |n| <= |title|
    ensures forall c :: c in n ==> !IsLowerAccented(c) && !IsUpperAccented(c)
  {
    StripAccents(Lower(title))
  }

  /** `found.add(value)` on a set kept in insertion order. */
  function AddIfAbsent(found: seq<string>, value: string): (r: seq<string>)
    ensures value in r
    ensures forall v :: v in r <==> v in found || v == value
  {
    if value in found then found else found + [value]
  }

  /** The map entry is skipped: "elevadora" after a forklift keyword was found. */
  predicate Excluded(key: string, found: seq<string>) {
    key == "elevadora" && "carretilla" in found
  }

  /** The fallback scan: every map entry whose key the text contains adds its keyword. */
  function Scan(entries: seq<Entry>, n: string, found: seq<string>): seq<string>
  {
    if entries == [] then found
    else
      var key := entries[0].0;
      var found' := if Contains(n, key) && !Excluded(key, found) then AddIfAbsent(found, entries[0].1) else found;
      Scan(entries[1..], n, found')
  }

  /** The keywords of a title under a given keyword map. */
  function KeywordsWith(table: seq<Entry>, title: string): (r: seq<string>)
    ensures title == "" ==> r == []
  {
    if title == "" then []
    else
      var n := Normalize(title);
      if Contains(n, "carretilla") then ["carretilla"]
      else if Contains(n, "plataforma") || Contains(n, "pemp") then ["pemp"]
      else Scan(table, n, [])
  }

  /** `getKeywords(title)`, with the keyword map as declared. */
  function Keywords(title: string): (r: seq<string>)
    ensures title == "" ==> r == []
  {
    KeywordsWith(KeywordMap, title)
  }

  /** `getKeywords` as the engine runs it: the map scan is a loop filling `found`. */
  method GetKeywords(title: string) returns (keywords: seq<string>)
    ensures keywords == Keywords(title)
  {
    if title == "" {
      return [];
    }
    var n := Normalize(title);
    if Contains(n, "carretilla") {
      return ["carretilla"];
    } else if Contains(n, "plataforma") || Contains(n, "pemp") {
      return ["pemp"];
    }
    var found: seq<string> := [];
    var i := 0;
    while i < |KeywordMap|
      invariant 0 <= i <= |KeywordMap|
      invariant Scan(KeywordMap[i..], n, found) == Scan(KeywordMap, n, [])
    {
      var key, value := KeywordMap[i].0, KeywordMap[i].1;
      assert KeywordMap[i..][1..] == KeywordMap[i + 1..];
      if Contains(n, key) && !Excluded(key, found) {
        found := AddIfAbsent(found, value);
      }
      i := i + 1;
    }
    keywords := found;
  }

  // ---------------------------------------------------------------------
  // Properties of the keyword scan
  // ---------------------------------------------------------------------

  predicate NoDuplicates(s: seq<string>) {
    forall i, j :: 0 <= i < j < |s| ==> s[i] != s[j]
  }

  /** Entry `i` yields `v` without being subject to the "elevadora" exclusion, and fires on `n`. */
  predicate FiresAt(entries: seq<Entry>, n: string, v: string, i: int) {
    0 <= i < |entries| && entries[i].1 == v && entries[i].0 != "elevadora" && Contains(n, entries[i].0)
  }

  /** The keyword `v` is a value of some entry. */
  predicate IsValue(entries: seq<Entry>, v: string) {
    exists i :: 0 <= i < |entries| && entries[i].1 == v
  }

  /** A set stays free of duplicates. */
  lemma {:induction false} ScanNoDuplicates(entries: seq<Entry>, n: string, found: seq<string>)
    requires NoDuplicates(found)
    ensures NoDuplicates(Scan(entries, n, found))
  {
    if entries != [] {
      var key := entries[0].0;
      if Contains(n, key) && !Excluded(key, found) {
        ScanNoDuplicates(entries[1..], n, AddIfAbsent(found, entries[0].1));
      } else {
        ScanNoDuplicates(entries[1..], n, found);
      }
    }
  }

  /** The scan adds only values of the map. */
  lemma {:induction false} ScanValues(entries: seq<Entry>, n: string, found: seq<string>, v: string)
    requires v in Scan(entries, n, found)
    ensures v in found || IsValue(entries, v)
  {
    if entries != [] {
      var key := entries[0].0;
      var found' := if Contains(n, key) && !Excluded(key, found) then AddIfAbsent(found, entries[0].1) else found;
      ScanValues(entries[1..], n, found', v);
      if IsValue(entries[1..], v) {
        var i :| 0 <= i < |entries[1..]| && entries[1..][i].1 == v;
        assert entries[i + 1].1 == v;
      }
    }
  }

  /**
   * For a keyword that no "elevadora" entry yields, the scan finds it exactly
   * when some entry with that keyword has its key in the text.
   */
  lemma {:induction false} ScanFinds(entries: seq<Entry>, n: string, found: seq<string>, v: string)
    requires forall i :: 0 <= i < |entries| && entries[i].1 == v ==> entries[i].0 != "elevadora"
    ensures v in Scan(entries, n, found) <==> v in found || exists i :: FiresAt(entries, n, v, i)
  {
    if entries != [] {
      var key := entries[0].0;
      var found' := if Contains(n, key) && !Excluded(key, found) then AddIfAbsent(found, entries[0].1) else found;
      ScanFinds(entries[1..], n, found', v);
      assert v in found' <==> v in found || FiresAt(entries, n, v, 0);
      forall i | FiresAt(entries[1..], n, v, i) ensures FiresAt(entries, n, v, i + 1) {
      }
      forall i | FiresAt(entries, n, v, i) && i > 0 ensures FiresAt(entries[1..], n, v, i - 1) {
      }
    }
  }

  /** Running the scan over two tables in turn is running it over their concatenation. */
  lemma {:induction false} ScanAppend(a: seq<Entry>, b: seq<Entry>, n: string, found: seq<string>)
    ensures Scan(a + b, n, found) == Scan(b, n, Scan(a, n, found))
  {
    if a == [] {
      assert a + b == b;
    } else {
      assert (a + b)[0] == a[0] && (a + b)[1..] == a[1..] + b;
      var key := a[0].0;
      var found' := if Contains(n, key) && !Excluded(key, found) then AddIfAbsent(found, a[0].1) else found;
      ScanAppend(a[1..], b, n, found');
    }
  }

  /** A title's keywords never repeat (they come out of a `Set`). */
  lemma {:induction false} KeywordsNoDuplicates(title: string)
    ensures NoDuplicates(Keywords(title))
  {
    if title != "" {
      ScanNoDuplicates(KeywordMap, Normalize(title), []);
    }
  }

  /** Every keyword is a value of the keyword map. */
  lemma {:induction false} KeywordsAreMapValues(title: string, k: string)
    requires k in Keywords(title)
    ensures IsValue(KeywordMap, k)
  {
    var n := Normalize(title);
    if !Contains(n, "carretilla") && !(Contains(n, "plataforma") || Contains(n, "pemp")) {
      ScanValues(KeywordMap, n, [], k);
    } else if Contains(n, "carretilla") {
      assert KeywordMap[0].1 == k;
    } else {
      assert KeywordMap[4].1 == k;
    }
  }

  /** "carretilla" wins outright; then "plataforma" or "pemp"; only otherwise is the map scanned. */
  lemma {:induction false} KeywordsSpecialCases(title: string)
    requires title != ""
    ensures Contains(Normalize(title), "carretilla") ==> Keywords(title) == ["carretilla"]
    ensures !Contains(Normalize(title), "carretilla")
            && (Contains(Normalize(title), "plataforma") || Contains(Normalize(title), "pemp"))
            ==> Keywords(title) == ["pemp"]
  {
  }

  lemma {:induction false} ForkliftScan(n: string)
    requires !Contains(n, "carretilla")
    ensures "carretilla" in Scan(ForkliftEntries, n, [])
            <==> Contains(n, "frontal") || Contains(n, "retracil") || Contains(n, "apilador")
    ensures "pemp" !in Scan(ForkliftEntries, n, [])
  {
    ScanFinds(ForkliftEntries, n, [], "carretilla");
    ScanFinds(ForkliftEntries, n, [], "pemp");
    if Contains(n, "frontal") {
      assert FiresAt(ForkliftEntries, n, "carretilla", 1);
    }
    if Contains(n, "retracil") {
      assert FiresAt(ForkliftEntries, n, "carretilla", 2);
    }
    if Contains(n, "apilador") {
      assert FiresAt(ForkliftEntries, n, "carretilla", 3);
    }
    forall i | FiresAt(ForkliftEntries, n, "carretilla", i)
      ensures Contains(n, "frontal") || Contains(n, "retracil") || Contains(n, "apilador")
    {
      assert i == 1 || i == 2 || i == 3;
    }
  }

  lemma {:induction false} PlatformScan(n: string, found: seq<string>)
    requires !Contains(n, "plataforma") && !Contains(n, "pemp")
    ensures "carretilla" in Scan(PlatformEntries, n, found) <==> "carretilla" in found
    ensures "pemp" in Scan(PlatformEntries, n, found)
            <==> "pemp" in found || (Contains(n, "elevadora") && "carretilla" !in found)
  {
    var last: seq<Entry> := [("elevadora", "pemp")];
    assert PlatformEntries[1..][1..] == last;
    assert Scan(PlatformEntries, n, found) == Scan(last, n, found);
    var found' := if Contains(n, "elevadora") && !Excluded("elevadora", found) then AddIfAbsent(found, "pemp") else found;
    assert Scan(last, n, found) == Scan([], n, found');
  }

  /** The entries after the platform ones never touch "carretilla" or "pemp". */
  lemma {:induction false} OtherScan(tensionKey: string, n: string, found: seq<string>, v: string)
    requires v == "carretilla" || v == "pemp"
    ensures v in Scan(OtherEntries(tensionKey), n, found) <==> v in found
  {
    if v in Scan(OtherEntries(tensionKey), n, found) {
      ScanValues(OtherEntries(tensionKey), n, found, v);
      OtherValues(tensionKey, v);
    }
    ScanGrows(OtherEntries(tensionKey), n, found);
  }

  /** No entry after the platform ones has "carretilla" or "pemp" as its keyword. */
  lemma {:induction false} OtherValues(tensionKey: string, v: string)
    requires v == "carretilla" || v == "pemp"
    ensures !IsValue(OtherEntries(tensionKey), v)
  {
    var e := OtherEntries(tensionKey);
    assert forall i :: 0 <= i < |e| ==> e[i].1 != v;
  }

  /** The scan only adds to what was found. */
  lemma {:induction false} ScanGrows(entries: seq<Entry>, n: string, found: seq<string>)
    ensures forall v :: v in found ==> v in Scan(entries, n, found)
  {
    if entries != [] {
      var key := entries[0].0;
      var found' := if Contains(n, key) && !Excluded(key, found) then AddIfAbsent(found, entries[0].1) else found;
      ScanGrows(entries[1..], n, found');
    }
  }

  /**
   * In the fallback scan, "carretilla" comes only from "frontal", "retracil"
   * or "apilador", and "elevadora" yields "pemp" exactly when none of those
   * three was found before it.
   */
  lemma {:induction false} FallbackForkliftAndPlatform(title: string)
    requires title != ""
    requires !Contains(Normalize(title), "carretilla")
    requires !Contains(Normalize(title), "plataforma") && !Contains(Normalize(title), "pemp")
    ensures "carretilla" in Keywords(title)
            <==> Contains(Normalize(title), "frontal") || Contains(Normalize(title), "retracil")
                 || Contains(Normalize(title), "apilador")
    ensures "pemp" in Keywords(title)
            <==> Contains(Normalize(title), "elevadora") && "carretilla" !in Keywords(title)
  {
    var n := Normalize(title);
    ScanAppend(ForkliftEntries + PlatformEntries, OtherEntries("tensión"), n, []);
    ScanAppend(ForkliftEntries, PlatformEntries, n, []);
    var f4 := Scan(ForkliftEntries, n, []);
    var f7 := Scan(PlatformEntries, n, f4);
    ForkliftScan(n);
    PlatformScan(n, f4);
    OtherScan("tensión", n, f7, "carretilla");
    OtherScan("tensión", n, f7, "pemp");
  }

  // ---------------------------------------------------------------------
  // The accented high-voltage key
  // ---------------------------------------------------------------------

  /** `getKeywords` with the corrected high-voltage key. */
  function KeywordsCorrected(title: string): seq<string> {
    KeywordsWith(KeywordMapCorrected, title)
  }

  /** Titles are compared after accent removal, so the key "tensión" can never be found. */
  lemma {:induction false} TensionKeyNeverMatches(title: string)
    ensures !Contains(Normalize(title), "tensión")
  {
    NotContainsMissingChar(Normalize(title), "tensión", 'ó');
  }

  lemma {:induction false} ElectricScan(tensionKey: string, n: string, found: seq<string>)
    requires tensionKey != "elevadora" && "electric" !in found
    ensures "electric" in Scan(OtherEntries(tensionKey), n, found)
            <==> Contains(n, "electric") || Contains(n, tensionKey)
  {
    var entries := OtherEntries(tensionKey);
    ScanFinds(entries, n, found, "electric");
    if Contains(n, "electric") {
      assert FiresAt(entries, n, "electric", 12);
    }
    if Contains(n, tensionKey) {
      assert FiresAt(entries, n, "electric", 13);
    }
    forall i | FiresAt(entries, n, "electric", i) ensures Contains(n, "electric") || Contains(n, tensionKey) {
      assert i == 12 || i == 13;
    }
  }

  lemma {:induction false} HeadEntriesNoElectric(n: string)
    ensures "electric" !in Scan(PlatformEntries, n, Scan(ForkliftEntries, n, []))
  {
    var f4 := Scan(ForkliftEntries, n, []);
    ScanFinds(ForkliftEntries, n, [], "electric");
    ScanFinds(PlatformEntries, n, f4, "electric");
    assert forall i :: !FiresAt(ForkliftEntries, n, "electric", i);
    assert forall i :: !FiresAt(PlatformEntries, n, "electric", i);
  }

  /** In the fallback scan, "electric" comes from the "electric" key or from the high-voltage key. */
  lemma {:induction false} FallbackElectric(tensionKey: string, title: string)
    requires tensionKey != "elevadora" && title != ""
    requires !Contains(Normalize(title), "carretilla")
    requires !Contains(Normalize(title), "plataforma") && !Contains(Normalize(title), "pemp")
    ensures "electric" in KeywordsWith(ForkliftEntries + PlatformEntries + OtherEntries(tensionKey), title)
            <==> Contains(Normalize(title), "electric") || Contains(Normalize(title), tensionKey)
  {
    var n := Normalize(title);
    ScanAppend(ForkliftEntries + PlatformEntries, OtherEntries(tensionKey), n, []);
    ScanAppend(ForkliftEntries, PlatformEntries, n, []);
    HeadEntriesNoElectric(n);
    ElectricScan(tensionKey, n, Scan(PlatformEntries, n, Scan(ForkliftEntries, n, [])));
  }

  /** As declared, only the "electric" key yields "electric": high-voltage titles are missed. */
  lemma {:induction false} AsWrittenElectric(title: string)
    requires title != ""
    requires !Contains(Normalize(title), "carretilla")
    requires !Contains(Normalize(title), "plataforma") && !Contains(Normalize(title), "pemp")
    ensures "electric" in Keywords(title) <==> Contains(Normalize(title), "electric")
  {
    FallbackElectric("tensión", title);
    TensionKeyNeverMatches(title);
  }

  /** With the key as it reads after normalisation, a high-voltage title yields "electric". */
  lemma {:induction false} HighVoltageIsElectric(title: string)
    requires title != ""
    requires !Contains(Normalize(title), "carretilla")
    requires !Contains(Normalize(title), "plataforma") && !Contains(Normalize(title), "pemp")
    ensures "electric" in KeywordsCorrected(title)
            <==> Contains(Normalize(title), "electric") || Contains(Normalize(title), "tension")
  {
    FallbackElectric("tension", title);
  }

  lemma {:induction false} LowerTension()
    ensures Lower("Tensión") == "tensión"
  {
  }

  lemma {:induction false} MapBaseTension()
    ensures MapBase("tensión") == "tension"
  {
  }

  lemma {:induction false} StripTension(s: string)
    requires s == "tensión"
    ensures StripAccents(s) == "tension"
  {
    forall i | 0 <= i < |s| ensures !IsCombiningMark(s[i]) {
    }
    StripAccentsNoMarks(s);
    MapBaseTension();
  }

  lemma {:induction false} NormalizeTension(title: string)
    requires title == "Tensión"
    ensures Normalize(title) == "tension"
  {
    LowerTension();
    StripTension(Lower(title));
  }

  /** The title "Tensión" gets no "electric" keyword as declared, and gets it with the corrected key. */
  lemma {:induction false} TensionTitleExample(title: string)
    requires title == "Tensión"
    ensures "electric" !in Keywords(title)
    ensures "electric" in KeywordsCorrected(title)
  {
    NormalizeTension(title);
    TensionLetters(Normalize(title));
    TensionFallback(title, Normalize(title));
    AsWrittenElectric(title);
    HighVoltageIsElectric(title);
  }

  lemma {:induction false} TensionLetters(n: string)
    requires n == "tension"
    ensures 'c' !in n && 'p' !in n && OccursAt(n, "tension", 0)
  {
  }

  lemma {:induction false} TensionFallback(title: string, n: string)
    requires title != "" && n == Normalize(title) && 'c' !in n && 'p' !in n && OccursAt(n, "tension", 0)
    ensures !Contains(n, "carretilla") && !Contains(n, "plataforma") && !Contains(n, "pemp")
    ensures !Contains(n, "electric") && Contains(n, "tension")
  {
    NotContainsMissingChar(n, "carretilla", 'c');
    NotContainsMissingChar(n, "plataforma", 'p');
    NotContainsMissingChar(n, "pemp", 'p');
    NotContainsMissingChar(n, "electric", 'c');
    ContainsAt(n, "tension", 0);
  }


  // ---------------------------------------------------------------------
  // Similarity
  // ---------------------------------------------------------------------

  /** `k1.some(k => k2.includes(k))` */
  predicate AnyShared(k1: seq<string>, k2: seq<string>) {
    k1 != [] && (k1[0] in k2 || AnyShared(k1[1..], k2))
  }

  /** `areSimilar(t1, t2)`: the two titles share a keyword. */
  predicate AreSimilar(t1: string, t2: string) {
    AnyShared(Keywords(t1), Keywords(t2))
  }

  lemma {:induction false} AnySharedIff(k1: seq<string>, k2: seq<string>)
    ensures AnyShared(k1, k2) <==> exists k :: k in k1 && k in k2
  {
    if k1 != [] {
      AnySharedIff(k1[1..], k2);
      assert k1 == [k1[0]] + k1[1..];
    }
  }

  /** Two titles are similar exactly when their keyword sets intersect. */
  lemma {:induction false} AreSimilarIff(t1: string, t2: string)
    ensures AreSimilar(t1, t2) <==> exists k :: k in Keywords(t1) && k in Keywords(t2)
  {
    AnySharedIff(Keywords(t1), Keywords(t2));
  }

  lemma {:induction false} AreSimilarSymmetric(t1: string, t2: string)
    ensures AreSimilar(t1, t2) == AreSimilar(t2, t1)
  {
    AreSimilarIff(t1, t2);
    AreSimilarIff(t2, t1);
  }

  /** A missing title has no keywords and so is similar to nothing. */
  lemma {:induction false} MissingTitleNotSimilar(t: string)
    ensures !AreSimilar("", t) && !AreSimilar(t, "")
  {
    AreSimilarIff("", t);
    AreSimilarIff(t, "");
  }

  /**
   * A work-platform title ("plataforma" or "pemp" without "carretilla") is
   * never similar to a forklift title ("carretilla"), even when both speak
   * of an "elevadora".
   */
  lemma {:induction false} PlatformNotSimilarToForklift(platform: string, forklift: string)
    requires platform != "" && forklift != ""
    requires !Contains(Normalize(platform), "carretilla")
    requires Contains(Normalize(platform), "plataforma") || Contains(Normalize(platform), "pemp")
    requires Contains(Normalize(forklift), "carretilla")
    ensures !AreSimilar(platform, forklift) && !AreSimilar(forklift, platform)
  {
    AreSimilarIff(platform, forklift);
    AreSimilarIff(forklift, platform);
    assert Keywords(platform) == ["pemp"];
    assert Keywords(forklift) == ["carretilla"];
  }

  // ---------------------------------------------------------------------
  // Pairing one MAS course with its best ASPY course
  // ---------------------------------------------------------------------

  /** Whole days between the two start dates. */
  function DaysDiff(a: Course, b: Course): (d: nat)
    ensures d == a.startDate - b.startDate || d == b.startDate - a.startDate
  {
    if a.startDate >= b.startDate then a.startDate - b.startDate else b.startDate - a.startDate
  }

  /** Closer dates score higher. */
  function Score(mas: Course, aspy: Course): int {
    100 - DaysDiff(mas, aspy)
  }

  /** The four conditions an ASPY course must meet to host a MAS course. */
  predicate Matches(mas: Course, aspy: Course) {
    && mas.ubicacion == aspy.ubicacion
    && DaysDiff(mas, aspy) <= 15
    && aspy.plazas > 0
    && AreSimilar(mas.title, aspy.title)
  }

  /** An ASPY course not yet paired that matches the MAS course. */
  predicate Eligible(mas: Course, aspy: Course, processed: set<string>) {
    aspy.id !in processed && Matches(mas, aspy)
  }

  /**
   * The first index of a highest-scoring element among those satisfying
   * `ok`, or -1 when none does: the scan that keeps a candidate only when its
   * score beats the best so far (which starts at -1).
   */
  function FirstArgMax<T>(s: seq<T>, ok: T -> bool, score: T -> int): (r: int)
    requires forall j :: 0 <= j < |s| && ok(s[j]) ==> score(s[j]) > -1
    ensures -1 <= r < |s|
    ensures r == -1 <==> forall j :: 0 <= j < |s| ==> !ok(s[j])
    ensures r >= 0 ==> ok(s[r])
    ensures r >= 0 ==> forall j :: 0 <= j < |s| && ok(s[j]) ==> score(s[j]) <= score(s[r])
    ensures r >= 0 ==> forall j :: 0 <= j < r && ok(s[j]) ==> score(s[j]) < score(s[r])
  {
    if s == [] then -1
    else
      var prev := FirstArgMax(s[..|s| - 1], ok, score);
      var bestScore := if prev < 0 then -1 else score(s[prev]);
      if ok(s[|s| - 1]) && score(s[|s| - 1]) > bestScore then |s| - 1 else prev
  }

  /** An eligible course scores at least 85, above the initial best score of -1. */
  lemma {:induction false} EligibleScoresAbove(mas: Course, aspys: seq<Course>, processed: set<string>)
    ensures forall j :: 0 <= j < |aspys| && Eligible(mas, aspys[j], processed) ==> Score(mas, aspys[j]) >= 85
    ensures forall j :: 0 <= j < |aspys| && Eligible(mas, aspys[j], processed) ==> Score(mas, aspys[j]) > -1
  {
  }

  /**
   * The index of the ASPY course chosen for `mas`, or -1: the highest score
   * among the eligible courses, the first one on a tie.
   */
  function BestIndex(mas: Course, aspys: seq<Course>, processed: set<string>): int {
    EligibleScoresAbove(mas, aspys, processed);
    FirstArgMax(aspys, c => Eligible(mas, c, processed), c => Score(mas, c))
  }

  /** The inner loop of `findOptimizations`, tracking `bestMatch` and `bestScore`. */
  method FindBestMatch(mas: Course, aspys: seq<Course>, processed: set<string>) returns (best: int)
    ensures best == BestIndex(mas, aspys, processed)
  {
    best := -1;
    var bestScore := -1;
    var i := 0;
    while i < |aspys|
      invariant 0 <= i <= |aspys|
      invariant best == BestIndex(mas, aspys[..i], processed)
      invariant bestScore == if best < 0 then -1 else Score(mas, aspys[best])
    {
      var aspy := aspys[i];
      assert aspys[..i + 1][..i] == aspys[..i];
      if Eligible(mas, aspy, processed) {
        var score := Score(mas, aspy);
        if score > bestScore {
          bestScore := score;
          best := i;
        }
      }
      i := i + 1;
    }
    assert aspys[..i] == aspys;
  }

  /** Start-date order, the comparator `(a, b) => a.startDateRaw - b.startDateRaw`. */
  function DateLeq(a: Course, b: Course): bool {
    a.startDate <= b.startDate
  }

  /** The group proposed for a MAS course and its ASPY host; its courses are in date order. */
  function MakeGroup(mas: Course, aspy: Course): (g: Item)
    ensures g.Group? && g.scenarioType.None?
    ensures g.id == "group-" + mas.id + "-" + aspy.id
    ensures g.courses == [mas, aspy] || g.courses == [aspy, mas]
    ensures g.courses[0].startDate <= g.courses[1].startDate
  {
    Group("group-" + mas.id + "-" + aspy.id,
          if mas.startDate < aspy.startDate then [mas, aspy] else [aspy, mas],
          None)
  }

  /** The order inside a group is the stable date sort of `[bestMatch, masCourse]`. */
  lemma {:induction false} MakeGroupSorted(mas: Course, aspy: Course)
    ensures MakeGroup(mas, aspy).courses == SortBy([aspy, mas], DateLeq)
  {
    assert [aspy, mas][..1] == [aspy];
    assert SortBy([aspy], DateLeq) == Insert(aspy, SortBy([], DateLeq), DateLeq) == [aspy];
  }

  // ---------------------------------------------------------------------
  // The greedy pass over the MAS courses
  // ---------------------------------------------------------------------

  /**
   * The groups made from the MAS courses in `queue`, in order, each paired
   * with its best ASPY course not yet in `processed`.
   */
  function Optimize(queue: seq<Course>, aspys: seq<Course>, processed: set<string>): seq<Item>
  {
    if queue == [] then []
    else
      var mas := queue[0];
      if mas.id in processed then Optimize(queue[1..], aspys, processed)
      else
        var b := BestIndex(mas, aspys, processed);
        if b < 0 then Optimize(queue[1..], aspys, processed)
        else [MakeGroup(mas, aspys[b])] + Optimize(queue[1..], aspys, processed + {mas.id, aspys[b].id})
  }

  /** A MAS course that no earlier run has flagged. */
  function IsOpenMas(c: Course): bool {
    c.source == MAS && !c.hasSynergy
  }

  function IsAspy(c: Course): bool {
    c.source == ASPY
  }

  /** The MAS courses in the order they are visited: ascending start date. */
  function MasQueue(all: seq<Course>): seq<Course> {
    SortBy(Filter(all, IsOpenMas), DateLeq)
  }

  /** `findOptimizations(allCourses)` */
  function Optimizations(all: seq<Course>): seq<Item> {
    Optimize(MasQueue(all), Filter(all, IsAspy), {})
  }

  /** `findOptimizations` as the engine runs it, with `processedIds` and `optimizedGroups`. */
  method FindOptimizations(all: seq<Course>) returns (groups: seq<Item>)
    ensures groups == Optimizations(all)
  {
    var masCourses := Filter(all, IsOpenMas);
    var aspyCourses := Filter(all, IsAspy);
    masCourses := SortBy(masCourses, DateLeq);
    groups := [];
    var processed: set<string> := {};
    var i := 0;
    while i < |masCourses|
      invariant 0 <= i <= |masCourses|
      invariant groups + Optimize(masCourses[i..], aspyCourses, processed) == Optimizations(all)
    {
      var mas := masCourses[i];
      OptimizeStep(masCourses, i, aspyCourses, processed, groups, Optimizations(all));
      if mas.id !in processed {
        var best := FindBestMatch(mas, aspyCourses, processed);
        if best >= 0 {
          processed := processed + {mas.id, aspyCourses[best].id};
          groups := groups + [MakeGroup(mas, aspyCourses[best])];
        }
      }
      i := i + 1;
    }
    assert masCourses[|masCourses|..] == [];
  }

  /** One step of the greedy pass: the MAS course at `i` adds a group exactly when it is unprocessed and has a best match. */
  lemma {:induction false} OptimizeStep(queue: seq<Course>, i: int, aspys: seq<Course>, processed: set<string>,
                                        groups: seq<Item>, whole: seq<Item>)
    requires 0 <= i < |queue|
    requires groups + Optimize(queue[i..], aspys, processed) == whole
    ensures var mas := queue[i];
      var b := BestIndex(mas, aspys, processed);
      if mas.id in processed || b < 0 then groups + Optimize(queue[i + 1..], aspys, processed) == whole
      else (groups + [MakeGroup(mas, aspys[b])]) + Optimize(queue[i + 1..], aspys, processed + {mas.id, aspys[b].id}) == whole
  {
    assert queue[i..][1..] == queue[i + 1..];
    assert queue[i..][0] == queue[i];
    var mas := queue[i];
    var b := BestIndex(mas, aspys, processed);
    if !(mas.id in processed || b < 0) {
      var later := Optimize(queue[i + 1..], aspys, processed + {mas.id, aspys[b].id});
      assert Optimize(queue[i..], aspys, processed) == [MakeGroup(mas, aspys[b])] + later;
      assert (groups + [MakeGroup(mas, aspys[b])]) + later == groups + ([MakeGroup(mas, aspys[b])] + later);
    }
  }

  // ---------------------------------------------------------------------
  // Properties of the greedy pass
  // ---------------------------------------------------------------------

  /** The ids of a list of courses. */
  function Ids(s: seq<Course>): set<string> {
    set c | c in s :: c.id
  }

  /** No two positions of `s` hold the same id. */
  predicate DistinctIds(s: seq<Course>) {
    forall i, j :: 0 <= i < j < |s| ==> s[i].id != s[j].id
  }

  /** The MAS member of a two-course group. */
  function GroupMas(g: Item): Course
    requires g.Group? && |g.courses| == 2
  {
    if g.courses[0].source == MAS then g.courses[0] else g.courses[1]
  }

  /** The ASPY member of a two-course group. */
  function GroupAspy(g: Item): Course
    requires g.Group? && |g.courses| == 2
  {
    if g.courses[0].source == MAS then g.courses[1] else g.courses[0]
  }

  /** `g` pairs a MAS course of `queue` with a matching ASPY course of `aspys`. */
  predicate PairedFrom(g: Item, queue: seq<Course>, aspys: seq<Course>) {
    && g.Group? && |g.courses| == 2
    && GroupMas(g) in queue && GroupAspy(g) in aspys
    && IsOpenMas(GroupMas(g)) && IsAspy(GroupAspy(g))
    && Matches(GroupMas(g), GroupAspy(g))
    && g == MakeGroup(GroupMas(g), GroupAspy(g))
  }

  lemma {:induction false} MakeGroupMembers(mas: Course, aspy: Course)
    requires IsOpenMas(mas) && IsAspy(aspy)
    ensures GroupMas(MakeGroup(mas, aspy)) == mas && GroupAspy(MakeGroup(mas, aspy)) == aspy
    ensures Ids(MakeGroup(mas, aspy).courses) == {mas.id, aspy.id}
  {
  }

  /** Every group pairs a course of the queue with a matching ASPY course. */
  lemma {:induction false} OptimizeGroups(queue: seq<Course>, aspys: seq<Course>, processed: set<string>)
    requires forall c :: c in queue ==> IsOpenMas(c)
    requires forall c :: c in aspys ==> IsAspy(c)
    ensures forall g :: g in Optimize(queue, aspys, processed) ==> PairedFrom(g, queue, aspys)
  {
    if queue != [] {
      var mas := queue[0];
      var b := BestIndex(mas, aspys, processed);
      if mas.id in processed || b < 0 {
        OptimizeGroups(queue[1..], aspys, processed);
      } else {
        var processed' := processed + {mas.id, aspys[b].id};
        OptimizeGroups(queue[1..], aspys, processed');
        MakeGroupMembers(mas, aspys[b]);
      }
    }
  }

  /** The queue holds the open MAS courses of the input, in date order. */
  lemma {:induction false} MasQueueFacts(all: seq<Course>)
    ensures forall c :: c in MasQueue(all) ==> IsOpenMas(c) && c in all
    ensures Sorted(MasQueue(all), DateLeq)
  {
    MasQueueMembers(all);
    DateLeqTotalPreorder();
    SortBySorted(Filter(all, IsOpenMas), DateLeq);
  }

  lemma {:induction false} MasQueueMembers(all: seq<Course>)
    ensures forall c :: c in MasQueue(all) ==> IsOpenMas(c) && c in all
  {
    var open := Filter(all, IsOpenMas);
    FilterMembers(all, IsOpenMas);
    assert multiset(MasQueue(all)) == multiset(open);
    forall c | c in MasQueue(all) ensures c in open {
      assert c in multiset(MasQueue(all));
    }
  }

  lemma {:induction false} AspyListFacts(all: seq<Course>)
    ensures forall c :: c in Filter(all, IsAspy) ==> IsAspy(c) && c in all
  {
    FilterMembers(all, IsAspy);
  }

  /** Every group found by `findOptimizations` pairs a MAS course and an ASPY course of the input that match. */
  lemma {:induction false} GroupsAreValid(all: seq<Course>)
    ensures forall g :: g in Optimizations(all) ==> PairedFrom(g, all, all)
  {
    MasQueueFacts(all);
    AspyListFacts(all);
    OptimizeGroups(MasQueue(all), Filter(all, IsAspy), {});
  }

  /** Every course of every group comes from the queue or from the ASPY list, and none had an id in `processed`. */
  lemma {:induction false} OptimizeMembers(queue: seq<Course>, aspys: seq<Course>, processed: set<string>)
    ensures forall c :: c in Flatten(Optimize(queue, aspys, processed)) ==> (c in queue || c in aspys) && c.id !in processed
  {
    if queue != [] {
      var mas := queue[0];
      var b := BestIndex(mas, aspys, processed);
      if mas.id in processed || b < 0 {
        OptimizeMembers(queue[1..], aspys, processed);
      } else {
        var g := MakeGroup(mas, aspys[b]);
        var processed' := processed + {mas.id, aspys[b].id};
        var rest := Optimize(queue[1..], aspys, processed');
        OptimizeMembers(queue[1..], aspys, processed');
        FlatMapAppend([g], rest, Members);
        assert Flatten([g]) == g.courses;
        assert Optimize(queue, aspys, processed) == [g] + rest;
      }
    }
  }

  /** No id is shared by two of the groups. */
  predicate GroupsDisjoint(items: seq<Item>) {
    forall i, j :: 0 <= i < j < |items| ==> Ids(Members(items[i])) !! Ids(Members(items[j]))
  }

  lemma {:induction false} GroupsDisjointCons(g: Item, rest: seq<Item>, taken: set<string>)
    requires GroupsDisjoint(rest) && Ids(Members(g)) <= taken
    requires forall c :: c in Flatten(rest) ==> c.id !in taken
    ensures GroupsDisjoint([g] + rest)
  {
    var r := [g] + rest;
    forall i, j | 0 <= i < j < |r| ensures Ids(Members(r[i])) !! Ids(Members(r[j])) {
      assert r[j] == rest[j - 1];
      if i == 0 {
        forall c | c in Members(rest[j - 1]) ensures c.id !in taken {
          FlatMapMember(rest, Members, j - 1, c);
        }
      } else {
        assert r[i] == rest[i - 1];
      }
    }
  }

  /** Once paired, a course is never paired again: no id is shared by two groups. */
  lemma {:induction false} OptimizeDisjoint(queue: seq<Course>, aspys: seq<Course>, processed: set<string>)
    ensures GroupsDisjoint(Optimize(queue, aspys, processed))
  {
    if queue != [] {
      var mas := queue[0];
      var b := BestIndex(mas, aspys, processed);
      if mas.id in processed || b < 0 {
        OptimizeDisjoint(queue[1..], aspys, processed);
      } else {
        var g := MakeGroup(mas, aspys[b]);
        var processed' := processed + {mas.id, aspys[b].id};
        var rest := Optimize(queue[1..], aspys, processed');
        assert Optimize(queue, aspys, processed) == [g] + rest;
        OptimizeDisjoint(queue[1..], aspys, processed');
        OptimizeMembers(queue[1..], aspys, processed');
        assert Ids(Members(g)) == {mas.id, aspys[b].id};
        GroupsDisjointCons(g, rest, processed');
      }
    }
  }

  /** No course id appears in two of the groups `findOptimizations` returns. */
  lemma {:induction false} OptimizationsDisjoint(all: seq<Course>)
    ensures GroupsDisjoint(Optimizations(all))
  {
    OptimizeDisjoint(MasQueue(all), Filter(all, IsAspy), {});
  }

  /** A MAS course that no ASPY course of the input matches ends up in no group. */
  lemma {:induction false} UnmatchedMasNotGrouped(all: seq<Course>, mas: Course)
    requires mas.source == MAS
    requires forall aspy :: aspy in all && IsAspy(aspy) ==> !Matches(mas, aspy)
    ensures forall g :: g in Optimizations(all) ==> mas !in Members(g)
  {
    GroupsAreValid(all);
    forall g | g in Optimizations(all) ensures mas !in Members(g) {
      PairedExcludes(g, all, mas);
    }
  }

  /** A group paired from `all` leaves out a MAS course that matches no ASPY course of `all`. */
  lemma {:induction false} PairedExcludes(g: Item, all: seq<Course>, mas: Course)
    requires PairedFrom(g, all, all)
    requires mas.source == MAS
    requires forall aspy :: aspy in all && IsAspy(aspy) ==> !Matches(mas, aspy)
    ensures mas !in Members(g)
  {
    var m, a := GroupMas(g), GroupAspy(g);
    MakeGroupMembers(m, a);
    assert Members(g) == [m, a] || Members(g) == [a, m];
    assert mas != a;
    assert !Matches(mas, a);
  }

  lemma {:induction false} PairedFromPair(g: Item, mas: Course, aspy: Course)
    requires PairedFrom(g, [mas, aspy], [mas, aspy]) && IsAspy(aspy)
    ensures mas in Members(g)
  {
    MakeGroupMembers(GroupMas(g), GroupAspy(g));
  }

  /** A MAS course and an ASPY course that do not match are not grouped when they are all there is. */
  lemma {:induction false} UnmatchedPairNotGrouped(mas: Course, aspy: Course)
    requires mas.source == MAS && IsAspy(aspy) && !Matches(mas, aspy)
    ensures Optimizations([mas, aspy]) == []
  {
    var r := Optimizations([mas, aspy]);
    GroupsAreValid([mas, aspy]);
    forall g | g in r ensures mas in Members(g) {
      PairedFromPair(g, mas, aspy);
    }
    UnmatchedMasNotGrouped([mas, aspy], mas);
    var g0 := if r == [] then Single(mas) else r[0];
    assert r != [] ==> g0 in r;
  }

  /**
   * A MAS work-platform course and an ASPY forklift course are never
   * grouped, whatever their dates, places and free seats.
   */
  lemma {:induction false} PlatformAndForkliftNotGrouped(mas: Course, aspy: Course)
    requires IsOpenMas(mas) && IsAspy(aspy)
    requires mas.title != "" && aspy.title != ""
    requires !Contains(Normalize(mas.title), "carretilla")
    requires Contains(Normalize(mas.title), "plataforma") || Contains(Normalize(mas.title), "pemp")
    requires Contains(Normalize(aspy.title), "carretilla")
    ensures Optimizations([mas, aspy]) == []
  {
    PlatformNotSimilarToForklift(mas.title, aspy.title);
    UnmatchedPairNotGrouped(mas, aspy);
  }

  /**
   * In any course list, no group pairs a MAS work-platform course with an
   * ASPY forklift course.
   */
  lemma {:induction false} PlatformAndForkliftNeverGrouped(all: seq<Course>, mas: Course, aspy: Course)
    requires mas.title != "" && aspy.title != ""
    requires !Contains(Normalize(mas.title), "carretilla")
    requires Contains(Normalize(mas.title), "plataforma") || Contains(Normalize(mas.title), "pemp")
    requires Contains(Normalize(aspy.title), "carretilla")
    ensures forall g :: g in Optimizations(all) ==>
      g.Group? && |g.courses| == 2 && !(GroupMas(g) == mas && GroupAspy(g) == aspy)
  {
    GroupsAreValid(all);
    PlatformNotSimilarToForklift(mas.title, aspy.title);
  }

  lemma {:induction false} DateLeqTotalPreorder()
    ensures TotalPreorder(DateLeq)
  {
  }

  /** The groups come out in the start-date order of their MAS courses. */
  predicate MasOrdered(items: seq<Item>) {
    forall i, j :: 0 <= i < j < |items| ==>
      && items[i].Group? && |items[i].courses| == 2
      && items[j].Group? && |items[j].courses| == 2
      && GroupMas(items[i]).startDate <= GroupMas(items[j]).startDate
  }

  lemma {:induction false} MasOrderedCons(g: Item, rest: seq<Item>)
    requires MasOrdered(rest) && g.Group? && |g.courses| == 2
    requires forall j :: 0 <= j < |rest| ==>
               rest[j].Group? && |rest[j].courses| == 2 && GroupMas(g).startDate <= GroupMas(rest[j]).startDate
    ensures MasOrdered([g] + rest)
  {
    var r := [g] + rest;
    forall i, j | 0 <= i < j < |r|
      ensures r[i].Group? && |r[i].courses| == 2 && r[j].Group? && |r[j].courses| == 2
              && GroupMas(r[i]).startDate <= GroupMas(r[j]).startDate
    {
      assert r[j] == rest[j - 1];
      if i > 0 {
        assert r[i] == rest[i - 1];
      }
    }
  }

  /** The queue comes before every MAS course of the groups made from its tail. */
  lemma {:induction false} QueueHeadFirst(queue: seq<Course>, aspys: seq<Course>, processed: set<string>)
    requires queue != []
    requires forall c :: c in queue ==> IsOpenMas(c)
    requires forall c :: c in aspys ==> IsAspy(c)
    requires Sorted(queue, DateLeq)
    ensures forall g :: g in Optimize(queue[1..], aspys, processed) ==>
              g.Group? && |g.courses| == 2 && queue[0].startDate <= GroupMas(g).startDate
  {
    OptimizeGroups(queue[1..], aspys, processed);
    forall g | g in Optimize(queue[1..], aspys, processed)
      ensures queue[0].startDate <= GroupMas(g).startDate
    {
      var k :| 0 <= k < |queue[1..]| && queue[1..][k] == GroupMas(g);
      assert DateLeq(queue[0], queue[k + 1]);
    }
  }

  lemma {:induction false} OptimizeMasOrder(queue: seq<Course>, aspys: seq<Course>, processed: set<string>)
    requires forall c :: c in queue ==> IsOpenMas(c)
    requires forall c :: c in aspys ==> IsAspy(c)
    requires Sorted(queue, DateLeq)
    ensures MasOrdered(Optimize(queue, aspys, processed))
  {
    if queue != [] {
      var mas := queue[0];
      var b := BestIndex(mas, aspys, processed);
      var processed' := if mas.id in processed || b < 0 then processed else processed + {mas.id, aspys[b].id};
      var rest := Optimize(queue[1..], aspys, processed');
      OptimizeMasOrder(queue[1..], aspys, processed');
      if mas.id !in processed && b >= 0 {
        var g := MakeGroup(mas, aspys[b]);
        assert Optimize(queue, aspys, processed) == [g] + rest;
        QueueHeadFirst(queue, aspys, processed');
        MakeGroupMembers(mas, aspys[b]);
        assert forall j :: 0 <= j < |rest| ==> rest[j] in rest;
        MasOrderedCons(g, rest);
      }
    }
  }

  /** MAS courses are served in ascending start date. */
  lemma {:induction false} OptimizationsMasOrder(all: seq<Course>)
    ensures MasOrdered(Optimizations(all))
  {
    MasQueueFacts(all);
    AspyListFacts(all);
    OptimizeMasOrder(MasQueue(all), Filter(all, IsAspy), {});
  }

  // ---------------------------------------------------------------------
  // The merged presentation list
  // ---------------------------------------------------------------------

  /** Every course as an entry of its own. */
  function Singles(cs: seq<Course>): (r: seq<Item>)
    ensures |r| == |cs|
    ensures forall i :: 0 <= i < |cs| ==> r[i] == Single(cs[i])
  {
    seq(|cs|, i requires 0 <= i < |cs| => Single(cs[i]))
  }

  /** The ids `groupedIds` collects from the groups. */
  function GroupedIds(groups: seq<Item>): set<string> {
    Ids(Flatten(groups))
  }

  /** The test "its id was collected", as a filter predicate. */
  function InIds(ids: set<string>): Course -> bool {
    (c: Course) => c.id in ids
  }

  /** The date an entry sorts by: a group's first course, or the course itself. */
  function ItemDate(item: Item): int {
    match item
    case Single(c) => c.startDate
    case Group(_, cs, _) => if cs == [] then 0 else cs[0].startDate
  }

  /** The comparator `dateA - dateB` of the final sort. */
  function ItemLeq(a: Item, b: Item): bool {
    ItemDate(a) <= ItemDate(b)
  }

  /** `finalStructure` before its sort: the groups, then the courses left out of every group. */
  function Structure(courses: seq<Course>): seq<Item> {
    var groups := Optimizations(courses);
    groups + Singles(Filter(courses, Not(InIds(GroupedIds(groups)))))
  }

  /** `processCourseListWithGroups(rawCourses)` */
  function ProcessedList(courses: seq<Course>): seq<Item> {
    if Optimizations(courses) == [] then Singles(courses)
    else SortBy(Structure(courses), ItemLeq)
  }

  lemma {:induction false} IdsAppend(a: seq<Course>, b: seq<Course>)
    ensures Ids(a + b) == Ids(a) + Ids(b)
  {
  }

  lemma {:induction false} SinglesAppend(a: seq<Course>, b: seq<Course>)
    ensures Singles(a + b) == Singles(a) + Singles(b)
  {
  }

  lemma {:induction false} FlattenSnoc(items: seq<Item>, item: Item)
    ensures Flatten(items + [item]) == Flatten(items) + Members(item)
  {
    FlatMapAppend(items, [item], Members);
    assert Flatten([item]) == Members(item) + Flatten([]);
  }

  lemma {:induction false} FilterSnoc1(s: seq<Course>, c: Course, p: Course -> bool)
    ensures Filter(s + [c], p) == Filter(s, p) + (if p(c) then [c] else [])
  {
    FilterAppend(s, [c], p);
    assert Filter([c], p) == (if p(c) then [c] else []) + Filter([], p);
  }

  /** `group.courses.forEach(c => groupedIds.add(c.id))` */
  method AddIds(groupedIds: set<string>, members: seq<Course>) returns (ids: set<string>)
    ensures ids == groupedIds + Ids(members)
  {
    ids := groupedIds;
    var j := 0;
    while j < |members|
      invariant 0 <= j <= |members|
      invariant ids == groupedIds + Ids(members[..j])
    {
      IdsAppend(members[..j], [members[j]]);
      assert members[..j + 1] == members[..j] + [members[j]];
      ids := ids + {members[j].id};
      j := j + 1;
    }
    assert members[..j] == members;
  }

  /** The first `forEach`: every group goes to `finalStructure` and its ids to `groupedIds`. */
  method CollectGroups(optimizations: seq<Item>) returns (finalStructure: seq<Item>, groupedIds: set<string>)
    ensures finalStructure == optimizations
    ensures groupedIds == GroupedIds(optimizations)
  {
    finalStructure := [];
    groupedIds := {};
    var i := 0;
    while i < |optimizations|
      invariant 0 <= i <= |optimizations|
      invariant finalStructure == optimizations[..i]
      invariant groupedIds == GroupedIds(optimizations[..i])
    {
      var group := optimizations[i];
      assert optimizations[..i + 1] == optimizations[..i] + [group];
      FlattenSnoc(optimizations[..i], group);
      IdsAppend(Flatten(optimizations[..i]), Members(group));
      groupedIds := AddIds(groupedIds, Members(group));
      finalStructure := finalStructure + [group];
      i := i + 1;
    }
    assert optimizations[..i] == optimizations;
  }

  /** The second `forEach`: every course whose id was not collected is appended as it is. */
  method AppendUngrouped(structure: seq<Item>, courses: seq<Course>, groupedIds: set<string>)
    returns (finalStructure: seq<Item>)
    ensures finalStructure == structure + Singles(Filter(courses, Not(InIds(groupedIds))))
  {
    finalStructure := structure;
    var notGrouped := Not(InIds(groupedIds));
    var k := 0;
    while k < |courses|
      invariant 0 <= k <= |courses|
      invariant finalStructure == structure + Singles(Filter(courses[..k], notGrouped))
    {
      var c := courses[k];
      assert courses[..k + 1] == courses[..k] + [c];
      FilterSnoc1(courses[..k], c, notGrouped);
      SinglesAppend(Filter(courses[..k], notGrouped), if notGrouped(c) then [c] else []);
      if c.id !in groupedIds {
        finalStructure := finalStructure + [Single(c)];
      }
      k := k + 1;
    }
    assert courses[..k] == courses;
  }

  /** `processCourseListWithGroups` as the engine runs it. */
  method ProcessCourseListWithGroups(rawCourses: seq<Course>) returns (result: seq<Item>)
    ensures result == ProcessedList(rawCourses)
  {
    var courses := rawCourses;
    var optimizations := FindOptimizations(courses);
    if |optimizations| == 0 {
      return Singles(courses);
    }
    var finalStructure, groupedIds := CollectGroups(optimizations);
    finalStructure := AppendUngrouped(finalStructure, courses, groupedIds);
    result := SortBy(finalStructure, ItemLeq);
  }

  // ---------------------------------------------------------------------
  // Properties of the merged list
  // ---------------------------------------------------------------------

  lemma {:induction false} FlattenSingles(cs: seq<Course>)
    ensures Flatten(Singles(cs)) == cs
  {
    if cs != [] {
      FlattenSingles(cs[1..]);
      assert Singles(cs) == [Single(cs[0])] + Singles(cs[1..]);
      FlatMapAppend([Single(cs[0])], Singles(cs[1..]), Members);
      assert Flatten([Single(cs[0])]) == [cs[0]] + Flatten([]);
      assert cs == [cs[0]] + cs[1..];
    }
  }

  lemma {:induction false} DistinctIdsAppend(a: seq<Course>, b: seq<Course>)
    requires DistinctIds(a) && DistinctIds(b) && Ids(a) !! Ids(b)
    ensures DistinctIds(a + b)
  {
    var s := a + b;
    forall i, j | 0 <= i < j < |s| ensures s[i].id != s[j].id {
      if i < |a| <= j {
        assert s[i] == a[i] && s[j] == b[j - |a|];
        assert s[i].id in Ids(a) && s[j].id in Ids(b);
      }
    }
  }

  /** Two positions of a list with distinct ids that hold the same id hold the same course. */
  lemma {:induction false} SameIdSameCourse(s: seq<Course>, x: Course, y: Course)
    requires DistinctIds(s) && x in s && y in s && x.id == y.id
    ensures x == y
  {
  }

  lemma {:induction false} DistinctIdsDiffer(s: seq<Course>, x: Course, y: Course)
    requires DistinctIds(s) && x in s && y in s && x != y
    ensures x.id != y.id
  {
  }

  /** A list with distinct ids holds each of its courses once. */
  lemma {:induction false} DistinctIdsCount(s: seq<Course>)
    requires DistinctIds(s)
    ensures forall x :: multiset(s)[x] == if x in s then 1 else 0
  {
    if s != [] {
      var h, t := s[0], s[1..];
      DistinctIdsCount(t);
      assert s == [h] + t;
      forall k | 0 <= k < |t| ensures t[k] != h {
        assert t[k] == s[k + 1];
      }
    }
  }

  /** With MAS and ASPY ids apart, the grouped courses carry distinct ids. */
  lemma {:induction false} OptimizeDistinctIds(queue: seq<Course>, aspys: seq<Course>, processed: set<string>)
    requires forall mas, aspy :: mas in queue && aspy in aspys ==> mas.id != aspy.id
    ensures DistinctIds(Flatten(Optimize(queue, aspys, processed)))
  {
    if queue != [] {
      var mas, tail := queue[0], queue[1..];
      assert forall m, a :: m in tail && a in aspys ==> m.id != a.id by {
        forall m, a | m in tail && a in aspys ensures m.id != a.id {
          assert m in queue;
        }
      }
      var b := BestIndex(mas, aspys, processed);
      if mas.id in processed || b < 0 {
        assert Optimize(queue, aspys, processed) == Optimize(tail, aspys, processed);
        OptimizeDistinctIds(tail, aspys, processed);
      } else {
        var aspy := aspys[b];
        var processed' := processed + {mas.id, aspy.id};
        var rest := Optimize(tail, aspys, processed');
        assert Optimize(queue, aspys, processed) == [MakeGroup(mas, aspy)] + rest;
        OptimizeDistinctIds(tail, aspys, processed');
        OptimizeMembers(tail, aspys, processed');
        assert mas.id != aspy.id;
        GroupThenRest(MakeGroup(mas, aspy), rest, processed');
      }
    }
  }

  /** A group of two differently numbered courses, all of whose ids are taken, before groups that use no taken id. */
  lemma {:induction false} GroupThenRest(g: Item, rest: seq<Item>, taken: set<string>)
    requires g.Group? && |g.courses| == 2 && g.courses[0].id != g.courses[1].id
    requires g.courses[0].id in taken && g.courses[1].id in taken
    requires DistinctIds(Flatten(rest))
    requires forall c :: c in Flatten(rest) ==> c.id !in taken
    ensures DistinctIds(Flatten([g] + rest))
  {
    FlatMapAppend([g], rest, Members);
    assert Flatten([g]) == g.courses + Flatten([]);
    assert Ids(g.courses) !! Ids(Flatten(rest)) by {
      forall c | c in Flatten(rest) ensures c.id !in Ids(g.courses) {
        assert Ids(g.courses) <= taken;
      }
    }
    DistinctIdsAppend(g.courses, Flatten(rest));
  }

  /** The grouped courses are exactly the input courses whose id was collected. */
  lemma {:induction false} GroupedCoursesAreFiltered(courses: seq<Course>)
    requires DistinctIds(courses)
    ensures multiset(Flatten(Optimizations(courses)))
         == multiset(Filter(courses, InIds(GroupedIds(Optimizations(courses)))))
  {
    var queue, aspys := MasQueue(courses), Filter(courses, IsAspy);
    var grouped := Flatten(Optimizations(courses));
    MasQueueMembers(courses);
    AspyListFacts(courses);
    OptimizeMembers(queue, aspys, {});
    forall mas, aspy | mas in queue && aspy in aspys ensures mas.id != aspy.id {
      DistinctIdsDiffer(courses, mas, aspy);
    }
    OptimizeDistinctIds(queue, aspys, {});
    DistinctSubList(grouped, courses);
  }

  /** A list of distinct-id courses drawn from `courses` is, as a multiset, `courses` filtered by its ids. */
  lemma {:induction false} DistinctSubList(sub: seq<Course>, courses: seq<Course>)
    requires DistinctIds(sub) && DistinctIds(courses)
    requires forall c :: c in sub ==> c in courses
    ensures multiset(sub) == multiset(Filter(courses, InIds(Ids(sub))))
  {
    var ids := Ids(sub);
    var picked := Filter(courses, InIds(ids));
    DistinctIdsCount(sub);
    DistinctIdsCount(courses);
    FilterMembers(courses, InIds(ids));
    FilterPartition(courses, InIds(ids));
    forall x ensures multiset(sub)[x] == multiset(picked)[x] {
      if x in picked {
        var y :| y in sub && y.id == x.id;
        SameIdSameCourse(courses, x, y);
      }
      assert multiset(picked)[x] <= multiset(courses)[x];
    }
    assert multiset(sub) == multiset(picked);
  }

  /**
   * Every input course appears exactly once in the merged list, inside one
   * group or on its own (course ids are unique, as the loaders make them).
   */
  lemma {:induction false} ProcessedListComplete(courses: seq<Course>)
    requires DistinctIds(courses)
    ensures multiset(Flatten(ProcessedList(courses))) == multiset(courses)
    ensures forall c :: c in courses ==> multiset(Flatten(ProcessedList(courses)))[c] == 1
  {
    var groups := Optimizations(courses);
    if groups == [] {
      FlattenSingles(courses);
    } else {
      var ids := GroupedIds(groups);
      var rest := Filter(courses, Not(InIds(ids)));
      SortByFlatMap(Structure(courses), ItemLeq, Members);
      FlatMapAppend(groups, Singles(rest), Members);
      FlattenSingles(rest);
      GroupedCoursesAreFiltered(courses);
      FilterPartition(courses, InIds(ids));
    }
    DistinctIdsCount(courses);
  }

  lemma {:induction false} ItemLeqTotalPreorder()
    ensures TotalPreorder(ItemLeq)
  {
  }

  /**
   * When some group exists, the merged list is sorted by date (a group by its
   * first course) and entries with the same date keep their order: the
   * groups first, in the order they were found, then the other courses in
   * input order.
   */
  lemma {:induction false} ProcessedListOrder(courses: seq<Course>, x0: Item)
    requires Optimizations(courses) != []
    ensures Sorted(ProcessedList(courses), ItemLeq)
    ensures Filter(ProcessedList(courses), EquivTo(ItemLeq, x0)) == Filter(Structure(courses), EquivTo(ItemLeq, x0))
  {
    ItemLeqTotalPreorder();
    SortBySorted(Structure(courses), ItemLeq);
    SortByStable(Structure(courses), ItemLeq, x0);
  }

  /** Without any group the courses come back in their input order, each on its own. */
  lemma {:induction false} ProcessedListWithoutGroups(courses: seq<Course>)
    requires Optimizations(courses) == []
    ensures Flatten(ProcessedList(courses)) == courses
    ensures forall item :: item in ProcessedList(courses) ==> item.Single?
  {
    FlattenSingles(courses);
  }
}
