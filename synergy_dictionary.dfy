/**
 * The audit-dictionary generator (generate_synergy_dictionary.cjs): weighted
 * keyword rules over course titles, the pairwise match score, the global
 * greedy 1:1 assignment of ASPY titles to MAS titles in descending score
 * order, the orphan rows and the final three-tier ordering of the rows.
 */
module SynergyDictionary {

  import opened Text
  import opened Sorting
  import opened Records

  // ---------------------------------------------------------------------
  // The regular expressions of the rules
  // ---------------------------------------------------------------------

  /**
   * A rule's regular expression, written as its alternatives (`a|b`), each
   * alternative as its pieces separated by `.*` (`puente.*gr[uú]a`), each
   * piece as the source text of its characters and bracketed classes.
   */
  type Pattern = seq<seq<string>>

  /** Case-insensitive comparison of the `/i` flag: both sides are upper-cased. */
  predicate ClassMatches(c: char, cls: string) {
    UpperChar(c) in Upper(cls)
  }

  /**
   * Where the piece written `src` ends when matched against `t` from
   * position `i`, or -1 if it does not match there. A bracketed `[...]` is
   * one class matching one character; any other character matches itself.
   */
  function MatchEnd(t: string, src: string, i: nat): (e: int)
    ensures e == -1 || i <= e <= |t|
    decreases |src|
  {
    if src == [] then (if i <= |t| then i else -1)
    else if i >= |t| then -1
    else if src[0] == '[' && ']' in src[1..] then
      var k := IndexOf(src[1..], ']');
      if ClassMatches(t[i], src[1..k + 1]) then MatchEnd(t, src[k + 2..], i + 1) else -1
    else if ClassMatches(t[i], [src[0]]) then MatchEnd(t, src[1..], i + 1) else -1
  }

  /** The leftmost position at or after `from` where the piece `src` matches, or -1. */
  function FindPiece(t: string, src: string, from: nat): (r: int)
    ensures r == -1 || (from <= r && MatchEnd(t, src, r) >= 0)
    ensures forall i: nat :: from <= i && (r == -1 || i < r) ==> MatchEnd(t, src, i) == -1
    decreases |t| + 1 - from
  {
    if from > |t| then -1
    else if MatchEnd(t, src, from) >= 0 then from
    else
      var r := FindPiece(t, src, from + 1);
      assert MatchEnd(t, src, from) == -1;
      r
  }

  /**
   * The pieces match one after another from `from` on, with anything in
   * between (`.*`). Taking each piece at its leftmost position leaves the
   * most room for the rest, so this decides the alternative.
   */
  predicate PiecesFrom(t: string, pieces: seq<string>, from: nat)
    decreases |pieces|
  {
    pieces == []
    || (var i := FindPiece(t, pieces[0], from);
        i >= 0 && PiecesFrom(t, pieces[1..], MatchEnd(t, pieces[0], i)))
  }

  /** `pattern.test(t)`: some alternative matches somewhere in `t`. */
  predicate Test(pattern: Pattern, t: string)
    decreases |pattern|
  {
    pattern != [] && (PiecesFrom(t, pattern[0], 0) || Test(pattern[1..], t))
  }

  // ---------------------------------------------------------------------
  // Keyword rules
  // ---------------------------------------------------------------------

  /** A rule: its pattern, the label it contributes (`name`, since `label` is a Dafny keyword) and the label's weight. */
  datatype Rule = Rule(pattern: Pattern, name: string, weight: int)

  /** The keyword rules in declaration order (more specific rules first). */
  const Rules: seq<Rule> := [
    Rule([["carretilla"], ["retracil"], ["apilador"]], "Carretillas", 3),
    Rule([["plataforma", "elevador"], ["pemp"]], "PEMP", 3),
    Rule([["plataforma"]], "Plataformas", 2),
    Rule([["puente", "gr[uú]a"]], "Puente Grúa", 3),
    Rule([["gr[uú]a", "torre"]], "Grúa Torre", 3),
    Rule([["gr[uú]a", "m[oó]vil"], ["autogrua"]], "Grúa Móvil", 3),
    Rule([["gr[uú]a"]], "Grúa", 2),
    Rule([["espacio", "confinado"]], "Espacios Confinados", 3),
    Rule([["primeros", "auxilio"]], "Primeros Auxilios", 3),
    Rule([["extinci[oó]n", "incendio"], ["incendio", "extinci"]], "Extinción Incendios", 3),
    Rule([["incendio"], ["fuego"]], "Incendios", 2),
    Rule([["emergencia"], ["evacuaci[oó]n"]], "Emergencias", 2),
    Rule([["altura"], ["vertical"]], "Trabajos en Altura", 3),
    Rule([["recurso", "preventivo"]], "Recurso Preventivo", 3),
    Rule([["el[eé]ctric"], ["tensi[oó]n"]], "Riesgo Eléctrico", 3),
    Rule([["pantalla", "visualizaci"], ["pvd"]], "PVD (Pantallas)", 3),
    Rule([["oficina"]], "Trabajo en Oficina", 2),
    Rule([["soldadura"], ["soldar"]], "Soldadura", 3),
    Rule([["manipula", "carga"], ["manual", "carga"]], "Manipulación Cargas", 3),
    Rule([["ergonomia"], ["ergon[oó]mic"]], "Ergonomía", 2),
    Rule([["se[nñ]alizaci[oó]n"]], "Señalización", 2),
    Rule([["ruido"]], "Ruido", 3),
    Rule([["qu[ií]mico"]], "Riesgo Químico", 3),
    Rule([["atex"], ["atmosfera", "explosiva"]], "ATEX", 3),
    Rule([["amianto"]], "Amianto", 3),
    Rule([["metal", "construcci[oó]n"], ["sector", "metal"]], "Sector Metal", 3),
    Rule([["construcci[oó]n"]], "Construcción", 2),
    Rule([["metal"]], "Metal", 2),
    Rule([["alimenta"], ["higiene", "alimenta"]], "Alimentación", 3),
    Rule([["dea"], ["desfibrilador"]], "DEA", 3),
    Rule([["camion"], ["vehiculo", "pesado"]], "Conducción Vehículos", 2),
    Rule([["conducci[oó]n"]], "Conducción", 1),
    Rule([["liderazgo"], ["equipo", "trabajo"]], "Liderazgo/Equipos", 2),
    Rule([["prl"], ["prevenci[oó]n", "riesgo"]], "PRL", 1),
    Rule([["b[aá]sic"]], "Nivel Básico", 1),
    Rule([["seguridad"]], "Seguridad", 1)
  ]

  /** `KEYWORD_RULES.findIndex(r => r.label === name)`: the first rule with that label, or -1. */
  function NameIndex(rules: seq<Rule>, name: string): (r: int)
    ensures -1 <= r < |rules|
    ensures r >= 0 ==> rules[r].name == name
    ensures forall i :: 0 <= i < |rules| && (r == -1 || i < r) ==> rules[i].name != name
  {
    if rules == [] then -1
    else if rules[0].name == name then 0
    else var k := NameIndex(rules[1..], name); if k == -1 then -1 else k + 1
  }

  /** No two rules share a label. */
  predicate DistinctNames(rules: seq<Rule>) {
    forall i, j :: 0 <= i < j < |rules| ==> rules[i].name != rules[j].name
  }

  lemma {:induction false} LabelsDistinct0()
    ensures forall j :: 0 < j < |Rules| ==> Rules[0].name != Rules[j].name
  {
  }

  lemma {:induction false} LabelsDistinct1()
    ensures forall j :: 1 < j < |Rules| ==> Rules[1].name != Rules[j].name
  {
  }

  lemma {:induction false} LabelsDistinct2()
    ensures forall j :: 2 < j < |Rules| ==> Rules[2].name != Rules[j].name
  {
  }

  lemma {:induction false} LabelsDistinct3()
    ensures forall j :: 3 < j < |Rules| ==> Rules[3].name != Rules[j].name
  {
  }

  lemma {:induction false} LabelsDistinct4()
    ensures forall j :: 4 < j < |Rules| ==> Rules[4].name != Rules[j].name
  {
  }

  lemma {:induction false} LabelsDistinct5()
    ensures forall j :: 5 < j < |Rules| ==> Rules[5].name != Rules[j].name
  {
  }

  lemma {:induction false} LabelsDistinctFrom6()
    ensures forall i, j :: 6 <= i < 12 && i < j < |Rules| ==> Rules[i].name != Rules[j].name
  {
  }

  lemma {:induction false} LabelsDistinctFrom12()
    ensures forall i, j :: 12 <= i < 18 && i < j < |Rules| ==> Rules[i].name != Rules[j].name
  {
  }

  lemma {:induction false} LabelsDistinctFrom18()
    ensures forall i, j :: 18 <= i < 24 && i < j < |Rules| ==> Rules[i].name != Rules[j].name
  {
  }

  lemma {:induction false} LabelsDistinctFrom24()
    ensures forall i, j :: 24 <= i < j < |Rules| ==> Rules[i].name != Rules[j].name
  {
  }

  /** Every label of the rule table is declared once, so `find` by label returns the rule itself. */
  lemma {:induction false} RulesDistinctNames()
    ensures DistinctNames(Rules)
  {
    forall i, j | 0 <= i < j < |Rules| ensures Rules[i].name != Rules[j].name {
      if i == 0 {
        LabelsDistinct0();
      } else if i == 1 {
        LabelsDistinct1();
      } else if i == 2 {
        LabelsDistinct2();
      } else if i == 3 {
        LabelsDistinct3();
      } else if i == 4 {
        LabelsDistinct4();
      } else if i == 5 {
        LabelsDistinct5();
      } else if i < 12 {
        LabelsDistinctFrom6();
      } else if i < 18 {
        LabelsDistinctFrom12();
      } else if i < 24 {
        LabelsDistinctFrom18();
      } else {
        LabelsDistinctFrom24();
      }
    }
  }

  /** Every weight of the table is 1, 2 or 3. */
  lemma {:induction false} RuleWeights()
    ensures forall i :: 0 <= i < |Rules| ==> 1 <= Rules[i].weight <= 3
  {
  }

  // ---------------------------------------------------------------------
  // Keyword extraction
  // ---------------------------------------------------------------------

  /** One element of `getKeywords`' result, `{ label, weight }`. */
  datatype Keyword = Keyword(name: string, weight: int)

  function KeywordOf(rule: Rule): Keyword {
    Keyword(rule.name, rule.weight)
  }

  /** The keywords of the rules of `rules` whose pattern matches `title`, in rule order. */
  function Fired(rules: seq<Rule>, title: string): (r: seq<Keyword>)
    ensures |r| <= |rules|
  {
    if rules == [] then []
    else (if Test(rules[0].pattern, title) then [KeywordOf(rules[0])] else []) + Fired(rules[1..], title)
  }

  /** `getKeywords(title)`: a missing or empty title has no keywords. */
  function Keywords(title: string): (r: seq<Keyword>)
    ensures title == "" ==> r == []
  {
    if title == "" then [] else Fired(Rules, title)
  }

  method GetKeywords(title: string) returns (results: seq<Keyword>)
    ensures results == Keywords(title)
  {
    if title == "" {
      return [];
    }
    results := FireRules(Rules, title);
  }

  /** The loop of `getKeywords`: test every rule in turn and push the keyword of each that matches. */
  method FireRules(rules: seq<Rule>, title: string) returns (results: seq<Keyword>)
    ensures results == Fired(rules, title)
  {
    results := [];
    var i := 0;
    while i < |rules|
      invariant 0 <= i <= |rules|
      invariant results + Fired(rules[i..], title) == Fired(rules, title)
    {
      assert rules[i..][1..] == rules[i + 1..];
      if Test(rules[i].pattern, title) {
        results := results + [KeywordOf(rules[i])];
      }
      i := i + 1;
    }
  }

  /** Every fired keyword comes from a rule whose pattern matches; `i` is that rule. */
  lemma {:induction false} FiredSource(rules: seq<Rule>, title: string, kw: Keyword) returns (i: int)
    requires kw in Fired(rules, title)
    ensures 0 <= i < |rules| && Test(rules[i].pattern, title) && kw == KeywordOf(rules[i])
  {
    if Test(rules[0].pattern, title) && kw == KeywordOf(rules[0]) {
      i := 0;
    } else {
      var k := FiredSource(rules[1..], title, kw);
      i := k + 1;
    }
  }

  /** Every rule whose pattern matches contributes its keyword: there is no exclusivity. */
  lemma {:induction false} FiredComplete(rules: seq<Rule>, title: string, i: int)
    requires 0 <= i < |rules| && Test(rules[i].pattern, title)
    ensures KeywordOf(rules[i]) in Fired(rules, title)
  {
    if i > 0 {
      FiredComplete(rules[1..], title, i - 1);
    }
  }

  /** A keyword fired by the tail of `rules` sits one position further in `rules`. */
  lemma {:induction false} FiredShift(rules: seq<Rule>, title: string, x: Keyword)
    requires DistinctNames(rules) && rules != [] && x in Fired(rules[1..], title)
    ensures 1 <= NameIndex(rules, x.name) == NameIndex(rules[1..], x.name) + 1
  {
    var k := FiredSource(rules[1..], title, x);
    assert rules[k + 1].name == x.name;
  }

  /** With distinct labels, the keywords follow the rule order: their rule positions increase. */
  lemma {:induction false} FiredOrdered(rules: seq<Rule>, title: string)
    requires DistinctNames(rules)
    ensures forall a, b :: 0 <= a < b < |Fired(rules, title)| ==>
      NameIndex(rules, Fired(rules, title)[a].name) < NameIndex(rules, Fired(rules, title)[b].name)
  {
    if rules != [] {
      var r, rest := Fired(rules, title), Fired(rules[1..], title);
      FiredOrdered(rules[1..], title);
      var head := if Test(rules[0].pattern, title) then [KeywordOf(rules[0])] else [];
      assert r == head + rest;
      forall a, b | 0 <= a < b < |r|
        ensures NameIndex(rules, r[a].name) < NameIndex(rules, r[b].name)
      {
        FiredShift(rules, title, r[b]);
        if a >= |head| {
          FiredShift(rules, title, r[a]);
        }
      }
    }
  }

  /** With distinct labels, a fired keyword's label finds the rule it came from. */
  lemma {:induction false} FiredRule(rules: seq<Rule>, title: string, kw: Keyword) returns (i: int)
    requires DistinctNames(rules) && kw in Fired(rules, title)
    ensures i == NameIndex(rules, kw.name) && 0 <= i < |rules|
    ensures kw == KeywordOf(rules[i]) && Test(rules[i].pattern, title)
  {
    i := FiredSource(rules, title, kw);
  }

  /** The label of a keyword finds the rule it came from, with the same weight. */
  lemma {:induction false} KeywordRule(title: string, kw: Keyword)
    requires kw in Keywords(title)
    ensures NameIndex(Rules, kw.name) >= 0
    ensures Rules[NameIndex(Rules, kw.name)].weight == kw.weight
    ensures 1 <= kw.weight <= 3
  {
    RulesDistinctNames();
    var i := FiredRule(Rules, title, kw);
    RuleWeights();
    assert 1 <= Rules[i].weight <= 3;
  }

  /**
   * `getKeywords` yields one keyword per matching rule and nothing else, in
   * the order of the rules, with no exclusivity between rules.
   */
  lemma {:induction false} KeywordsIff(title: string)
    requires title != ""
    ensures forall i :: 0 <= i < |Rules| ==>
      (KeywordOf(Rules[i]) in Keywords(title) <==> Test(Rules[i].pattern, title))
    ensures forall kw :: kw in Keywords(title) ==> exists i :: 0 <= i < |Rules| && kw == KeywordOf(Rules[i])
    ensures forall a, b :: 0 <= a < b < |Keywords(title)| ==>
      NameIndex(Rules, Keywords(title)[a].name) < NameIndex(Rules, Keywords(title)[b].name)
  {
    RulesDistinctNames();
    FiredIff(Rules, title);
  }

  /** `KeywordsIff` for any table whose labels are distinct. */
  lemma {:induction false} FiredIff(rules: seq<Rule>, title: string)
    requires DistinctNames(rules)
    ensures forall i :: 0 <= i < |rules| ==>
      (KeywordOf(rules[i]) in Fired(rules, title) <==> Test(rules[i].pattern, title))
    ensures forall kw :: kw in Fired(rules, title) ==> exists i :: 0 <= i < |rules| && kw == KeywordOf(rules[i])
    ensures forall a, b :: 0 <= a < b < |Fired(rules, title)| ==>
      NameIndex(rules, Fired(rules, title)[a].name) < NameIndex(rules, Fired(rules, title)[b].name)
  {
    forall i | 0 <= i < |rules| ensures KeywordOf(rules[i]) in Fired(rules, title) <==> Test(rules[i].pattern, title) {
      if Test(rules[i].pattern, title) {
        FiredComplete(rules, title, i);
      }
      if KeywordOf(rules[i]) in Fired(rules, title) {
        var k := FiredSource(rules, title, KeywordOf(rules[i]));
        assert rules[k].name == rules[i].name;
      }
    }
    forall kw | kw in Fired(rules, title) ensures exists i :: 0 <= i < |rules| && kw == KeywordOf(rules[i]) {
      var k := FiredSource(rules, title, kw);
    }
    FiredOrdered(rules, title);
  }

  // ---------------------------------------------------------------------
  // Match score
  // ---------------------------------------------------------------------

  /** `{ score, labels }` as `matchScore` returns it. */
  datatype MatchResult = MatchResult(score: int, labels: seq<string>)

  /** The labels of a keyword list (`ks.map(k => k.label)`). */
  function Names(ks: seq<Keyword>): (r: seq<string>)
    ensures |r| == |ks|
    ensures forall i :: 0 <= i < |ks| ==> r[i] == ks[i].name
  {
    if ks == [] then [] else [ks[0].name] + Names(ks[1..])
  }

  lemma {:induction false} NamesAppend(a: seq<Keyword>, b: seq<Keyword>)
    ensures Names(a + b) == Names(a) + Names(b)
  {
    if a != [] {
      assert (a + b)[1..] == a[1..] + b;
      NamesAppend(a[1..], b);
    } else {
      assert a + b == b;
    }
  }

  /** The keywords of `k1` whose label also occurs in `k2`, in `k1`'s order. */
  function Shared(k1: seq<Keyword>, k2: seq<Keyword>): (r: seq<Keyword>)
    ensures |r| <= |k1|
  {
    if k1 == [] then []
    else (if k1[0].name in Names(k2) then [k1[0]] else []) + Shared(k1[1..], k2)
  }

  /** `Shared` keeps exactly the keywords of `k1` whose label `k2` has. */
  lemma {:induction false} SharedMembers(k1: seq<Keyword>, k2: seq<Keyword>)
    ensures forall kw :: kw in Shared(k1, k2) <==> kw in k1 && kw.name in Names(k2)
  {
    if k1 != [] {
      SharedMembers(k1[1..], k2);
      assert k1 == [k1[0]] + k1[1..];
    }
  }

  /** The sum of the weights of a keyword list. */
  function TotalWeight(ks: seq<Keyword>): int {
    if ks == [] then 0 else ks[0].weight + TotalWeight(ks[1..])
  }

  /** The rule of `rules` found by label has weight 2 or more (`rule && rule.weight >= 2`). */
  predicate IsSpecific(rules: seq<Rule>, name: string) {
    var i := NameIndex(rules, name);
    i >= 0 && rules[i].weight >= 2
  }

  /** `labels.some(label => IsSpecific(rules, label))` */
  predicate AnySpecific(rules: seq<Rule>, labels: seq<string>) {
    labels != [] && (IsSpecific(rules, labels[0]) || AnySpecific(rules, labels[1..]))
  }

  /** The body of `matchScore` once both keyword lists are known, judging labels by `rules`. */
  function Score(rules: seq<Rule>, k1: seq<Keyword>, k2: seq<Keyword>): MatchResult {
    var common := Shared(k1, k2);
    if !AnySpecific(rules, Names(common)) then MatchResult(0, [])
    else MatchResult(TotalWeight(common), Dedup(Names(common)))
  }

  /** `matchScore(t1, t2)` */
  function MatchScoreOf(t1: string, t2: string): MatchResult {
    Score(Rules, Keywords(t1), Keywords(t2))
  }

  lemma {:induction false} SharedCons(k1: seq<Keyword>, k2: seq<Keyword>, i: int)
    requires 0 <= i < |k1|
    ensures Shared(k1[i..], k2) == (if k1[i].name in Names(k2) then [k1[i]] else []) + Shared(k1[i + 1..], k2)
  {
    assert k1[i..][1..] == k1[i + 1..];
  }

  /** One step of the loop of `matchScore`: what keyword `i` adds to the weight and the labels. */
  lemma {:induction false} SharedStep(k1: seq<Keyword>, k2: seq<Keyword>, i: int)
    requires 0 <= i < |k1|
    ensures TotalWeight(Shared(k1[i..], k2))
         == (if k1[i].name in Names(k2) then k1[i].weight else 0) + TotalWeight(Shared(k1[i + 1..], k2))
    ensures Names(Shared(k1[i..], k2))
         == (if k1[i].name in Names(k2) then [k1[i].name] else []) + Names(Shared(k1[i + 1..], k2))
  {
    var head := if k1[i].name in Names(k2) then [k1[i]] else [];
    SharedCons(k1, k2, i);
    TotalWeightAppend(head, Shared(k1[i + 1..], k2));
    NamesAppend(head, Shared(k1[i + 1..], k2));
  }

  lemma {:induction false} TotalWeightAppend(a: seq<Keyword>, b: seq<Keyword>)
    ensures TotalWeight(a + b) == TotalWeight(a) + TotalWeight(b)
  {
    if a != [] {
      assert (a + b)[1..] == a[1..] + b;
      TotalWeightAppend(a[1..], b);
    } else {
      assert a + b == b;
    }
  }

  method MatchScore(t1: string, t2: string) returns (result: MatchResult)
    ensures result == MatchScoreOf(t1, t2)
  {
    var k1 := GetKeywords(t1);
    var k2 := GetKeywords(t2);
    result := ScoreKeywords(Rules, k1, k2);
  }

  /** The loop of `matchScore` over `t1`'s keywords, then the weight test and the de-duplication. */
  method ScoreKeywords(rules: seq<Rule>, k1: seq<Keyword>, k2: seq<Keyword>) returns (result: MatchResult)
    ensures result == Score(rules, k1, k2)
  {
    var totalWeight, commonLabels := SharedSums(k1, k2);
    var hasSpecific := AnySpecific(rules, commonLabels);
    if !hasSpecific {
      return MatchResult(0, []);
    }
    result := MatchResult(totalWeight, Dedup(commonLabels));
  }

  /** The loop of `matchScore`: the weight and the labels of the keywords of `k1` that `k2` shares. */
  method SharedSums(k1: seq<Keyword>, k2: seq<Keyword>) returns (totalWeight: int, commonLabels: seq<string>)
    ensures totalWeight == TotalWeight(Shared(k1, k2))
    ensures commonLabels == Names(Shared(k1, k2))
  {
    totalWeight := 0;
    commonLabels := [];
    var i := 0;
    while i < |k1|
      invariant 0 <= i <= |k1|
      invariant totalWeight + TotalWeight(Shared(k1[i..], k2)) == TotalWeight(Shared(k1, k2))
      invariant commonLabels + Names(Shared(k1[i..], k2)) == Names(Shared(k1, k2))
    {
      var kw1 := k1[i];
      SharedSumsStep(k1, k2, i, totalWeight, commonLabels);
      if kw1.name in Names(k2) {
        totalWeight := totalWeight + kw1.weight;
        commonLabels := commonLabels + [kw1.name];
      }
      i := i + 1;
    }
    assert k1[|k1|..] == [];
  }

  /** One step of the loop of `matchScore`: keyword `i` adds its weight and label exactly when `k2` has the label. */
  lemma {:induction false} SharedSumsStep(k1: seq<Keyword>, k2: seq<Keyword>, i: int, tw: int, cl: seq<string>)
    requires 0 <= i < |k1|
    requires tw + TotalWeight(Shared(k1[i..], k2)) == TotalWeight(Shared(k1, k2))
    requires cl + Names(Shared(k1[i..], k2)) == Names(Shared(k1, k2))
    ensures k1[i].name in Names(k2) ==>
      (tw + k1[i].weight) + TotalWeight(Shared(k1[i + 1..], k2)) == TotalWeight(Shared(k1, k2)) &&
      (cl + [k1[i].name]) + Names(Shared(k1[i + 1..], k2)) == Names(Shared(k1, k2))
    ensures k1[i].name !in Names(k2) ==>
      tw + TotalWeight(Shared(k1[i + 1..], k2)) == TotalWeight(Shared(k1, k2)) &&
      cl + Names(Shared(k1[i + 1..], k2)) == Names(Shared(k1, k2))
  {
    SharedStep(k1, k2, i);
    var rest := Names(Shared(k1[i + 1..], k2));
    if k1[i].name in Names(k2) {
      assert (cl + [k1[i].name]) + rest == cl + ([k1[i].name] + rest);
    } else {
      assert [] + rest == rest;
    }
  }

  lemma {:induction false} AnySpecificIff(rules: seq<Rule>, labels: seq<string>)
    ensures AnySpecific(rules, labels) <==> exists n :: n in labels && IsSpecific(rules, n)
  {
    if labels != [] {
      AnySpecificIff(rules, labels[1..]);
      assert labels == [labels[0]] + labels[1..];
    }
  }

  /** A sum of non-negative weights is at least any one of them. */
  lemma {:induction false} TotalWeightAtLeast(ks: seq<Keyword>, kw: Keyword)
    requires forall x :: x in ks ==> x.weight >= 0
    requires kw in ks
    ensures TotalWeight(ks) >= kw.weight
  {
    assert ks == [ks[0]] + ks[1..];
    if ks[0] != kw {
      TotalWeightAtLeast(ks[1..], kw);
    } else if ks[1..] != [] {
      TotalWeightAtLeast(ks[1..], ks[1]);
    }
  }

  /** Keywords whose weight is the weight `rules` gives their label, which is at least 1. */
  predicate WeightsFromRules(rules: seq<Rule>, ks: seq<Keyword>) {
    forall kw :: kw in ks ==>
      && NameIndex(rules, kw.name) >= 0
      && rules[NameIndex(rules, kw.name)].weight == kw.weight
      && kw.weight >= 1
  }

  /**
   * The score is 0 with no labels unless a shared label is specific; then it
   * is the weight of `k1`'s shared keywords, at least 2, and the labels are
   * the shared labels, once each.
   */
  lemma {:induction false} ScoreFacts(rules: seq<Rule>, k1: seq<Keyword>, k2: seq<Keyword>)
    requires WeightsFromRules(rules, k1)
    ensures var r := Score(rules, k1, k2);
      && (r.score > 0 <==> exists kw :: kw in k1 && kw.name in Names(k2) && IsSpecific(rules, kw.name))
      && (r.score <= 0 ==> r.score == 0 && r.labels == [])
      && (r.score > 0 ==> r.score >= 2 && r.score == TotalWeight(Shared(k1, k2)))
      && NoDup(r.labels)
      && (r.score > 0 ==> forall n :: n in r.labels <==> n in Names(k1) && n in Names(k2))
  {
    var common := Shared(k1, k2);
    SharedMembers(k1, k2);
    AnySpecificIff(rules, Names(common));
    if AnySpecific(rules, Names(common)) {
      var n :| n in Names(common) && IsSpecific(rules, n);
      var j :| 0 <= j < |common| && Names(common)[j] == n;
      assert common[j] in k1;
      TotalWeightAtLeast(common, common[j]);
    }
    SharedNames(k1, k2);
  }

  /** The labels of the shared keywords are the labels both lists have. */
  lemma {:induction false} SharedNames(k1: seq<Keyword>, k2: seq<Keyword>)
    ensures forall n :: n in Names(Shared(k1, k2)) <==> n in Names(k1) && n in Names(k2)
  {
    var common := Shared(k1, k2);
    SharedMembers(k1, k2);
    NamesMembers(common);
    NamesMembers(k1);
    forall n | n in Names(k1) && n in Names(k2) ensures n in Names(common) {
      var kw :| kw in k1 && kw.name == n;
      assert kw in common;
    }
  }

  /** A label is in `Names(ks)` exactly when some keyword of `ks` carries it. */
  lemma {:induction false} NamesMembers(ks: seq<Keyword>)
    ensures forall n :: n in Names(ks) <==> exists kw :: kw in ks && kw.name == n
  {
    forall n ensures n in Names(ks) <==> exists kw :: kw in ks && kw.name == n {
      if n in Names(ks) {
        var j :| 0 <= j < |ks| && Names(ks)[j] == n;
        assert ks[j] in ks;
      }
      if exists kw :: kw in ks && kw.name == n {
        var kw :| kw in ks && kw.name == n;
        var j :| 0 <= j < |ks| && ks[j] == kw;
        assert Names(ks)[j] == n;
      }
    }
  }

  /** `matchScore` on titles: the facts above, with the rule table's labels and weights. */
  lemma {:induction false} MatchScoreFacts(t1: string, t2: string)
    ensures var r := MatchScoreOf(t1, t2);
      && (r.score > 0 <==> exists kw :: kw in Keywords(t1) && kw.name in Names(Keywords(t2)) && IsSpecific(Rules, kw.name))
      && (r.score <= 0 ==> r.score == 0 && r.labels == [])
      && (r.score > 0 ==> r.score >= 2 && r.score == TotalWeight(Shared(Keywords(t1), Keywords(t2))))
      && NoDup(r.labels)
      && (r.score > 0 ==> forall n :: n in r.labels <==> n in Names(Keywords(t1)) && n in Names(Keywords(t2)))
  {
    forall kw | kw in Keywords(t1)
      ensures NameIndex(Rules, kw.name) >= 0 && Rules[NameIndex(Rules, kw.name)].weight == kw.weight && kw.weight >= 1
    {
      KeywordRule(t1, kw);
    }
    ScoreFacts(Rules, Keywords(t1), Keywords(t2));
  }

  // ---------------------------------------------------------------------
  // Candidate pairs
  // ---------------------------------------------------------------------

  /**
   * A row of the dictionary: `{ aspy, mas, score, keywords }` for a pair, or
   * an orphan with the other title empty. Orphan rows have no score, which
   * the final comparator reads as 0 (`b.score || 0`); they carry 0 here.
   */
  datatype Row = Row(aspy: string, mas: string, score: int, keywords: string)

  /**
   * A scoring function: `matchScore`, or any other function of two titles.
   * The candidate and dictionary stages are stated for any scorer and used
   * with `MatchScoreOf`; nothing they promise depends on how it scores.
   */
  type Scorer = (string, string) -> MatchResult

  /** The pair row of two titles, with the shared labels joined by ", ". */
  function PairRow(score: Scorer, aspy: string, mas: string): (r: Row)
    ensures r.aspy == aspy && r.mas == mas && r.score == score(aspy, mas).score
  {
    var m := score(aspy, mas);
    Row(aspy, mas, m.score, Join(m.labels, ", "))
  }

  /** The candidates of one MAS title, in ASPY order: the inner loop of `buildDictionary`. */
  function CandidatesFor(score: Scorer, mas: string, aspys: seq<string>): seq<Row> {
    if aspys == [] then []
    else
      (if score(aspys[0], mas).score > 0 then [PairRow(score, aspys[0], mas)] else [])
      + CandidatesFor(score, mas, aspys[1..])
  }

  /** `allMatches` before sorting: every pair scoring above 0, MAS titles in the outer loop. */
  function Candidates(score: Scorer, aspys: seq<string>, mass: seq<string>): seq<Row> {
    if mass == [] then [] else CandidatesFor(score, mass[0], aspys) + Candidates(score, aspys, mass[1..])
  }

  method BuildCandidates(score: Scorer, aspys: seq<string>, mass: seq<string>) returns (allMatches: seq<Row>)
    ensures allMatches == Candidates(score, aspys, mass)
  {
    allMatches := [];
    var i := 0;
    while i < |mass|
      invariant 0 <= i <= |mass|
      invariant allMatches + Candidates(score, aspys, mass[i..]) == Candidates(score, aspys, mass)
    {
      var before := allMatches;
      allMatches := PushCandidates(score, allMatches, mass[i], aspys);
      CandidatesStep(score, aspys, mass, i, before);
      i := i + 1;
    }
    assert mass[|mass|..] == [];
  }

  /** One step of the outer loop: pushing the candidates of `mass[i]` moves the split point by one. */
  lemma {:induction false} CandidatesStep(score: Scorer, aspys: seq<string>, mass: seq<string>, i: int, before: seq<Row>)
    requires 0 <= i < |mass|
    requires before + Candidates(score, aspys, mass[i..]) == Candidates(score, aspys, mass)
    ensures (before + CandidatesFor(score, mass[i], aspys)) + Candidates(score, aspys, mass[i + 1..])
         == Candidates(score, aspys, mass)
  {
    assert mass[i..][1..] == mass[i + 1..];
    assert mass[i..][0] == mass[i];
    var here := CandidatesFor(score, mass[i], aspys);
    var later := Candidates(score, aspys, mass[i + 1..]);
    assert Candidates(score, aspys, mass[i..]) == here + later;
    assert (before + here) + later == before + (here + later);
  }

  /** The inner loop: push every ASPY title that scores above 0 with `mas`. */
  method PushCandidates(score: Scorer, allMatches: seq<Row>, mas: string, aspys: seq<string>) returns (out: seq<Row>)
    ensures out == allMatches + CandidatesFor(score, mas, aspys)
  {
    out := allMatches;
    var j := 0;
    while j < |aspys|
      invariant 0 <= j <= |aspys|
      invariant out + CandidatesFor(score, mas, aspys[j..]) == allMatches + CandidatesFor(score, mas, aspys)
    {
      var aspy := aspys[j];
      var result := score(aspy, mas);
      PushCandidatesStep(score, allMatches, mas, aspys, j, out);
      if result.score > 0 {
        out := out + [Row(aspy, mas, result.score, Join(result.labels, ", "))];
      }
      j := j + 1;
    }
    assert aspys[|aspys|..] == [];
  }

  /** One step of the inner loop: the ASPY title at `j` is pushed exactly when it scores above 0. */
  lemma {:induction false} PushCandidatesStep(score: Scorer, allMatches: seq<Row>, mas: string, aspys: seq<string>, j: int, out: seq<Row>)
    requires 0 <= j < |aspys|
    requires out + CandidatesFor(score, mas, aspys[j..]) == allMatches + CandidatesFor(score, mas, aspys)
    ensures score(aspys[j], mas).score > 0 ==>
      (out + [PairRow(score, aspys[j], mas)]) + CandidatesFor(score, mas, aspys[j + 1..])
      == allMatches + CandidatesFor(score, mas, aspys)
    ensures score(aspys[j], mas).score <= 0 ==>
      out + CandidatesFor(score, mas, aspys[j + 1..]) == allMatches + CandidatesFor(score, mas, aspys)
  {
    assert aspys[j..][1..] == aspys[j + 1..];
    assert aspys[j..][0] == aspys[j];
    var tail := CandidatesFor(score, mas, aspys[j + 1..]);
    if score(aspys[j], mas).score > 0 {
      var row := PairRow(score, aspys[j], mas);
      assert CandidatesFor(score, mas, aspys[j..]) == [row] + tail;
      assert (out + [row]) + tail == out + ([row] + tail);
    } else {
      assert CandidatesFor(score, mas, aspys[j..]) == [] + tail;
      assert [] + tail == tail;
    }
  }

  /** Every candidate pairs a loaded ASPY title with a loaded MAS title, with their positive score. */
  lemma {:induction false} CandidateFacts(score: Scorer, aspys: seq<string>, mass: seq<string>, c: Row)
    requires c in Candidates(score, aspys, mass)
    ensures c.aspy in aspys && c.mas in mass
    ensures c == PairRow(score, c.aspy, c.mas) && c.score > 0
  {
    if c in CandidatesFor(score, mass[0], aspys) {
      CandidateForFacts(score, mass[0], aspys, c);
    } else {
      CandidateFacts(score, aspys, mass[1..], c);
    }
  }

  lemma {:induction false} CandidateForFacts(score: Scorer, mas: string, aspys: seq<string>, c: Row)
    requires c in CandidatesFor(score, mas, aspys)
    ensures c.aspy in aspys && c.mas == mas
    ensures c == PairRow(score, c.aspy, c.mas) && c.score > 0
  {
    if !(score(aspys[0], mas).score > 0 && c == PairRow(score, aspys[0], mas)) {
      CandidateForFacts(score, mas, aspys[1..], c);
    }
  }

  /** Conversely, every pair of loaded titles that scores above 0 is a candidate. */
  lemma {:induction false} CandidateComplete(score: Scorer, aspys: seq<string>, mass: seq<string>, aspy: string, mas: string)
    requires aspy in aspys && mas in mass && score(aspy, mas).score > 0
    ensures PairRow(score, aspy, mas) in Candidates(score, aspys, mass)
  {
    if mass[0] == mas {
      CandidateForComplete(score, mas, aspys, aspy);
    } else {
      CandidateComplete(score, aspys, mass[1..], aspy, mas);
    }
  }

  lemma {:induction false} CandidateForComplete(score: Scorer, mas: string, aspys: seq<string>, aspy: string)
    requires aspy in aspys && score(aspy, mas).score > 0
    ensures PairRow(score, aspy, mas) in CandidatesFor(score, mas, aspys)
  {
    if aspys[0] != aspy {
      CandidateForComplete(score, mas, aspys[1..], aspy);
    }
  }

  // ---------------------------------------------------------------------
  // Greedy 1:1 assignment
  // ---------------------------------------------------------------------

  /** The comparator `(a, b) => b.score - a.score`, as "sorts no later than": higher scores first. */
  predicate ScoreLeq(a: Row, b: Row) {
    b.score <= a.score
  }

  lemma {:induction false} ScoreLeqTotalPreorder()
    ensures TotalPreorder(ScoreLeq)
  {
  }

  /** The side of the dictionary a title belongs to. */
  datatype Side = AspySide | MasSide

  function Other(side: Side): Side {
    match side
    case AspySide => MasSide
    case MasSide => AspySide
  }

  /** The title a row carries on one side ('' on the missing side of an orphan). */
  function TitleOn(side: Side, r: Row): string {
    match side
    case AspySide => r.aspy
    case MasSide => r.mas
  }

  /** The titles of one side that a list of rows uses (`usedASPY`, `usedMAS`). */
  function Used(side: Side, rows: seq<Row>): set<string> {
    set r | r in rows :: TitleOn(side, r)
  }

  /** The accepted candidates: those none of whose titles an earlier accepted candidate used. */
  function Assign(cands: seq<Row>, usedAspy: set<string>, usedMas: set<string>): seq<Row> {
    if cands == [] then []
    else
      var m := cands[0];
      if m.aspy in usedAspy || m.mas in usedMas then Assign(cands[1..], usedAspy, usedMas)
      else [m] + Assign(cands[1..], usedAspy + {m.aspy}, usedMas + {m.mas})
  }

  method AssignPairs(matches: seq<Row>) returns (pairs: seq<Row>, usedAspy: set<string>, usedMas: set<string>)
    ensures pairs == Assign(matches, {}, {})
    ensures usedAspy == Used(AspySide, pairs) && usedMas == Used(MasSide, pairs)
  {
    pairs, usedAspy, usedMas := [], {}, {};
    var i := 0;
    while i < |matches|
      invariant 0 <= i <= |matches|
      invariant pairs + Assign(matches[i..], usedAspy, usedMas) == Assign(matches, {}, {})
      invariant usedAspy == Used(AspySide, pairs) && usedMas == Used(MasSide, pairs)
    {
      var m := matches[i];
      AssignStep(matches, i, pairs, usedAspy, usedMas);
      if !(m.aspy in usedAspy || m.mas in usedMas) {
        pairs := pairs + [m];
        usedAspy := usedAspy + {m.aspy};
        usedMas := usedMas + {m.mas};
      }
      i := i + 1;
    }
  }

  /** One step of the greedy pass: candidate `i` is accepted exactly when neither of its titles is used yet. */
  lemma {:induction false} AssignStep(matches: seq<Row>, i: int, pairs: seq<Row>, usedAspy: set<string>, usedMas: set<string>)
    requires 0 <= i < |matches|
    requires pairs + Assign(matches[i..], usedAspy, usedMas) == Assign(matches, {}, {})
    requires usedAspy == Used(AspySide, pairs) && usedMas == Used(MasSide, pairs)
    ensures var m := matches[i];
      m.aspy in usedAspy || m.mas in usedMas ==>
        pairs + Assign(matches[i + 1..], usedAspy, usedMas) == Assign(matches, {}, {})
    ensures var m := matches[i];
      !(m.aspy in usedAspy || m.mas in usedMas) ==>
        && (pairs + [m]) + Assign(matches[i + 1..], usedAspy + {m.aspy}, usedMas + {m.mas}) == Assign(matches, {}, {})
        && usedAspy + {m.aspy} == Used(AspySide, pairs + [m])
        && usedMas + {m.mas} == Used(MasSide, pairs + [m])
  {
    var m := matches[i];
    assert matches[i..][1..] == matches[i + 1..];
    assert matches[i..][0] == m;
    if !(m.aspy in usedAspy || m.mas in usedMas) {
      var later := Assign(matches[i + 1..], usedAspy + {m.aspy}, usedMas + {m.mas});
      assert Assign(matches[i..], usedAspy, usedMas) == [m] + later;
      assert (pairs + [m]) + later == pairs + ([m] + later);
      UsedSnoc(AspySide, pairs, m);
      UsedSnoc(MasSide, pairs, m);
    }
  }

  /**
   * The accepted candidates come from the list, avoid the titles already
   * used, and are one-to-one: no two share an ASPY title or a MAS title.
   */
  lemma {:induction false} AssignOneToOne(cands: seq<Row>, usedAspy: set<string>, usedMas: set<string>)
    ensures var r := Assign(cands, usedAspy, usedMas);
      && (forall p :: p in r ==> p in cands && p.aspy !in usedAspy && p.mas !in usedMas)
      && (forall i, j :: 0 <= i < j < |r| ==> r[i].aspy != r[j].aspy && r[i].mas != r[j].mas)
  {
    if cands != [] {
      var m := cands[0];
      assert cands == [m] + cands[1..];
      if m.aspy in usedAspy || m.mas in usedMas {
        AssignOneToOne(cands[1..], usedAspy, usedMas);
      } else {
        var rest := Assign(cands[1..], usedAspy + {m.aspy}, usedMas + {m.mas});
        AssignOneToOne(cands[1..], usedAspy + {m.aspy}, usedMas + {m.mas});
        var r := [m] + rest;
        forall i, j | 0 <= i < j < |r| ensures r[i].aspy != r[j].aspy && r[i].mas != r[j].mas {
          assert r[j] == rest[j - 1];
          if i > 0 {
            assert r[i] == rest[i - 1];
          }
        }
      }
    }
  }

  /** Candidate `c` gave way to an accepted pair that shares one of its titles and scores at least as much. */
  predicate Outscored(pairs: seq<Row>, c: Row) {
    exists p :: p in pairs && (p.aspy == c.aspy || p.mas == c.mas) && p.score >= c.score
  }

  /** Scores do not increase along the list. */
  predicate ScoresDescending(s: seq<Row>) {
    forall i, j :: 0 <= i < j < |s| ==> s[i].score >= s[j].score
  }

  /**
   * Greedy maximality: visited in non-increasing score order, a candidate
   * that is not accepted had a title already used on entry, or gave way to
   * an accepted pair sharing a title with at least its score.
   */
  lemma {:induction false} AssignBlocked(cands: seq<Row>, usedAspy: set<string>, usedMas: set<string>)
    requires ScoresDescending(cands)
    ensures var r := Assign(cands, usedAspy, usedMas);
      forall c :: c in cands ==> c in r || c.aspy in usedAspy || c.mas in usedMas || Outscored(r, c)
  {
    if cands != [] {
      var m, tail := cands[0], cands[1..];
      assert ScoresDescending(tail) by {
        forall i, j | 0 <= i < j < |tail| ensures tail[i].score >= tail[j].score {
          assert tail[i] == cands[i + 1] && tail[j] == cands[j + 1];
        }
      }
      var r := Assign(cands, usedAspy, usedMas);
      if m.aspy in usedAspy || m.mas in usedMas {
        AssignBlocked(tail, usedAspy, usedMas);
        assert r == Assign(tail, usedAspy, usedMas);
        forall c | c in cands ensures c in r || c.aspy in usedAspy || c.mas in usedMas || Outscored(r, c) {
          if c != m {
            var k :| 0 <= k < |cands| && cands[k] == c;
            assert tail[k - 1] == c;
          }
        }
      } else {
        var ua, um := usedAspy + {m.aspy}, usedMas + {m.mas};
        var rest := Assign(tail, ua, um);
        AssignBlocked(tail, ua, um);
        assert r == [m] + rest;
        forall c | c in cands ensures c in r || c.aspy in usedAspy || c.mas in usedMas || Outscored(r, c) {
          if c == m {
            assert r[0] == c;
          } else if c.aspy !in usedAspy && c.mas !in usedMas {
            var k :| 0 <= k < |cands| && cands[k] == c;
            assert tail[k - 1] == c;
            assert m.score >= c.score;
            AcceptedBlocks(m, rest, usedAspy, usedMas, c);
          }
        }
      }
    }
  }

  /** A candidate behind the accepted `m` is accepted later, or `m` or a later pair outscores it. */
  lemma {:induction false} AcceptedBlocks(m: Row, rest: seq<Row>, usedAspy: set<string>, usedMas: set<string>, c: Row)
    requires c.aspy !in usedAspy && c.mas !in usedMas && m.score >= c.score
    requires c in rest || c.aspy in usedAspy + {m.aspy} || c.mas in usedMas + {m.mas} || Outscored(rest, c)
    ensures c in [m] + rest || Outscored([m] + rest, c)
  {
    var r := [m] + rest;
    if c in rest {
      assert c in r;
    } else if c.aspy == m.aspy || c.mas == m.mas {
      assert m in r;
    } else {
      var p :| p in rest && (p.aspy == c.aspy || p.mas == c.mas) && p.score >= c.score;
      assert p in r;
    }
  }

  /** Adding a row adds its title to the used titles. */
  lemma {:induction false} UsedSnoc(side: Side, rows: seq<Row>, m: Row)
    ensures Used(side, rows + [m]) == Used(side, rows) + {TitleOn(side, m)}
  {
    assert forall r :: r in rows + [m] <==> r in rows || r == m;
  }

  /** No two rows of the list share an ASPY title or a MAS title. */
  predicate OneToOne(rows: seq<Row>) {
    forall i, j :: 0 <= i < j < |rows| ==> rows[i].aspy != rows[j].aspy && rows[i].mas != rows[j].mas
  }

  /** The accepted pairs: the candidates by non-increasing score (a stable sort), then the greedy pass. */
  function Pairs(score: Scorer, aspys: seq<string>, mass: seq<string>): seq<Row> {
    Assign(SortBy(Candidates(score, aspys, mass), ScoreLeq), {}, {})
  }

  /**
   * The pairs are candidates (two loaded titles scoring above 0), no title
   * is in two pairs, and every candidate left out gave way to a pair that
   * shares one of its titles and scores at least as much.
   */
  lemma {:induction false} PairsFacts(score: Scorer, aspys: seq<string>, mass: seq<string>)
    ensures var pairs := Pairs(score, aspys, mass);
      && OneToOne(pairs)
      && (forall p :: p in pairs ==>
            p.aspy in aspys && p.mas in mass && p.score > 0 && p == PairRow(score, p.aspy, p.mas))
      && (forall c :: c in Candidates(score, aspys, mass) ==> c in pairs || Outscored(pairs, c))
  {
    var cands := Candidates(score, aspys, mass);
    var sorted := SortBy(cands, ScoreLeq);
    ScoreLeqTotalPreorder();
    SortBySorted(cands, ScoreLeq);
    AssignOneToOne(sorted, {}, {});
    AssignBlocked(sorted, {}, {});
    forall p | p in Assign(sorted, {}, {})
      ensures p.aspy in aspys && p.mas in mass && p.score > 0 && p == PairRow(score, p.aspy, p.mas)
    {
      assert multiset(sorted)[p] > 0;
      CandidateFacts(score, aspys, mass, p);
    }
    forall c | c in cands ensures c in sorted {
      assert multiset(cands)[c] > 0;
    }
  }

  // ---------------------------------------------------------------------
  // Orphans and the final order
  // ---------------------------------------------------------------------

  /** `getKeywords(t).map(k => k.label).join(', ') || '—'` */
  function KeywordText(t: string): string {
    var j := Join(Names(Keywords(t)), ", ");
    if j == "" then "—" else j
  }

  /**
   * The orphan row of title `t`: the other side empty, the text `describe`
   * gives for the title (`KeywordText` in the application), no score (0).
   */
  function OrphanRow(describe: string -> string, side: Side, t: string): (r: Row)
    ensures TitleOn(side, r) == t && TitleOn(Other(side), r) == ""
    ensures r.keywords == describe(t) && r.score == 0
  {
    match side
    case AspySide => Row(t, "", 0, describe(t))
    case MasSide => Row("", t, 0, describe(t))
  }

  /** The orphan rows of the titles of one side that no pair used, in title order. */
  function Orphans(describe: string -> string, side: Side, titles: seq<string>, used: set<string>): seq<Row> {
    if titles == [] then []
    else (if titles[0] in used then [] else [OrphanRow(describe, side, titles[0])]) + Orphans(describe, side, titles[1..], used)
  }

  /** One orphan loop: push the orphan row of every title `used` lacks. */
  method AppendOrphans(describe: string -> string, side: Side, pairs: seq<Row>, titles: seq<string>, used: set<string>) returns (out: seq<Row>)
    ensures out == pairs + Orphans(describe, side, titles, used)
  {
    out := pairs;
    var i := 0;
    while i < |titles|
      invariant 0 <= i <= |titles|
      invariant out + Orphans(describe, side, titles[i..], used) == pairs + Orphans(describe, side, titles, used)
    {
      assert titles[i..][1..] == titles[i + 1..];
      var tail := Orphans(describe, side, titles[i + 1..], used);
      if titles[i] !in used {
        assert out + ([OrphanRow(describe, side, titles[i])] + tail) == (out + [OrphanRow(describe, side, titles[i])]) + tail;
        out := out + [OrphanRow(describe, side, titles[i])];
      } else {
        assert [] + tail == tail;
      }
      i := i + 1;
    }
    assert titles[|titles|..] == [];
  }

  /** `a.aspy && a.mas`: a row with both titles. */
  predicate IsPair(r: Row) {
    r.aspy != "" && r.mas != ""
  }

  /** `a.aspy || a.mas`: the title an orphan row is ordered by. */
  function SortTitle(r: Row): string {
    if r.aspy != "" then r.aspy else r.mas
  }

  /**
   * The final comparator as "sorts no later than": pairs before orphans,
   * pairs by non-increasing score, orphans by `collate` on their title.
   * `collate(a, b)` stands for `a.localeCompare(b) <= 0`, a collation the
   * model takes as a parameter.
   */
  function RowLeq(collate: (string, string) -> bool): (Row, Row) -> bool {
    (a: Row, b: Row) =>
      if IsPair(a) != IsPair(b) then IsPair(a)
      else if IsPair(a) then b.score <= a.score
      else collate(SortTitle(a), SortTitle(b))
  }

  /** With a consistent collation the final comparator is consistent too. */
  lemma {:induction false} RowLeqTotalPreorder(collate: (string, string) -> bool)
    requires TotalPreorder(collate)
    ensures TotalPreorder(RowLeq(collate))
  {
    var leq := RowLeq(collate);
    forall a, b ensures leq(a, b) || leq(b, a) {
      if !IsPair(a) && !IsPair(b) {
        assert collate(SortTitle(a), SortTitle(b)) || collate(SortTitle(b), SortTitle(a));
      }
    }
    forall a, b, c | leq(a, b) && leq(b, c) ensures leq(a, c) {
      if !IsPair(a) && !IsPair(b) && !IsPair(c) {
        assert collate(SortTitle(a), SortTitle(b)) && collate(SortTitle(b), SortTitle(c));
      }
    }
  }

  /** The rows before the final sort: the pairs, the ASPY orphans, the MAS orphans. */
  function Unsorted(describe: string -> string, pairs: seq<Row>, aspys: seq<string>, mass: seq<string>): seq<Row> {
    pairs + Orphans(describe, AspySide, aspys, Used(AspySide, pairs)) + Orphans(describe, MasSide, mass, Used(MasSide, pairs))
  }

  /** `buildDictionary()`'s result for loaded title lists, a scorer, an orphan labeller and a collation. */
  function Dictionary(score: Scorer, describe: string -> string, collate: (string, string) -> bool, aspys: seq<string>, mass: seq<string>): seq<Row> {
    SortBy(Unsorted(describe, Pairs(score, aspys, mass), aspys, mass), RowLeq(collate))
  }

  /** `buildDictionary` after loading: candidates, the score sort, the greedy pass, the orphan loops, the final sort. */
  method BuildDictionary(score: Scorer, describe: string -> string, collate: (string, string) -> bool, aspys: seq<string>, mass: seq<string>)
    returns (rows: seq<Row>)
    ensures rows == Dictionary(score, describe, collate, aspys, mass)
  {
    var allMatches := BuildCandidates(score, aspys, mass);
    allMatches := SortBy(allMatches, ScoreLeq);
    var pairs, usedAspy, usedMas := AssignPairs(allMatches);
    rows := AppendOrphans(describe, AspySide, pairs, aspys, usedAspy);
    rows := AppendOrphans(describe, MasSide, rows, mass, usedMas);
    rows := SortBy(rows, RowLeq(collate));
  }

  /**
   * The final order: every pair precedes every orphan, pairs come by
   * non-increasing score and orphans in collation order of their title.
   */
  lemma {:induction false} DictionaryOrder(score: Scorer, describe: string -> string, collate: (string, string) -> bool, aspys: seq<string>, mass: seq<string>)
    requires TotalPreorder(collate)
    ensures var d := Dictionary(score, describe, collate, aspys, mass);
      forall i, j :: 0 <= i < j < |d| ==>
        && (IsPair(d[j]) ==> IsPair(d[i]))
        && (IsPair(d[i]) && IsPair(d[j]) ==> d[i].score >= d[j].score)
        && (!IsPair(d[i]) && !IsPair(d[j]) ==> collate(SortTitle(d[i]), SortTitle(d[j])))
  {
    var d := Dictionary(score, describe, collate, aspys, mass);
    RowLeqTotalPreorder(collate);
    SortBySorted(Unsorted(describe, Pairs(score, aspys, mass), aspys, mass), RowLeq(collate));
    forall i, j | 0 <= i < j < |d|
      ensures && (IsPair(d[j]) ==> IsPair(d[i]))
              && (IsPair(d[i]) && IsPair(d[j]) ==> d[i].score >= d[j].score)
              && (!IsPair(d[i]) && !IsPair(d[j]) ==> collate(SortTitle(d[i]), SortTitle(d[j])))
    {
      assert RowLeq(collate)(d[i], d[j]);
    }
  }
  // ---------------------------------------------------------------------
  // Coverage: every loaded title is in exactly one row
  // ---------------------------------------------------------------------

  /** The loaded titles of one side. */
  function TitlesOf(side: Side, aspys: seq<string>, mass: seq<string>): seq<string> {
    match side
    case AspySide => aspys
    case MasSide => mass
  }

  /** The test "the row carries title `t` on `side`", as a filter predicate. */
  function HasTitle(side: Side, t: string): Row -> bool {
    r => TitleOn(side, r) == t
  }

  /** No two rows of the list carry the same title on `side`. */
  predicate DistinctTitles(side: Side, rows: seq<Row>) {
    forall i, j :: 0 <= i < j < |rows| ==> TitleOn(side, rows[i]) != TitleOn(side, rows[j])
  }

  /** Dropping the first row keeps the titles distinct, and the first title occurs nowhere after it. */
  lemma {:induction false} DistinctTitlesTail(side: Side, rows: seq<Row>)
    requires rows != [] && DistinctTitles(side, rows)
    ensures DistinctTitles(side, rows[1..])
    ensures TitleOn(side, rows[0]) !in Used(side, rows[1..])
  {
    var tail := rows[1..];
    forall i, j | 0 <= i < j < |tail| ensures TitleOn(side, tail[i]) != TitleOn(side, tail[j]) {
      assert tail[i] == rows[i + 1] && tail[j] == rows[j + 1];
    }
    forall r | r in tail ensures TitleOn(side, r) != TitleOn(side, rows[0]) {
      var k :| 0 <= k < |tail| && tail[k] == r;
      assert tail[k] == rows[k + 1];
    }
  }

  /** The titles used by a non-empty list: its first row's, and those of the rest. */
  lemma {:induction false} UsedCons(side: Side, rows: seq<Row>)
    requires rows != []
    ensures Used(side, rows) == {TitleOn(side, rows[0])} + Used(side, rows[1..])
  {
    assert rows == [rows[0]] + rows[1..];
    assert forall r :: r in rows <==> r == rows[0] || r in rows[1..];
  }

  /** In a list that never repeats a title on `side`, a used title is carried by exactly one row. */
  lemma {:induction false} CountDistinct(side: Side, rows: seq<Row>, t: string)
    requires DistinctTitles(side, rows)
    ensures |Filter(rows, HasTitle(side, t))| == if t in Used(side, rows) then 1 else 0
  {
    if rows != [] {
      DistinctTitlesTail(side, rows);
      CountDistinct(side, rows[1..], t);
      UsedCons(side, rows);
    }
  }

  /** The orphans of a duplicate-free title list carry each unused title once. */
  lemma {:induction false} CountOrphans(describe: string -> string, side: Side, titles: seq<string>, used: set<string>, t: string)
    requires NoDup(titles)
    ensures |Filter(Orphans(describe, side, titles, used), HasTitle(side, t))| == if t in titles && t !in used then 1 else 0
  {
    if titles != [] {
      var tail := titles[1..];
      assert NoDup(tail) by {
        forall i, j | 0 <= i < j < |tail| ensures tail[i] != tail[j] {
          assert tail[i] == titles[i + 1] && tail[j] == titles[j + 1];
        }
      }
      CountOrphans(describe, side, tail, used, t);
      var head := if titles[0] in used then [] else [OrphanRow(describe, side, titles[0])];
      FilterAppend(head, Orphans(describe, side, tail, used), HasTitle(side, t));
      assert titles == [titles[0]] + tail;
      if titles[0] == t {
        assert t !in tail by {
          forall k | 0 <= k < |tail| ensures tail[k] != t {
            assert tail[k] == titles[k + 1];
          }
        }
      }
    }
  }

  /** The orphans of the other side carry no non-empty title on this side. */
  lemma {:induction false} OtherOrphans(describe: string -> string, side: Side, titles: seq<string>, used: set<string>, t: string)
    requires t != ""
    ensures Filter(Orphans(describe, Other(side), titles, used), HasTitle(side, t)) == []
  {
    if titles != [] {
      OtherOrphans(describe, side, titles[1..], used, t);
      var head := if titles[0] in used then [] else [OrphanRow(describe, Other(side), titles[0])];
      FilterAppend(head, Orphans(describe, Other(side), titles[1..], used), HasTitle(side, t));
    }
  }

  /** A pair's title on one side is a loaded title of that side. */
  lemma {:induction false} PairTitleLoaded(score: Scorer, aspys: seq<string>, mass: seq<string>, side: Side, t: string)
    requires t in Used(side, Pairs(score, aspys, mass))
    ensures t in TitlesOf(side, aspys, mass)
  {
    PairsFacts(score, aspys, mass);
  }

  /**
   * With duplicate-free title lists that hold no empty title (as the loaders
   * produce them), every loaded title is carried by exactly one row of the
   * dictionary: its pair, or its orphan row.
   */
  lemma {:induction false} DictionaryCoverage(score: Scorer, describe: string -> string, collate: (string, string) -> bool,
                           aspys: seq<string>, mass: seq<string>, side: Side, t: string)
    requires NoDup(aspys) && NoDup(mass) && "" !in aspys && "" !in mass
    requires t in TitlesOf(side, aspys, mass)
    ensures |Filter(Dictionary(score, describe, collate, aspys, mass), HasTitle(side, t))| == 1
  {
    var pairs := Pairs(score, aspys, mass);
    PairsFacts(score, aspys, mass);
    var oa := Orphans(describe, AspySide, aspys, Used(AspySide, pairs));
    var om := Orphans(describe, MasSide, mass, Used(MasSide, pairs));
    var u := Unsorted(describe, pairs, aspys, mass);
    var p := HasTitle(side, t);
    FilterAppend(pairs + oa, om, p);
    FilterAppend(pairs, oa, p);
    FilterPermutation(u, Dictionary(score, describe, collate, aspys, mass), p);
    assert DistinctTitles(side, pairs);
    CountDistinct(side, pairs, t);
    if t in Used(side, pairs) {
      PairTitleLoaded(score, aspys, mass, side, t);
    }
    match side {
      case AspySide =>
        CountOrphans(describe, AspySide, aspys, Used(AspySide, pairs), t);
        OtherOrphans(describe, AspySide, mass, Used(MasSide, pairs), t);
      case MasSide =>
        CountOrphans(describe, MasSide, mass, Used(MasSide, pairs), t);
        OtherOrphans(describe, MasSide, aspys, Used(AspySide, pairs), t);
    }
  }
  // ---------------------------------------------------------------------
  // Loading the title lists
  // ---------------------------------------------------------------------

  /** No `[` is followed, anywhere later, by a `]`: `/\[.*?\]/` finds nothing. */
  predicate NoBracketGroup(s: string) {
    forall i, j :: 0 <= i < j < |s| && s[i] == '[' ==> s[j] != ']'
  }

  /**
   * `s.replace(/\[.*?\]/g, '')`: scanning from the left, each `[` that has
   * a `]` after it goes together with everything up to the first such `]`.
   */
  function RemoveBracketGroups(s: string): (r: string)
    ensures |r| <= |s|
    ensures forall c :: c in r ==> c in s
    ensures NoBracketGroup(r)
  {
    if s == [] then []
    else if s[0] == '[' && ']' in s[1..] then RemoveBracketGroups(s[IndexOf(s[1..], ']') + 2..])
    else
      var rest := RemoveBracketGroups(s[1..]);
      assert forall j :: 0 <= j < |rest| ==> rest[j] in s[1..];
      [s[0]] + rest
  }

  /** Text without a bracket group is left as it is. */
  lemma {:induction false} RemoveBracketGroupsKeeps(s: string)
    requires NoBracketGroup(s)
    ensures RemoveBracketGroups(s) == s
  {
    if s != [] {
      if s[0] == '[' {
        forall k | 0 <= k < |s[1..]| ensures s[1..][k] != ']' {
          assert s[1..][k] == s[k + 1];
        }
      }
      assert NoBracketGroup(s[1..]) by {
        forall i, j | 0 <= i < j < |s[1..]| && s[1..][i] == '[' ensures s[1..][j] != ']' {
          assert s[1..][i] == s[i + 1] && s[1..][j] == s[j + 1];
        }
      }
      RemoveBracketGroupsKeeps(s[1..]);
    }
  }

  /** Text before the first `[` is kept as it is. */
  lemma {:induction false} RemoveBracketGroupsPlain(a: string, s: string)
    requires '[' !in a
    ensures RemoveBracketGroups(a + s) == a + RemoveBracketGroups(s)
  {
    if a == [] {
      assert a + s == s;
    } else {
      assert (a + s)[0] == a[0] && (a + s)[1..] == a[1..] + s;
      RemoveBracketGroupsPlain(a[1..], s);
      assert a == [a[0]] + a[1..];
    }
  }

  /** A `[` and everything up to the first `]` after it go, and the scan goes on after that `]`. */
  lemma {:induction false} RemoveBracketGroupsDrops(x: string, s: string)
    requires ']' !in x
    ensures RemoveBracketGroups("[" + x + "]" + s) == RemoveBracketGroups(s)
  {
    var t := "[" + x + "]" + s;
    assert t[1..] == x + "]" + s;
    assert t[1..][|x|] == ']';
    assert t[1..][..|x|] == x;
    assert IndexOf(t[1..], ']') == |x|;
    assert t[|x| + 2..] == s;
  }

  /** A slice of text without a bracket group has none either. */
  lemma {:induction false} NoBracketGroupSlice(s: string, a: nat, b: nat)
    requires a <= b <= |s| && NoBracketGroup(s)
    ensures NoBracketGroup(s[a..b])
  {
    forall i, j | 0 <= i < j < b - a && s[a..b][i] == '[' ensures s[a..b][j] != ']' {
      assert s[a..b][i] == s[a + i] && s[a..b][j] == s[a + j];
    }
  }

  /**
   * `t.replace(/\s*\(.*?\)\s*$/, '')` on trimmed text: when it ends in `)`
   * and holds a `(`, everything from the first `(` on goes. The spaces the
   * pattern takes before that `(` are left to the `trim()` that follows.
   */
  function StripTrailingGroup(t: string): (r: string)
    ensures r <= t
    ensures HasTrailingGroup(t) ==> |r| < |t| && t[|r|] == '(' && '(' !in r
    ensures !HasTrailingGroup(t) ==> r == t
  {
    if t != [] && t[|t| - 1] == ')' && '(' in t then t[..IndexOf(t, '(')] else t
  }

  /** A text ending in `)` that holds a `(`: what `StripTrailingGroup` removes. */
  predicate HasTrailingGroup(t: string) {
    t != [] && t[|t| - 1] == ')' && '(' in t
  }

  /** The clean-up of an ASPY title in `loadASPY`: drop `[...]` groups, trim, drop a trailing `(...)` group, trim. */
  function CleanAspyTitle(s: string): string {
    Trim(StripTrailingGroup(Trim(RemoveBracketGroups(s))))
  }

  /** After the trailing group is stripped and the text trimmed, no trailing group is left. */
  lemma {:induction false} NoTrailingGroupLeft(y: string)
    requires y == [] || (!IsSpace(y[0]) && !IsSpace(y[|y| - 1]))
    ensures !HasTrailingGroup(Trim(StripTrailingGroup(y)))
  {
    var z := StripTrailingGroup(y);
    var r := Trim(z);
    if HasTrailingGroup(y) {
      assert '(' !in z;
      var b := TrimSlice(z);
      assert forall k :: 0 <= k < |r| ==> r[k] == z[b + k];
    } else {
      TrimKeeps(y);
    }
  }

  /** Trimming keeps text free of bracket groups. */
  lemma {:induction false} NoBracketGroupTrim(x: string)
    requires NoBracketGroup(x)
    ensures NoBracketGroup(Trim(x))
  {
    var a := TrimSlice(x);
    NoBracketGroupSlice(x, a, a + |Trim(x)|);
  }

  /** So does stripping a trailing group. */
  lemma {:induction false} NoBracketGroupStrip(y: string)
    requires NoBracketGroup(y)
    ensures NoBracketGroup(StripTrailingGroup(y))
  {
    var z := StripTrailingGroup(y);
    assert z == y[..|z|];
    NoBracketGroupSlice(y, 0, |z|);
  }

  /** The clean-up leaves no `[...]` group. */
  lemma {:induction false} CleanAspyTitleNoBrackets(s: string)
    ensures NoBracketGroup(CleanAspyTitle(s))
  {
    var y := Trim(RemoveBracketGroups(s));
    NoBracketGroupTrim(RemoveBracketGroups(s));
    NoBracketGroupStrip(y);
    NoBracketGroupTrim(StripTrailingGroup(y));
  }

  /** A cleaned title holds no `[...]` group, has no trailing `(...)` group and no space at either end. */
  lemma {:induction false} CleanAspyTitleFacts(s: string)
    ensures var r := CleanAspyTitle(s);
      && NoBracketGroup(r)
      && !HasTrailingGroup(r)
      && (r == [] || (!IsSpace(r[0]) && !IsSpace(r[|r| - 1])))
  {
    CleanAspyTitleNoBrackets(s);
    NoTrailingGroupLeft(Trim(RemoveBracketGroups(s)));
  }

  /** A title with no `[` and no trailing `(...)` group is only trimmed. */
  lemma {:induction false} CleanAspyTitlePlain(s: string)
    requires '[' !in s && !HasTrailingGroup(Trim(s))
    ensures CleanAspyTitle(s) == Trim(s)
  {
    RemoveBracketGroupsKeeps(s);
    TrimKeeps(Trim(s));
  }

  /** One bracket group between plain text: the group goes and the text around it stays. */
  lemma {:induction false} RemoveBracketGroupsAround(a: string, x: string, b: string)
    requires '[' !in a && ']' !in x && NoBracketGroup(b)
    ensures RemoveBracketGroups(a + "[" + x + "]" + b) == a + b
  {
    assert a + "[" + x + "]" + b == a + ("[" + x + "]" + b);
    RemoveBracketGroupsPlain(a, "[" + x + "]" + b);
    RemoveBracketGroupsDrops(x, b);
    RemoveBracketGroupsKeeps(b);
  }

  /** The text around a bracket group is kept: "A [x] B" cleans to "A  B". */
  lemma {:induction false} CleanAspyTitleExample(s: string)
    requires s == "A [x] B"
    ensures CleanAspyTitle(s) == "A  B"
  {
    var a, x, b := "A ", "x", " B";
    assert s == a + "[" + x + "]" + b;
    assert '[' !in a && ']' !in x && '[' !in b;
    RemoveBracketGroupsAround(a, x, b);
    var r := RemoveBracketGroups(s);
    assert r == "A  B";
    assert !IsSpace(r[0]) && !IsSpace(r[|r| - 1]) && r[|r| - 1] != ')';
    TrimKeeps(r);
    assert StripTrailingGroup(r) == r;
  }

  /** Cleaning a cleaned title changes nothing. */
  lemma {:induction false} CleanAspyTitleIdempotent(s: string)
    ensures CleanAspyTitle(CleanAspyTitle(s)) == CleanAspyTitle(s)
  {
    var r := CleanAspyTitle(s);
    CleanAspyTitleFacts(s);
    RemoveBracketGroupsKeeps(r);
    TrimKeeps(r);
    assert StripTrailingGroup(r) == r;
  }
  /** The title `loadASPY` takes from a row: column 4, when it is a string, cleaned, and kept if non-empty. */
  function AspyTitle(row: seq<Cell>): Option<string> {
    match CellAt(row, 4)
    case Text(s) => var t := CleanAspyTitle(s); if t == "" then None else Some(t)
    case _ => None
  }

  /** The title `loadMAS` takes from a row: column 1, when it is a string, trimmed, and kept if non-empty. */
  function MasTitle(row: seq<Cell>): Option<string> {
    match CellAt(row, 1)
    case Text(s) => var t := Trim(s); if t == "" then None else Some(t)
    case _ => None
  }

  /** The titles the rows yield, in row order, repeats included (the `titles.add` calls). */
  function Collected(rows: seq<seq<Cell>>, title: seq<Cell> -> Option<string>): (r: seq<string>)
    ensures forall t :: t in r <==> exists k :: 0 <= k < |rows| && title(rows[k]) == Some(t)
  {
    if rows == [] then []
    else
      var init, last := rows[..|rows| - 1], rows[|rows| - 1];
      var c := Collected(init, title);
      var r := if title(last).Some? then c + [title(last).value] else c;
      assert forall k :: 0 <= k < |init| ==> init[k] == rows[k];
      r
  }

  /** The data rows: `sheet_to_json(ws, { header: 1 }).slice(1)`. */
  function DataRows(sheet: seq<seq<Cell>>): seq<seq<Cell>> {
    if sheet == [] then [] else sheet[1..]
  }

  /** `Array.from(titles).sort()`: the distinct titles in first-seen order, then in string order. */
  function LoadTitles(sheet: seq<seq<Cell>>, title: seq<Cell> -> Option<string>): seq<string> {
    UniqueSorted(Collected(DataRows(sheet), title))
  }

  /** The loops of `loadASPY` and `loadMAS`: a `Set` filled in row order, then sorted. */
  method LoadTitlesFrom(sheet: seq<seq<Cell>>, title: seq<Cell> -> Option<string>) returns (titles: seq<string>)
    ensures titles == LoadTitles(sheet, title)
  {
    var seen := CollectTitles(DataRows(sheet), title);
    titles := SortBy(seen, StrLeq);
  }

  /** The row loop of `loadASPY` and `loadMAS`: the `Set` of titles, in insertion order. */
  method CollectTitles(rows: seq<seq<Cell>>, title: seq<Cell> -> Option<string>) returns (seen: seq<string>)
    ensures seen == Dedup(Collected(rows, title))
  {
    seen := [];
    var i := 0;
    while i < |rows|
      invariant 0 <= i <= |rows|
      invariant seen == Dedup(Collected(rows[..i], title))
    {
      LoadStep(rows, title, i, seen);
      seen := AddTitle(seen, title(rows[i]));
      i := i + 1;
    }
    assert rows[..|rows|] == rows;
  }

  /** `titles.add(t)` for a row's title, if it has one, on a set kept in insertion order. */
  function AddTitle(seen: seq<string>, t: Option<string>): seq<string> {
    if t.Some? && t.value !in seen then seen + [t.value] else seen
  }

  /** One row of the loops of `loadASPY` and `loadMAS`: its title joins the set unless absent or already there. */
  lemma {:induction false} LoadStep(rows: seq<seq<Cell>>, title: seq<Cell> -> Option<string>, i: int, seen: seq<string>)
    requires 0 <= i < |rows|
    requires seen == Dedup(Collected(rows[..i], title))
    ensures AddTitle(seen, title(rows[i])) == Dedup(Collected(rows[..i + 1], title))
  {
    var pre := rows[..i + 1];
    assert pre[..|pre| - 1] == rows[..i];
    assert pre[|pre| - 1] == rows[i];
    var c := Collected(rows[..i], title);
    match title(rows[i]) {
      case Some(t) =>
        var cc := c + [t];
        assert Collected(pre, title) == cc;
        assert cc[..|cc| - 1] == c;
        assert cc[|cc| - 1] == t;
      case None =>
        assert Collected(pre, title) == c;
    }
  }

  /**
   * The loaded titles are exactly the titles the data rows yield, each
   * once, in strictly increasing string order.
   */
  lemma {:induction false} LoadTitlesFacts(sheet: seq<seq<Cell>>, title: seq<Cell> -> Option<string>)
    ensures var r := LoadTitles(sheet, title);
      && (forall t :: t in r <==> exists k :: 1 <= k < |sheet| && title(sheet[k]) == Some(t))
      && NoDup(r)
      && (forall i, j :: 0 <= i < j < |r| ==> StrLt(r[i], r[j]))
  {
    var rows := DataRows(sheet);
    var r := LoadTitles(sheet, title);
    UniqueSortedFacts(Collected(rows, title));
    forall t ensures t in r <==> exists k :: 1 <= k < |sheet| && title(sheet[k]) == Some(t) {
      if exists k :: 0 <= k < |rows| && title(rows[k]) == Some(t) {
        var k :| 0 <= k < |rows| && title(rows[k]) == Some(t);
        assert rows[k] == sheet[k + 1];
      }
      if exists k :: 1 <= k < |sheet| && title(sheet[k]) == Some(t) {
        var k :| 1 <= k < |sheet| && title(sheet[k]) == Some(t);
        assert rows[k - 1] == sheet[k];
      }
    }
  }

  /** A title taken from an ASPY row is non-empty and already clean. */
  lemma {:induction false} AspyTitleClean(row: seq<Cell>)
    ensures AspyTitle(row).Some? ==> AspyTitle(row).value != "" && CleanAspyTitle(AspyTitle(row).value) == AspyTitle(row).value
  {
    if CellAt(row, 4).Text? {
      CleanAspyTitleIdempotent(CellAt(row, 4).s);
    }
  }

  /** A title taken from a MAS row is non-empty and trimmed. */
  lemma {:induction false} MasTitleClean(row: seq<Cell>)
    ensures MasTitle(row).Some? ==> MasTitle(row).value != "" && Trim(MasTitle(row).value) == MasTitle(row).value
  {
    if MasTitle(row).Some? {
      TrimKeeps(MasTitle(row).value);
    }
  }

  /** Every loaded ASPY title is non-empty and already clean. */
  lemma {:induction false} LoadedAspyTitlesClean(sheet: seq<seq<Cell>>, t: string)
    requires t in LoadTitles(sheet, AspyTitle)
    ensures t != "" && CleanAspyTitle(t) == t
  {
    LoadTitlesFacts(sheet, AspyTitle);
    var k :| 1 <= k < |sheet| && AspyTitle(sheet[k]) == Some(t);
    AspyTitleClean(sheet[k]);
  }

  /** Every loaded MAS title is non-empty and trimmed. */
  lemma {:induction false} LoadedMasTitlesClean(sheet: seq<seq<Cell>>, t: string)
    requires t in LoadTitles(sheet, MasTitle)
    ensures t != "" && Trim(t) == t
  {
    LoadTitlesFacts(sheet, MasTitle);
    var k :| 1 <= k < |sheet| && MasTitle(sheet[k]) == Some(t);
    MasTitleClean(sheet[k]);
  }

  // ---------------------------------------------------------------------
  // The audit dictionary
  // ---------------------------------------------------------------------

  /** The dictionary the generator writes for an ASPY sheet and a MAS sheet, under a collation. */
  function AuditDictionary(collate: (string, string) -> bool, aspySheet: seq<seq<Cell>>, masSheet: seq<seq<Cell>>): seq<Row> {
    Dictionary(MatchScoreOf, KeywordText, collate, LoadTitles(aspySheet, AspyTitle), LoadTitles(masSheet, MasTitle))
  }

  /** Every loaded title, ASPY or MAS, is carried by exactly one row of the audit dictionary. */
  lemma {:induction false} AuditCoverage(collate: (string, string) -> bool, aspySheet: seq<seq<Cell>>, masSheet: seq<seq<Cell>>, side: Side, t: string)
    requires t in TitlesOf(side, LoadTitles(aspySheet, AspyTitle), LoadTitles(masSheet, MasTitle))
    ensures |Filter(AuditDictionary(collate, aspySheet, masSheet), HasTitle(side, t))| == 1
  {
    var aspys, mass := LoadTitles(aspySheet, AspyTitle), LoadTitles(masSheet, MasTitle);
    LoadTitlesFacts(aspySheet, AspyTitle);
    LoadTitlesFacts(masSheet, MasTitle);
    if "" in aspys {
      LoadedAspyTitlesClean(aspySheet, "");
    }
    if "" in mass {
      LoadedMasTitlesClean(masSheet, "");
    }
    DictionaryCoverage(MatchScoreOf, KeywordText, collate, aspys, mass, side, t);
  }
}
