/**
 * The record normaliser of `dataProcessor.js`: title clean-up, topic and
 * location normalisation by first-match tables, the field derivations of
 * `parseRow`, and the status counts of `calculateKPIs`.
 */
module DataProcessor {

  import opened Text
  import opened Sorting
  import opened Records

  // ---------------------------------------------------------------------
  // First-match tables
  // ---------------------------------------------------------------------

  /** One `[key, value]` of `Object.entries(map)`. */
  datatype Entry = Entry(key: string, value: string)

  /** The index of the first entry whose key `text` contains, or -1 (the early-return loop). */
  function FirstMatch(table: seq<Entry>, text: string): (r: int)
    ensures -1 <= r < |table|
    ensures r >= 0 ==> Contains(text, table[r].key)
    ensures forall k :: 0 <= k < |table| && (r == -1 || k < r) ==> !Contains(text, table[k].key)
  {
    if table == [] then -1
    else if Contains(text, table[0].key) then 0
    else var j := FirstMatch(table[1..], text); if j == -1 then -1 else j + 1
  }

  /** An entry whose key is contained, with no earlier key contained, is the one that answers. */
  lemma {:induction false} FirstMatchAt(table: seq<Entry>, text: string, i: int)
    requires 0 <= i < |table| && Contains(text, table[i].key)
    requires forall k :: 0 <= k < i ==> !Contains(text, table[k].key)
    ensures FirstMatch(table, text) == i
  {
  }

  // ---------------------------------------------------------------------
  // cleanTitle
  // ---------------------------------------------------------------------

  /** A `(` at `q` that starts a group `\([^)]+\)`: a non-`)` character, then a `)` later. */
  predicate GroupOpen(s: string, q: int) {
    0 <= q && q + 2 < |s| && s[q] == '(' && s[q + 1] != ')' && ')' in s[q + 2..]
  }

  /** The first group-opening `(` at or after `from`, or -1. */
  function FirstGroupOpen(s: string, from: nat): (r: int)
    requires from <= |s|
    ensures r == -1 || (from <= r < |s| && GroupOpen(s, r))
    ensures forall k :: from <= k < |s| && (r == -1 || k < r) ==> !GroupOpen(s, k)
    decreases |s| - from
  {
    if from == |s| then -1
    else if GroupOpen(s, from) then from
    else FirstGroupOpen(s, from + 1)
  }

  /** The start of the run of white space that ends at `q`. */
  function SpaceRunStart(s: string, q: nat): (p: nat)
    requires q <= |s|
    ensures p <= q
    ensures forall k :: p <= k < q ==> IsSpace(s[k])
    ensures p == 0 || !IsSpace(s[p - 1])
  {
    if q == 0 || !IsSpace(s[q - 1]) then q else SpaceRunStart(s, q - 1)
  }

  /** Just past the `)` that closes the group opened at `q`: the first `)` after it. */
  function GroupEnd(s: string, q: int): (e: int)
    requires GroupOpen(s, q)
    ensures q + 3 <= e <= |s| && s[e - 1] == ')'
    ensures forall k :: q < k < e - 1 ==> s[k] != ')'
  {
    q + 2 + IndexOf(s[q + 2..], ')') + 1
  }

  /**
   * `s.replace(/\s*\([^)]+\)/, '')`: the leftmost match is the white space
   * before the first group-opening `(`, that `(`, and everything up to the
   * first `)` after it; only that one match is removed.
   */
  function RemoveFirstGroup(s: string): string {
    var q := FirstGroupOpen(s, 0);
    if q == -1 then s else s[..SpaceRunStart(s, q)] + s[GroupEnd(s, q)..]
  }

  /**
   * `s[p..e]` is one match of `\s*\([^)]+\)`: white space up to the `(` at
   * `q`, at least one character other than `)`, and the first `)` after it.
   */
  predicate GroupMatch(s: string, p: int, q: int, e: int) {
    && 0 <= p <= q && q + 3 <= e <= |s|
    && (forall k :: p <= k < q ==> IsSpace(s[k]))
    && s[q] == '(' && s[q + 1] != ')' && s[e - 1] == ')'
    && (forall k :: q < k < e - 1 ==> s[k] != ')')
  }

  /**
   * What the replacement does, stated without the search: text with no
   * group is unchanged; otherwise exactly one match `s[p..e]` goes, and no
   * group opens before its `(`.
   */
  lemma {:induction false} RemoveFirstGroupSpec(s: string) returns (p: int, q: int, e: int)
    ensures (forall k :: 0 <= k < |s| ==> !GroupOpen(s, k)) ==> RemoveFirstGroup(s) == s
    ensures (exists k :: 0 <= k < |s| && GroupOpen(s, k)) ==>
      && GroupMatch(s, p, q, e)
      && (forall k :: 0 <= k < q ==> !GroupOpen(s, k))
      && RemoveFirstGroup(s) == s[..p] + s[e..]
  {
    q := FirstGroupOpen(s, 0);
    p, e := 0, 0;
    if q == -1 {
      assert RemoveFirstGroup(s) == s;
    } else {
      assert GroupOpen(s, q);
      p, e := SpaceRunStart(s, q), GroupEnd(s, q);
      assert RemoveFirstGroup(s) == s[..p] + s[e..];
      assert GroupMatch(s, p, q, e);
    }
  }

  /** `cleanTitle(raw)`: "Sin Título" for a missing title, else the first group removed and the text trimmed. */
  function CleanTitle(raw: string): (r: string)
    ensures raw == "" ==> r == "Sin Título"
    ensures raw != "" ==> r == [] || (!IsSpace(r[0]) && !IsSpace(r[|r| - 1]))
  {
    if raw == "" then "Sin Título" else Trim(RemoveFirstGroup(raw))
  }

  /** A title with no parenthesised group is only trimmed. */
  lemma {:induction false} CleanTitleNoGroup(raw: string)
    requires raw != "" && forall q :: 0 <= q < |raw| ==> !GroupOpen(raw, q)
    ensures CleanTitle(raw) == Trim(raw)
  {
    var _, _, _ := RemoveFirstGroupSpec(raw);
  }

  // ---------------------------------------------------------------------
  // normalizeTopic
  // ---------------------------------------------------------------------

  /** `TOPIC_MAP` as declared: the first three keys are in mixed case. */
  const TopicMap: seq<Entry> := [
    Entry("Security", "Seguridad"),
    Entry("Prevención", "PRL"),
    Entry("Management", "Recursos Humanos"),
    Entry("SEGURIDAD", "Seguridad"),
    Entry("PRL", "PRL"),
    Entry("METAL", "PRL")
  ]

  /** `TOPIC_MAP` with every key in upper case, so that it can be found in upper-cased text. */
  const TopicMapCorrected: seq<Entry> := [
    Entry("SECURITY", "Seguridad"),
    Entry("PREVENCIÓN", "PRL"),
    Entry("MANAGEMENT", "Recursos Humanos"),
    Entry("SEGURIDAD", "Seguridad"),
    Entry("PRL", "PRL"),
    Entry("METAL", "PRL")
  ]

  /** The five topics the application knows. */
  predicate KnownTopic(t: string) {
    t == "Seguridad" || t == "PRL" || t == "Recursos Humanos" || t == "Ingeniería" || t == "General"
  }

  /** The heuristics `normalizeTopic` falls back on, on upper-cased text. */
  function TopicHeuristic(upper: string): (r: string)
    ensures KnownTopic(r)
  {
    if Contains(upper, "SEGURIDAD") || Contains(upper, "PLATAFORMAS") || Contains(upper, "ALTURA") then "Seguridad"
    else if Contains(upper, "PRL") || Contains(upper, "PREVENCION") || Contains(upper, "RIESGOS") then "PRL"
    else if Contains(upper, "LIDERAZGO") || Contains(upper, "EQUIPOS") then "Recursos Humanos"
    else if Contains(upper, "INGENIERIA") || Contains(upper, "INDUSTRIAL") || Contains(upper, "PROCESOS") then "Ingeniería"
    else "General"
  }

  /** `normalizeTopic(text)` with a given topic table. */
  function NormalizeTopicWith(table: seq<Entry>, text: string): string {
    if text == "" then "General"
    else
      var upper := Upper(text);
      var i := FirstMatch(table, upper);
      if i >= 0 then table[i].value else TopicHeuristic(upper)
  }

  /** `normalizeTopic(text)`, with `TOPIC_MAP` as declared. */
  function NormalizeTopic(text: string): (r: string)
    ensures text == "" ==> r == "General"
    ensures KnownTopic(r)
  {
    TopicTablesKnown();
    NormalizeTopicKnown(TopicMap, text);
    NormalizeTopicWith(TopicMap, text)
  }

  /** `normalizeTopic(text)`, with the table's keys in upper case. */
  function NormalizeTopicCorrected(text: string): string {
    NormalizeTopicWith(TopicMapCorrected, text)
  }

  /** Every value of both topic tables is a known topic. */
  lemma {:induction false} TopicTablesKnown()
    ensures forall i :: 0 <= i < |TopicMap| ==> KnownTopic(TopicMap[i].value)
    ensures forall i :: 0 <= i < |TopicMapCorrected| ==> KnownTopic(TopicMapCorrected[i].value)
  {
  }

  /** A missing text is "General", and every result is one of the five known topics. */
  lemma {:induction false} NormalizeTopicKnown(table: seq<Entry>, text: string)
    requires forall i :: 0 <= i < |table| ==> KnownTopic(table[i].value)
    ensures text == "" ==> NormalizeTopicWith(table, text) == "General"
    ensures KnownTopic(NormalizeTopicWith(table, text))
  {
  }

  /** The first table key the upper-cased text contains decides, before any heuristic. */
  lemma {:induction false} NormalizeTopicFirstKey(table: seq<Entry>, text: string, i: int)
    requires text != "" && 0 <= i < |table| && Contains(Upper(text), table[i].key)
    requires forall k :: 0 <= k < i ==> !Contains(Upper(text), table[k].key)
    ensures NormalizeTopicWith(table, text) == table[i].value
  {
    FirstMatchAt(table, Upper(text), i);
  }

  /** With no key contained, the heuristics decide. */
  lemma {:induction false} NormalizeTopicHeuristic(table: seq<Entry>, text: string)
    requires text != "" && forall k :: 0 <= k < |table| ==> !Contains(Upper(text), table[k].key)
    ensures NormalizeTopicWith(table, text) == TopicHeuristic(Upper(text))
  {
  }

  /** As declared, the keys "Security", "Prevención" and "Management" are never found: upper-cased text has no 'e'. */
  lemma {:induction false} DeadTopicKeys(text: string)
    ensures forall i :: 0 <= i < 3 ==> !Contains(Upper(text), TopicMap[i].key)
  {
    UpperHasNoLowerAscii(text, 'e');
    forall i | 0 <= i < 3 ensures !Contains(Upper(text), TopicMap[i].key) {
      assert 'e' in TopicMap[i].key;
      NotContainsMissingChar(Upper(text), TopicMap[i].key, 'e');
    }
  }

  /** Text that upper-casing leaves as it is. */
  predicate UpperCased(key: string) {
    forall k :: 0 <= k < |key| ==> UpperChar(key[k]) == key[k]
  }

  /** An upper-cased key is contained in the upper-cased text of itself, so its entry can fire. */
  lemma {:induction false} UpperCasedLive(key: string)
    requires UpperCased(key)
    ensures Upper(key) == key && Contains(Upper(key), key)
  {
    assert StartsWith(key, key);
  }

  /** With the corrected table every key is upper-cased. */
  lemma {:induction false} TopicKeysLive()
    ensures forall i :: 0 <= i < |TopicMapCorrected| ==> UpperCased(TopicMapCorrected[i].key)
  {
    forall i | 0 <= i < |TopicMapCorrected| ensures UpperCased(TopicMapCorrected[i].key) {
      var key := TopicMapCorrected[i].key;
      forall k | 0 <= k < |key| ensures UpperChar(key[k]) == key[k] {
        assert !('a' <= key[k] <= 'z') && !IsLowerAccented(key[k]);
      }
    }
  }

  lemma {:induction false} UpperSecurity(text: string)
    requires text == "Security"
    ensures Upper(text) == "SECURITY"
  {
    var u := Upper(text);
    assert u[0] == 'S' && u[1] == 'E' && u[2] == 'C' && u[3] == 'U';
    assert u[4] == 'R' && u[5] == 'I' && u[6] == 'T' && u[7] == 'Y';
  }

  lemma {:induction false} SecurityLetters(u: string)
    requires u == "SECURITY"
    ensures 'G' !in u && 'P' !in u && 'L' !in u && 'Q' !in u && 'N' !in u && 'M' !in u
  {
  }

  /** Upper-cased text without those letters falls through every heuristic to "General". */
  lemma {:induction false} HeuristicGeneral(u: string)
    requires 'G' !in u && 'P' !in u && 'L' !in u && 'Q' !in u && 'N' !in u
    ensures TopicHeuristic(u) == "General"
  {
    NotContainsMissingChar(u, "SEGURIDAD", 'G');
    NotContainsMissingChar(u, "PLATAFORMAS", 'P');
    NotContainsMissingChar(u, "ALTURA", 'L');
    NotContainsMissingChar(u, "PRL", 'P');
    NotContainsMissingChar(u, "PREVENCION", 'P');
    NotContainsMissingChar(u, "RIESGOS", 'G');
    NotContainsMissingChar(u, "LIDERAZGO", 'L');
    NotContainsMissingChar(u, "EQUIPOS", 'Q');
    NotContainsMissingChar(u, "INGENIERIA", 'N');
    NotContainsMissingChar(u, "INDUSTRIAL", 'N');
    NotContainsMissingChar(u, "PROCESOS", 'P');
  }

  /** As declared, "Security" misses every key of the table and every heuristic. */
  lemma {:induction false} SecurityAsWritten(text: string)
    requires text == "Security"
    ensures NormalizeTopic(text) == "General"
  {
    UpperSecurity(text);
    var u := Upper(text);
    SecurityLetters(u);
    DeadTopicKeys(text);
    NotContainsMissingChar(u, TopicMap[3].key, 'G');
    NotContainsMissingChar(u, TopicMap[4].key, 'P');
    NotContainsMissingChar(u, TopicMap[5].key, 'M');
    NormalizeTopicHeuristic(TopicMap, text);
    HeuristicGeneral(u);
  }

  /** With the corrected table, "Security" is found under its first key. */
  lemma {:induction false} SecurityCorrected(text: string)
    requires text == "Security"
    ensures NormalizeTopicCorrected(text) == "Seguridad"
  {
    UpperSecurity(text);
    ContainsAt(Upper(text), TopicMapCorrected[0].key, 0);
    NormalizeTopicFirstKey(TopicMapCorrected, text, 0);
  }
  // ---------------------------------------------------------------------
  // normalizeLocation
  // ---------------------------------------------------------------------

  /** The first nine keys of `provinceMap`. */
  const ProvinceHead: seq<Entry> := [
    Entry("alacant", "Alicante"),
    Entry("alicante", "Alicante"),
    Entry("barcelona", "Barcelona"),
    Entry("madrid", "Madrid"),
    Entry("valencia", "Valencia"),
    Entry("sevilla", "Sevilla"),
    Entry("zaragoza", "Zaragoza"),
    Entry("malaga", "Málaga"),
    Entry("murcia", "Murcia")
  ]

  /** The keys of `provinceMap` between "palma" and "las palmas". */
  const ProvinceMiddle: seq<Entry> := [
    Entry("baleares", "Baleares"),
    Entry("vizcaya", "Vizcaya"),
    Entry("bizkaia", "Vizcaya"),
    Entry("coruña", "A Coruña"),
    Entry("coruna", "A Coruña"),
    Entry("pontevedra", "Pontevedra"),
    Entry("asturias", "Asturias"),
    Entry("granada", "Granada"),
    Entry("cordoba", "Córdoba"),
    Entry("girona", "Girona"),
    Entry("gerona", "Girona"),
    Entry("tarragona", "Tarragona"),
    Entry("lleida", "Lleida"),
    Entry("lerida", "Lleida"),
    Entry("almeria", "Almería"),
    Entry("cadiz", "Cádiz"),
    Entry("huelva", "Huelva"),
    Entry("jaen", "Jaén"),
    Entry("caceres", "Cáceres"),
    Entry("badajoz", "Badajoz"),
    Entry("toledo", "Toledo"),
    Entry("ciudad real", "Ciudad Real"),
    Entry("albacete", "Albacete"),
    Entry("cuenca", "Cuenca"),
    Entry("guadalajara", "Guadalajara"),
    Entry("leon", "León"),
    Entry("zamora", "Zamora"),
    Entry("salamanca", "Salamanca"),
    Entry("valladolid", "Valladolid"),
    Entry("palencia", "Palencia"),
    Entry("burgos", "Burgos"),
    Entry("soria", "Soria"),
    Entry("segovia", "Segovia"),
    Entry("avila", "Ávila"),
    Entry("navarra", "Navarra"),
    Entry("la rioja", "La Rioja"),
    Entry("cantabria", "Cantabria"),
    Entry("huesca", "Huesca"),
    Entry("teruel", "Teruel"),
    Entry("castellon", "Castellón"),
    Entry("castello", "Castellón")
  ]

  /** The keys of `provinceMap` after "las palmas". */
  const ProvinceLast: seq<Entry> := [
    Entry("santa cruz", "Santa Cruz de Tenerife"),
    Entry("tenerife", "Santa Cruz de Tenerife")
  ]

  const Palma: Entry := Entry("palma", "Baleares")
  const LasPalmas: Entry := Entry("las palmas", "Las Palmas")

  /** `provinceMap` as declared: "palma" comes before "las palmas". */
  const ProvinceMap: seq<Entry> := ProvinceHead + [Palma] + ProvinceMiddle + [LasPalmas] + ProvinceLast

  /** `provinceMap` with "las palmas" moved before "palma", so that "palma" no longer shadows it. */
  const ProvinceMapCorrected: seq<Entry> := ProvinceHead + [LasPalmas, Palma] + ProvinceMiddle + ProvinceLast

  /** `clean.charAt(0).toUpperCase() + clean.slice(1)` */
  function Capitalize(clean: string): (r: string)
    ensures |r| == |clean|
    ensures clean != [] ==> r[0] == UpperChar(clean[0]) && r[1..] == clean[1..]
  {
    if clean == [] then [] else [UpperChar(clean[0])] + clean[1..]
  }

  /** The text `normalizeLocation` matches: trimmed, lower-cased, accents removed. */
  function CleanLocation(raw: string): string {
    StripAccents(Lower(Trim(raw)))
  }

  /** `normalizeLocation(rawLoc)` for a string, with a given province table. */
  function NormalizeLocationWith(table: seq<Entry>, raw: string): string {
    if raw == "" then "Desconocida"
    else
      var clean := CleanLocation(raw);
      var i := FirstMatch(table, clean);
      if i >= 0 then table[i].value else Capitalize(clean)
  }

  /** `normalizeLocation(rawLoc)`, with `provinceMap` as declared. */
  function NormalizeLocation(raw: string): (r: string)
    ensures raw == "" ==> r == "Desconocida"
    ensures raw != "" ==>
      (exists i :: 0 <= i < |ProvinceMap| && r == ProvinceMap[i].value) || r == Capitalize(CleanLocation(raw))
  {
    NormalizeLocationWith(ProvinceMap, raw)
  }

  /** `normalizeLocation(rawLoc)`, with "las palmas" looked up before "palma". */
  function NormalizeLocationCorrected(raw: string): string {
    NormalizeLocationWith(ProvinceMapCorrected, raw)
  }

  /**
   * A missing location is "Desconocida"; otherwise the first key the cleaned
   * text contains gives the province, and with no key contained the cleaned
   * text comes back with its first character upper-cased.
   */
  lemma {:induction false} NormalizeLocationCases(table: seq<Entry>, raw: string)
    ensures raw == "" ==> NormalizeLocationWith(table, raw) == "Desconocida"
    ensures raw != "" ==>
      var clean := CleanLocation(raw);
      && (forall i :: 0 <= i < |table| && Contains(clean, table[i].key)
            && (forall k :: 0 <= k < i ==> !Contains(clean, table[k].key))
            ==> NormalizeLocationWith(table, raw) == table[i].value)
      && ((forall k :: 0 <= k < |table| ==> !Contains(clean, table[k].key))
            ==> NormalizeLocationWith(table, raw) == Capitalize(clean))
  {
    if raw != "" {
      var clean := CleanLocation(raw);
      var found := FirstMatch(table, clean);
      assert NormalizeLocationWith(table, raw) == if found >= 0 then table[found].value else Capitalize(clean);
      forall i | 0 <= i < |table| && Contains(clean, table[i].key)
          && (forall k :: 0 <= k < i ==> !Contains(clean, table[k].key))
        ensures NormalizeLocationWith(table, raw) == table[i].value
      {
        FirstMatchAt(table, clean, i);
      }
    }
  }

  /** When no key of `a` is contained, the answer comes from `b`, shifted past `a`. */
  lemma {:induction false} FirstMatchSkip(a: seq<Entry>, b: seq<Entry>, text: string)
    requires forall k :: 0 <= k < |a| ==> !Contains(text, a[k].key)
    ensures FirstMatch(a + b, text) == if FirstMatch(b, text) == -1 then -1 else |a| + FirstMatch(b, text)
  {
    if a == [] {
      assert a + b == b;
    } else {
      assert (a + b)[0] == a[0] && (a + b)[1..] == a[1..] + b;
      assert !Contains(text, a[0].key);
      forall k | 0 <= k < |a[1..]| ensures !Contains(text, a[1..][k].key) {
        assert a[1..][k] == a[k + 1];
      }
      FirstMatchSkip(a[1..], b, text);
    }
  }

  lemma {:induction false} TrimLasPalmas(raw: string)
    requires raw == "Las Palmas"
    ensures Trim(raw) == raw
  {
    assert !IsSpace(raw[0]) && !IsSpace(raw[|raw| - 1]);
    TrimKeeps(raw);
  }

  lemma {:induction false} LowerLasPalmas(raw: string)
    requires raw == "Las Palmas"
    ensures Lower(raw) == "las palmas"
  {
  }

  lemma {:induction false} StripLasPalmas(s: string)
    requires s == "las palmas"
    ensures StripAccents(s) == s
  {
    StripAccentsAscii(s);
  }

  /** "Las Palmas" cleans to "las palmas". */
  lemma {:induction false} CleanLasPalmas(raw: string)
    requires raw == "Las Palmas"
    ensures CleanLocation(raw) == "las palmas"
  {
    TrimLasPalmas(raw);
    LowerLasPalmas(raw);
    StripLasPalmas(Lower(raw));
  }

  /** The letters of "las palmas" that decide the lookups. */
  lemma {:induction false} LasPalmasLetters(n: string)
    requires n == "las palmas"
    ensures 'c' !in n && 'i' !in n && 'b' !in n && 'd' !in n && 'v' !in n
    ensures 'e' !in n && 'z' !in n && 'g' !in n && 'u' !in n
    ensures OccursAt(n, "palma", 4) && OccursAt(n, "las palmas", 0)
  {
  }

  /** No key of the first nine occurs in text that lacks those letters. */
  lemma {:induction false} HeadMissed(n: string)
    requires 'c' !in n && 'i' !in n && 'b' !in n && 'd' !in n && 'v' !in n
    requires 'e' !in n && 'z' !in n && 'g' !in n && 'u' !in n
    ensures forall k :: 0 <= k < |ProvinceHead| ==> !Contains(n, ProvinceHead[k].key)
  {
    var missing := ['c', 'i', 'b', 'd', 'v', 'e', 'z', 'g', 'u'];
    forall k | 0 <= k < |ProvinceHead| ensures !Contains(n, ProvinceHead[k].key) {
      assert missing[k] in ProvinceHead[k].key;
      NotContainsMissingChar(n, ProvinceHead[k].key, missing[k]);
    }
  }

  /** In text with those letters missing and "palma" at 4, the declared table answers with "palma". */
  lemma {:induction false} PalmaFirst(n: string)
    requires 'c' !in n && 'i' !in n && 'b' !in n && 'd' !in n && 'v' !in n
    requires 'e' !in n && 'z' !in n && 'g' !in n && 'u' !in n
    requires OccursAt(n, "palma", 4)
    ensures FirstMatch(ProvinceMap, n) == |ProvinceHead|
    ensures ProvinceMap[|ProvinceHead|] == Palma
  {
    HeadMissed(n);
    ContainsAt(n, Palma.key, 4);
    var rest := [Palma] + ProvinceMiddle + [LasPalmas] + ProvinceLast;
    assert ProvinceMap == ProvinceHead + rest;
    FirstMatchSkip(ProvinceHead, rest, n);
  }

  /** In text with those letters missing that starts with "las palmas", the corrected table answers with it. */
  lemma {:induction false} LasPalmasFirst(n: string)
    requires 'c' !in n && 'i' !in n && 'b' !in n && 'd' !in n && 'v' !in n
    requires 'e' !in n && 'z' !in n && 'g' !in n && 'u' !in n
    requires OccursAt(n, "las palmas", 0)
    ensures FirstMatch(ProvinceMapCorrected, n) == |ProvinceHead|
    ensures ProvinceMapCorrected[|ProvinceHead|] == LasPalmas
  {
    HeadMissed(n);
    ContainsAt(n, LasPalmas.key, 0);
    var rest := [LasPalmas, Palma] + ProvinceMiddle + ProvinceLast;
    assert ProvinceMapCorrected == ProvinceHead + rest;
    FirstMatchSkip(ProvinceHead, rest, n);
  }

  /** A lookup that answers with entry `i` files the location under that entry's value. */
  lemma {:induction false} LocationHit(table: seq<Entry>, raw: string, i: nat)
    requires raw != "" && i < |table| && FirstMatch(table, CleanLocation(raw)) == i
    ensures NormalizeLocationWith(table, raw) == table[i].value
  {
  }

  /** As declared, "Las Palmas" contains the earlier key "palma" and is filed under "Baleares". */
  lemma {:induction false} LasPalmasAsWritten(raw: string)
    requires raw == "Las Palmas"
    ensures NormalizeLocation(raw) == "Baleares"
  {
    CleanLasPalmas(raw);
    LasPalmasLetters(CleanLocation(raw));
    PalmaFirst(CleanLocation(raw));
    LocationHit(ProvinceMap, raw, |ProvinceHead|);
  }

  /** With "las palmas" looked up first, "Las Palmas" is filed under "Las Palmas". */
  lemma {:induction false} LasPalmasCorrected(raw: string)
    requires raw == "Las Palmas"
    ensures NormalizeLocationCorrected(raw) == "Las Palmas"
  {
    CleanLasPalmas(raw);
    LasPalmasLetters(CleanLocation(raw));
    LasPalmasFirst(CleanLocation(raw));
    LocationHit(ProvinceMapCorrected, raw, |ProvinceHead|);
  }

  // ---------------------------------------------------------------------
  // parseInt(x, 10)
  // ---------------------------------------------------------------------

  predicate IsDigit(c: char) {
    '0' <= c <= '9'
  }

  predicate AllDigits(s: string) {
    forall i :: 0 <= i < |s| ==> IsDigit(s[i])
  }

  /** The length of the run of decimal digits at the front of `s`. */
  function DigitRun(s: string): (n: nat)
    ensures n <= |s| && AllDigits(s[..n])
    ensures n < |s| ==> !IsDigit(s[n])
  {
    if s == [] || !IsDigit(s[0]) then 0 else 1 + DigitRun(s[1..])
  }

  /** The value of a string of decimal digits, most significant first. */
  function DigitsValue(ds: string): nat
    requires AllDigits(ds)
  {
    if ds == [] then 0
    else
      assert IsDigit(ds[|ds| - 1]);
      10 * DigitsValue(ds[..|ds| - 1]) + (ds[|ds| - 1] as int - '0' as int)
  }

  /**
   * `parseInt(s, 10)` on text: leading white space is skipped, one optional
   * sign is read, then the longest run of digits; `None` is NaN (no digit).
   */
  function ParseIntText(s: string): Option<int> {
    var t := TrimStart(s);
    var signed := t != [] && (t[0] == '-' || t[0] == '+');
    var body := if signed then t[1..] else t;
    var n := DigitRun(body);
    var v: int := if n == 0 then 0 else DigitsValue(body[..n]);
    if n == 0 then None
    else if signed && t[0] == '-' then Some(-v)
    else Some(v)
  }

  /** `String(n)` of a non-negative integer is all digits and has that value. */
  lemma {:induction false} NatStringDigits(n: nat)
    ensures AllDigits(IntToString(n)) && DigitsValue(IntToString(n)) == n
    decreases n
  {
    if n >= 10 {
      NatStringDigits(n / 10);
      var s := IntToString(n);
      assert s[..|s| - 1] == IntToString(n / 10);
    }
  }

  /** A run of digits followed by text that does not start with a digit parses to its value. */
  lemma {:induction false} DigitsThenRest(ds: string, rest: string)
    requires ds != [] && AllDigits(ds) && (rest == [] || !IsDigit(rest[0]))
    ensures DigitRun(ds + rest) == |ds| && (ds + rest)[..|ds|] == ds
  {
    var s := ds + rest;
    assert forall i :: 0 <= i < |ds| ==> s[i] == ds[i];
    if |ds| < |s| {
      assert s[|ds|] == rest[0];
    }
    assert s[..|ds|] == ds;
  }

  /** Text that starts with neither white space nor a sign is read as its leading digits. */
  lemma {:induction false} ParseIntUnsigned(s: string)
    requires s != [] && IsDigit(s[0])
    ensures ParseIntText(s) == Some(DigitsValue(s[..DigitRun(s)]) as int)
  {
    assert !IsSpace(s[0]);
    assert TrimStart(s) == s;
    assert s[0] != '-' && s[0] != '+';
    assert DigitRun(s) > 0;
  }

  /** A leading '-' negates the digits after it. */
  lemma {:induction false} ParseIntNegative(s: string)
    requires |s| > 1 && s[0] == '-' && IsDigit(s[1])
    ensures ParseIntText(s) == Some(-(DigitsValue(s[1..][..DigitRun(s[1..])]) as int))
  {
    assert !IsSpace(s[0]);
  }

  /** Digits followed by a non-digit parse to their value. */
  lemma {:induction false} ParseIntDigits(ds: string, rest: string)
    requires ds != [] && AllDigits(ds) && (rest == [] || !IsDigit(rest[0]))
    ensures ParseIntText(ds + rest) == Some(DigitsValue(ds) as int)
  {
    DigitsThenRest(ds, rest);
    ParseIntUnsigned(ds + rest);
  }

  /** A minus sign, digits and a non-digit parse to the negated value. */
  lemma {:induction false} ParseIntMinusDigits(ds: string, rest: string)
    requires ds != [] && AllDigits(ds) && (rest == [] || !IsDigit(rest[0]))
    ensures ParseIntText("-" + (ds + rest)) == Some(-(DigitsValue(ds) as int))
  {
    DigitsThenRest(ds, rest);
    var s := "-" + (ds + rest);
    assert s[1..] == ds + rest;
    ParseIntNegative(s);
  }

  /**
   * `parseInt(String(n) + rest, 10) == n` whenever `rest` does not continue
   * the number: integers written out read back, as do texts such as "12 plazas".
   */
  lemma {:induction false} ParseIntPrefix(n: int, rest: string)
    requires rest == [] || !IsDigit(rest[0])
    ensures ParseIntText(IntToString(n) + rest) == Some(n)
  {
    var m: nat := if n < 0 then -n else n;
    NatStringDigits(m);
    var ds := IntToString(m);
    if n < 0 {
      assert IntToString(n) + rest == "-" + (ds + rest);
      ParseIntMinusDigits(ds, rest);
    } else {
      ParseIntDigits(ds, rest);
    }
  }

  /** `String(n)` parses back to `n`. */
  lemma {:induction false} ParseIntRoundTrip(n: int)
    ensures ParseIntText(IntToString(n)) == Some(n)
  {
    ParseIntPrefix(n, []);
    assert IntToString(n) + [] == IntToString(n);
  }

  /** Text with no digit after the optional sign is NaN. */
  lemma {:induction false} ParseIntNaN(s: string)
    requires forall i :: 0 <= i < |s| ==> !IsDigit(s[i])
    ensures ParseIntText(s) == None
  {
    var t := TrimStart(s);
    if t != [] && (t[0] == '-' || t[0] == '+') && |t| > 1 {
      assert t[1] == s[|s| - |t| + 1];
    } else if t != [] {
      assert t[0] == s[|s| - |t|];
    }
  }

  /** `parseInt(cell, 10)`: the cell is first turned into its string, so `undefined` is NaN. */
  function ParseInt(c: Cell): Option<int> {
    match c
    case Missing => None
    case Text(s) => ParseIntText(s)
    case Number(n) => ParseIntText(IntToString(n))
  }

  /** `parseInt(cell, 10) || 0`: NaN and zero both give 0. */
  function IntOrZero(c: Cell): int {
    match ParseInt(c)
    case None => 0
    case Some(n) => n
  }

  /** A numeric cell reads as its own value; a missing one as 0. */
  lemma {:induction false} IntOrZeroCell(c: Cell)
    ensures c.Number? ==> IntOrZero(c) == c.n
    ensures c.Missing? ==> IntOrZero(c) == 0
  {
    if c.Number? {
      ParseIntRoundTrip(c.n);
    }
  }

  /** The text a template literal gives a cell (`${row[0]}`). */
  function CellString(c: Cell): (r: string)
    ensures c.Text? ==> r == c.s
    ensures c.Missing? ==> r == "undefined"
    ensures c.Number? ==> ParseIntText(r) == Some(c.n)
  {
    if c.Number? then ParseIntRoundTrip(c.n); IntToString(c.n)
    else match c
    case Missing => "undefined"
    case Text(s) => s
    case Number(n) => IntToString(n)
  }

  // ---------------------------------------------------------------------
  // parseRow
  // ---------------------------------------------------------------------

  /** The outcome of `parseRow`: `null`, a course, or a TypeError (a non-text title or location). */
  datatype RowResult = Skipped | Parsed(course: Course) | Throws

  /** The title cell: ASPY column 4; MAS column 1, else 2. */
  function TitleCell(row: seq<Cell>, source: Source): Cell {
    match source
    case ASPY => CellAt(row, 4)
    case MAS => OrElse(CellAt(row, 1), CellAt(row, 2))
  }

  /** The location cell: ASPY column 22, else 13; MAS column 16, else 17. */
  function LocationCell(row: seq<Cell>, source: Source): Cell {
    match source
    case ASPY => OrElse(CellAt(row, 22), CellAt(row, 13))
    case MAS => OrElse(CellAt(row, 16), CellAt(row, 17))
  }

  function StartColumn(source: Source): nat {
    match source case ASPY => 1 case MAS => 3
  }

  function TotalColumn(source: Source): nat {
    match source case ASPY => 11 case MAS => 18
  }

  function AvailableColumn(source: Source): nat {
    match source case ASPY => 12 case MAS => 19
  }

  function EnrolledColumn(source: Source): nat {
    match source case ASPY => 10 case MAS => 29
  }

  /** `Math.max(a, b)` */
  function Max(a: int, b: int): (r: int)
    ensures r >= a && r >= b && (r == a || r == b)
  {
    if a >= b then a else b
  }

  /** The status a course gets from its free places. */
  function Estado(available: int): string {
    if available > 0 then "CONFIRMADO" else "CERRADO"
  }

  /** Enrolment: the enrolment column parsed when present, else the places taken. */
  function Enrolled(enrolCell: Cell, total: int, available: int): (r: int)
    ensures enrolCell.Missing? ==> r == Max(0, total - available)
  {
    if enrolCell != Missing then IntOrZero(enrolCell) else Max(0, total - available)
  }

  /** The location text `normalizeLocation` receives; a falsy cell reads as "". */
  function LocationText(c: Cell): string {
    if Truthy(c) && c.Text? then c.s else ""
  }

  /** The course `parseRow` builds from a row whose title cell holds `rawTitle`. */
  function BuildCourse(row: seq<Cell>, source: Source, dayOf: Cell -> int, rawTitle: string): Course {
    var id := SourceName(source) + "-" + CellString(CellAt(row, 0));
    var title := CleanTitle(rawTitle);
    var total := IntOrZero(CellAt(row, TotalColumn(source)));
    var available := IntOrZero(CellAt(row, AvailableColumn(source)));
    Course(
      id := id,
      code := id,
      source := source,
      title := title,
      tematica := NormalizeTopic(title),
      ubicacion := NormalizeLocation(LocationText(LocationCell(row, source))),
      startDate := dayOf(CellAt(row, StartColumn(source))),
      plazas := available,
      totalPlazas := total,
      inscritos := Enrolled(CellAt(row, EnrolledColumn(source)), total, available),
      estado := Estado(available),
      hasSynergy := false,
      modalidad := OrElse(CellAt(row, 5), Text("Presencial")),
      duracion := IntOrZero(CellAt(row, 6)))
  }

  /**
   * `parseRow(row, source)`: `null` for a falsy title, a TypeError for a
   * title or location that is not text, else the built course. `dayOf`
   * stands for the date conversion of the start-date cell, which this model
   * does not cover.
   */
  function ParseRow(row: seq<Cell>, source: Source, dayOf: Cell -> int): (r: RowResult)
    ensures r.Skipped? <==> !Truthy(TitleCell(row, source))
    ensures r.Throws? <==> (Truthy(TitleCell(row, source))
      && (!TitleCell(row, source).Text? || (Truthy(LocationCell(row, source)) && !LocationCell(row, source).Text?)))
    ensures r.Parsed? ==> r.course == BuildCourse(row, source, dayOf, TitleCell(row, source).s)
  {
    var titleCell := TitleCell(row, source);
    var locCell := LocationCell(row, source);
    if !Truthy(titleCell) then Skipped
    else if !titleCell.Text? || (Truthy(locCell) && !locCell.Text?) then Throws
    else Parsed(BuildCourse(row, source, dayOf, titleCell.s))
  }

  /** What a built course carries: the prefixed id, the status rule, a known topic, a trimmed title. */
  lemma {:induction false} BuildCourseFacts(row: seq<Cell>, source: Source, dayOf: Cell -> int, rawTitle: string)
    requires rawTitle != ""
    ensures var c := BuildCourse(row, source, dayOf, rawTitle);
      && c.id == c.code == SourceName(source) + "-" + CellString(CellAt(row, 0))
      && c.source == source
      && (c.estado == "CONFIRMADO" <==> c.plazas > 0)
      && (c.estado == "CERRADO" <==> c.plazas <= 0)
      && KnownTopic(c.tematica)
      && (c.title == [] || (!IsSpace(c.title[0]) && !IsSpace(c.title[|c.title| - 1])))
      && !c.hasSynergy
      && c.startDate == dayOf(CellAt(row, StartColumn(source)))
  {
    TopicTablesKnown();
    NormalizeTopicKnown(TopicMap, CleanTitle(rawTitle));
  }

  /** The same facts for the course of a parsed row. */
  lemma {:induction false} ParseRowFacts(row: seq<Cell>, source: Source, dayOf: Cell -> int)
    requires ParseRow(row, source, dayOf).Parsed?
    ensures var c := ParseRow(row, source, dayOf).course;
      && c.id == SourceName(source) + "-" + CellString(CellAt(row, 0))
      && (c.estado == "CONFIRMADO" <==> c.plazas > 0)
      && (c.estado == "CERRADO" <==> c.plazas <= 0)
      && KnownTopic(c.tematica)
      && !c.hasSynergy
  {
    BuildCourseFacts(row, source, dayOf, TitleCell(row, source).s);
  }

  /**
   * With numeric capacity cells and no enrolment cell, the course holds those
   * numbers and the enrolment is the places taken, never negative.
   */
  lemma {:induction false} ParseRowPlacesTaken(row: seq<Cell>, source: Source, dayOf: Cell -> int, total: int, available: int)
    requires ParseRow(row, source, dayOf).Parsed?
    requires CellAt(row, TotalColumn(source)) == Number(total)
    requires CellAt(row, AvailableColumn(source)) == Number(available)
    requires CellAt(row, EnrolledColumn(source)) == Missing
    ensures var c := ParseRow(row, source, dayOf).course;
      c.totalPlazas == total && c.plazas == available
      && c.inscritos == (if total > available then total - available else 0)
  {
    assert ParseRow(row, source, dayOf).course == BuildCourse(row, source, dayOf, TitleCell(row, source).s);
    IntOrZeroCell(Number(total));
    IntOrZeroCell(Number(available));
  }

  /** With a numeric enrolment cell, the course holds that number whatever the capacity. */
  lemma {:induction false} ParseRowEnrolment(row: seq<Cell>, source: Source, dayOf: Cell -> int, n: int)
    requires ParseRow(row, source, dayOf).Parsed?
    requires CellAt(row, EnrolledColumn(source)) == Number(n)
    ensures ParseRow(row, source, dayOf).course.inscritos == n
  {
    assert ParseRow(row, source, dayOf).course == BuildCourse(row, source, dayOf, TitleCell(row, source).s);
    IntOrZeroCell(Number(n));
  }

  // ---------------------------------------------------------------------
  // calculateKPIs
  // ---------------------------------------------------------------------

  datatype Kpis = Kpis(confirmed: nat, closed: nat, finalized: nat)

  /** The test `d.estado === status`. */
  function HasEstado(status: string): Course -> bool {
    (c: Course) => c.estado == status
  }

  /** `calculateKPIs(data)`: how many courses carry each status. */
  function CalculateKpis(data: seq<Course>): Kpis {
    Kpis(
      |Filter(data, HasEstado("CONFIRMADO"))|,
      |Filter(data, HasEstado("CERRADO"))|,
      |Filter(data, HasEstado("FINALIZADO"))|)
  }

  /** Each course is counted under at most one status, so the counts add up to at most the length. */
  lemma {:induction false} KpisBound(data: seq<Course>)
    ensures var k := CalculateKpis(data); k.confirmed + k.closed + k.finalized <= |data|
  {
    if data != [] {
      KpisBound(data[1..]);
    }
  }

  /** When every course is confirmed or closed, as parsed courses are, those two counts cover the list. */
  lemma {:induction false} KpisOfParsed(data: seq<Course>)
    requires forall i :: 0 <= i < |data| ==> data[i].estado == "CONFIRMADO" || data[i].estado == "CERRADO"
    ensures var k := CalculateKpis(data); k.confirmed + k.closed == |data| && k.finalized == 0
  {
    if data != [] {
      KpisOfParsed(data[1..]);
    }
  }
}
