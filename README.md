# Course synergy planner — Dafny model

The application compares two training providers' course calendars: ASPY and
MÁS, written MAS in the data. It looks for *synergies*: a MAS course and an
ASPY course that could be merged into one session. The two courses must be in
the same province, start at most 15 days apart and have a compatible topic,
and the ASPY course must still have free places.

This project models the application's decision logic:

- **`synergy_engine.dfy` (`SynergyEngine`)**, the live engine. It covers:
  - keyword extraction from titles, after lower-casing and accent removal, with the forklift/platform special cases;
  - the similarity test;
  - the greedy pass. It pairs each open MAS course, in start-date order, with the nearest-dated matching ASPY course still free;
  - the merged presentation list: the groups plus the courses left out of every group, stably sorted by date.
- **`synergy_dictionary.dfy` (`SynergyDictionary`)**, the offline dictionary generator. It covers:
  - weighted regular-expression keyword rules and the pairwise match score;
  - the clean-up and loading of the title lists;
  - the score-ordered greedy 1:1 assignment of titles;
  - the orphan rows and the final ordering.
- **`data_processor.dfy` (`DataProcessor`)**, the spreadsheet-row parser. It covers:
  - title clean-up, topic normalisation and the province table;
  - `parseInt(…) || 0` read-outs of places and enrolment;
  - the course status, and the status counts (`calculateKPIs`).
- **`app_filters.dfy` (`AppFilters`)**, the filter panel of the main page. It covers:
  - the filter state and its update rule, where choosing a location switches on "synergies only";
  - the per-course test and the item filter;
  - the drop-down value lists.
- **`kpi_dashboard.dfy` (`KpiDashboard`)**, the KPI cards. Groups are bucketed by capacity scenario into four disjoint categories, and enrolment is summed per card and per provider. A per-scenario breakdown and a cross-check catch groups that no card counts.
- **Shared modules**:
  - `text.dfy` (`Text`): the string operations JavaScript provides (`toLowerCase`, `toUpperCase`, NFD accent stripping, `trim`, `includes`, `String(n)`, code-point order);
  - `sorting.dfy` (`Sorting`): `Array.prototype.sort`, modelled as a stable insertion sort `SortBy`, and `filter`, `flatMap` and `Set` deduplication, with their laws;
  - `records.dfy` (`Records`): the course record, the list item (single course or group) and the spreadsheet cell.

Stepwise code is imperative Dafny. That covers the loops that fill `found`, `bestMatch`, `processedIds`, `optimizedGroups`, `allMatches`, `usedASPY`/`usedMAS`, `groupedIds`, the card sums and the scenario breakdown. Each such method is proved equal to a specification function, and the properties are proved about that function.

Every lookup table runs as the source declares it: `KEYWORD_MAP` with its accented key "tensión", `TOPIC_MAP` with its mixed-case keys and `provinceMap` with "palma" before "las palmas". The corrected tables (`KeywordMapCorrected`, `TopicMapCorrected`, `ProvinceMapCorrected`) appear only on the corrected side of "## Findings".

Dates are whole day numbers. The engine's date window is 15 days, as the comparison in `src/utils/synergyEngine.js:118-120` has it. The file's header comment says 14; the model follows the code.

## Model

| member | source | states |
|---|---|---|
| SynergyEngine.KeywordsWith | src/utils/synergyEngine.js:58-59 | A missing (empty) title has no keywords. |
| SynergyEngine.Keywords | src/utils/synergyEngine.js:58-82 | `getKeywords` with `KEYWORD_MAP` as declared: a missing title has no keywords. Its other properties are the lemmas below. |
| SynergyEngine.GetKeywords | src/utils/synergyEngine.js:58-82 | The loop that fills `found` returns the keywords of `KEYWORD_MAP` as declared. That is "carretilla" or "pemp" in the special cases. Otherwise it is the value of each key the normalised title contains, in map order, with no value twice and no excluded pair. |
| SynergyEngine.KeywordsNoDuplicates | src/utils/synergyEngine.js:63-81 | The keyword list never repeats a keyword, because `found` is a set. |
| SynergyEngine.KeywordsAreMapValues | src/utils/synergyEngine.js:14-56 | Every keyword returned is a value of `KEYWORD_MAP`. |
| SynergyEngine.KeywordsSpecialCases | src/utils/synergyEngine.js:65-69 | A normalised title containing "carretilla" yields exactly ["carretilla"]. Otherwise, one containing "plataforma" or "pemp" yields exactly ["pemp"]. |
| SynergyEngine.FallbackForkliftAndPlatform | src/utils/synergyEngine.js:70-78 | In the map scan, "carretilla" is found iff frontal/retracil/apilador occurs. "pemp" is found iff "elevadora" occurs and no forklift keyword was found. |
| SynergyEngine.AreSimilarIff | src/utils/synergyEngine.js:84-89 | Two titles are similar iff their keyword lists share a keyword. |
| SynergyEngine.AreSimilarSymmetric | src/utils/synergyEngine.js:84-89 | Similarity is symmetric. |
| SynergyEngine.MissingTitleNotSimilar | src/utils/synergyEngine.js:59 | A missing title is similar to nothing. |
| SynergyEngine.PlatformNotSimilarToForklift | src/utils/synergyEngine.js:65-69 | A work-platform title is never similar to a forklift title, in either order. |
| SynergyEngine.DaysDiff | src/utils/synergyEngine.js:119 | The day difference is the absolute difference of the start days. |
| SynergyEngine.FirstArgMax | src/utils/synergyEngine.js:109-135 | A scan keeps a candidate only when its score beats the best so far, starting from -1. It gives -1 iff nothing is eligible. Otherwise it gives an eligible index of maximal score that no earlier eligible index ties. |
| SynergyEngine.EligibleScoresAbove | src/utils/synergyEngine.js:120-133 | Every eligible ASPY course scores at least 85, since its difference is at most 15 days, and so above the initial best score of -1. |
| SynergyEngine.FindBestMatch | src/utils/synergyEngine.js:109-135 | The inner loop's `bestMatch` is the first highest-scoring eligible ASPY course: not yet processed, same location, at most 15 days apart, free places, similar title under `KEYWORD_MAP` as declared. |
| SynergyEngine.MakeGroup | src/utils/synergyEngine.js:142-147 | A group holds the two courses in start-date order, is named `group-<mas>-<aspy>` and has no scenario type. |
| SynergyEngine.MakeGroupSorted | src/utils/synergyEngine.js:145 | The group's course order is the stable date sort of `[bestMatch, masCourse]`. |
| SynergyEngine.FindOptimizations | src/utils/synergyEngine.js:91-156 | The loop with `processedIds` and `optimizedGroups` returns the greedy pass. Each open MAS course, in start-date order, is grouped with its best still-unprocessed matching ASPY course. Similarity uses `KEYWORD_MAP` as declared. |
| SynergyEngine.MasQueueFacts | src/utils/synergyEngine.js:92-99 | The MAS courses visited are input courses from MAS not yet flagged, sorted by start date. |
| SynergyEngine.GroupsAreValid | src/utils/synergyEngine.js:92-147 | Every group holds two courses: an open MAS input course and an ASPY input course that match. Match means same location, at most 15 days apart, ASPY places > 0 and similar titles. |
| SynergyEngine.OptimizationsDisjoint | src/utils/synergyEngine.js:102-140 | No course id appears in two groups. |
| SynergyEngine.UnmatchedMasNotGrouped | src/utils/synergyEngine.js:112-137 | A MAS course that matches no ASPY course is in no group. |
| SynergyEngine.UnmatchedPairNotGrouped | src/utils/synergyEngine.js:112-137 | A MAS and an ASPY course that do not match produce no group. |
| SynergyEngine.PlatformAndForkliftNotGrouped | src/utils/synergyEngine.js:126 | The list of just a work-platform MAS course and a forklift ASPY course gives no group. |
| SynergyEngine.PlatformAndForkliftNeverGrouped | src/utils/synergyEngine.js:126 | In any course list, no group pairs a work-platform MAS course with a forklift ASPY course. |
| SynergyEngine.OptimizationsMasOrder | src/utils/synergyEngine.js:99-101 | Groups come out in non-decreasing start date of their MAS course. |
| SynergyEngine.AddIds | src/utils/synergyEngine.js:172 | Adding a group's courses extends `groupedIds` with exactly their ids. |
| SynergyEngine.CollectGroups | src/utils/synergyEngine.js:168-174 | After the first `forEach`, the structure is the list of groups and `groupedIds` is the set of all their course ids. |
| SynergyEngine.AppendUngrouped | src/utils/synergyEngine.js:176-181 | The second loop appends, in input order, exactly the courses whose id no group holds. |
| SynergyEngine.ProcessCourseListWithGroups | src/utils/synergyEngine.js:159-191 | With no groups, the method returns the input courses as singles. Otherwise it returns the groups of the greedy pass (map as declared), then the courses no group holds, stably sorted by entry date. |
| SynergyEngine.ProcessedListComplete | src/utils/synergyEngine.js:159-191 | With distinct ids, every input course appears exactly once in the presentation list, inside a group or on its own. |
| SynergyEngine.ProcessedListOrder | src/utils/synergyEngine.js:183-188 | When there are groups, the list is sorted by entry date (a group's first course). Entries with equal dates keep their relative order, as the sort is stable. |
| SynergyEngine.ProcessedListWithoutGroups | src/utils/synergyEngine.js:166 | With no groups, the list is the input courses, unchanged and in order. |
| SynergyEngine.TensionKeyNeverMatches | src/utils/synergyEngine.js:47-61 | A normalised title never contains the accented key "tensión". |
| SynergyEngine.AsWrittenElectric | src/utils/synergyEngine.js:47-78 | With the map as declared, a fallback title gets "electric" only when it contains "electric". |
| SynergyEngine.TensionTitleExample | src/utils/synergyEngine.js:47-48 | The title "Tensión" gets no "electric" keyword under the map as declared (`Keywords`), and gets it under the corrected key (`KeywordsCorrected`). |
| SynergyEngine.HighVoltageIsElectric | src/utils/synergyEngine.js:47-48 | With the corrected key (`KeywordsCorrected`), a fallback title gets "electric" iff it contains "electric" or "tension". |
| SynergyDictionary.MatchEnd | generate_synergy_dictionary.cjs:16-55 | Matching one pattern piece at a position either fails (-1) or ends within the title. |
| SynergyDictionary.FindPiece | generate_synergy_dictionary.cjs:61 | The search finds the leftmost position where a pattern piece matches, or -1 when it matches nowhere. |
| SynergyDictionary.NameIndex | generate_synergy_dictionary.cjs:84 | `KEYWORD_RULES.find` by label gives the first rule with that label, or none. |
| SynergyDictionary.RulesDistinctNames | generate_synergy_dictionary.cjs:16-55 | No two rules share a label. |
| SynergyDictionary.RuleWeights | generate_synergy_dictionary.cjs:16-55 | Every rule weight is between 1 and 3. |
| SynergyDictionary.Keywords | generate_synergy_dictionary.cjs:58 | A missing title has no keywords. |
| SynergyDictionary.GetKeywords | generate_synergy_dictionary.cjs:57-66 | The rule loop returns exactly the specified keywords of the title. |
| SynergyDictionary.FireRules | generate_synergy_dictionary.cjs:59-65 | The loop over any rule list returns the keywords of the rules whose pattern matches, in rule order. |
| SynergyDictionary.FiredComplete | generate_synergy_dictionary.cjs:60-64 | Every rule whose pattern matches contributes its keyword. |
| SynergyDictionary.FiredOrdered | generate_synergy_dictionary.cjs:60-64 | With distinct labels, keywords come out in the order of their rules. |
| SynergyDictionary.KeywordRule | generate_synergy_dictionary.cjs:62 | Each keyword carries the weight of the rule with its label, between 1 and 3. |
| SynergyDictionary.KeywordsIff | generate_synergy_dictionary.cjs:57-66 | A rule's keyword is returned iff its pattern matches the title. Nothing else is returned, and the order is rule order. |
| SynergyDictionary.SharedMembers | generate_synergy_dictionary.cjs:75-80 | The common keywords are those of the first title whose label the second title also has. |
| SynergyDictionary.MatchScore | generate_synergy_dictionary.cjs:68-91 | The method's loop returns exactly the specified match result. |
| SynergyDictionary.ScoreKeywords | generate_synergy_dictionary.cjs:72-90 | The loop returns exactly the specified result for any two keyword lists. |
| SynergyDictionary.SharedSums | generate_synergy_dictionary.cjs:72-80 | The loop over `t1`'s keywords returns the summed weight and the labels, in `t1`'s order, of exactly those keywords whose label `t2` also has. |
| SynergyDictionary.ScoreFacts | generate_synergy_dictionary.cjs:72-90 | The score is positive iff some shared label is specific (weight 2 or more). Otherwise it is 0 with no labels. A positive score is the summed weight, at least 2, and the labels are exactly the shared ones, each once. |
| SynergyDictionary.SharedNames | generate_synergy_dictionary.cjs:76-78 | The common labels are exactly the labels both titles have. |
| SynergyDictionary.MatchScoreFacts | generate_synergy_dictionary.cjs:68-91 | `matchScore` on two titles meets the score facts above. |
| SynergyDictionary.BuildCandidates | generate_synergy_dictionary.cjs:140-148 | The nested loops return exactly the specified candidate list. |
| SynergyDictionary.PushCandidates | generate_synergy_dictionary.cjs:142-147 | The inner loop appends the candidates of one MAS title. |
| SynergyDictionary.CandidateFacts | generate_synergy_dictionary.cjs:141-146 | Every candidate pairs two loaded titles and scores above 0. |
| SynergyDictionary.CandidateComplete | generate_synergy_dictionary.cjs:141-146 | Every pair of loaded titles that scores above 0 is a candidate. |
| SynergyDictionary.ScoreLeqTotalPreorder | generate_synergy_dictionary.cjs:151 | The descending-score comparator is a total preorder. |
| SynergyDictionary.AssignPairs | generate_synergy_dictionary.cjs:153-162 | The greedy loop returns the specified pairs, and `usedASPY`/`usedMAS` are exactly their titles. |
| SynergyDictionary.AssignOneToOne | generate_synergy_dictionary.cjs:157-162 | Accepted pairs are candidates and use no title already used. No title is in two pairs. |
| SynergyDictionary.AssignBlocked | generate_synergy_dictionary.cjs:151-162 | Candidates arrive with non-increasing scores. A candidate left out was blocked by an accepted pair that shares one of its titles and scores at least as much. |
| SynergyDictionary.PairsFacts | generate_synergy_dictionary.cjs:140-162 | The pairing is one-to-one and uses only loaded titles with positive scores. Every candidate is either accepted or outscored by a pair sharing a title. |
| SynergyDictionary.AppendOrphans | generate_synergy_dictionary.cjs:166-184 | Each orphan loop appends the orphan row of every title its side left unused, in title order. |
| SynergyDictionary.RowLeqTotalPreorder | generate_synergy_dictionary.cjs:189-195 | Given a consistent collation, the final comparator is a total preorder. |
| SynergyDictionary.BuildDictionary | generate_synergy_dictionary.cjs:130-198 | `buildDictionary` returns exactly the specified dictionary. |
| SynergyDictionary.DictionaryOrder | generate_synergy_dictionary.cjs:188-195 | Pairs come before orphans and pairs are in non-increasing score. Orphans are in collation order of their title. |
| SynergyDictionary.DictionaryCoverage | generate_synergy_dictionary.cjs:153-184 | For distinct, non-empty title lists, each ASPY title and each MAS title appears in exactly one row. |
| SynergyDictionary.RemoveBracketGroups | generate_synergy_dictionary.cjs:106 | Removing `[...]` groups leaves no `[` with a later `]` and adds no character. What is kept is fixed by the four lemmas below. |
| SynergyDictionary.RemoveBracketGroupsPlain | generate_synergy_dictionary.cjs:106 | Text before the first `[` is kept unchanged, and the rest is cleaned on its own. |
| SynergyDictionary.RemoveBracketGroupsDrops | generate_synergy_dictionary.cjs:106 | A `[` and the text up to the first `]` after it go, and the scan resumes after that `]`. With `RemoveBracketGroupsPlain` and `RemoveBracketGroupsKeeps`, this fixes the result on every text. |
| SynergyDictionary.RemoveBracketGroupsAround | generate_synergy_dictionary.cjs:106 | A single bracket group between plain text is removed and the text on both sides is kept, joined. |
| SynergyDictionary.RemoveBracketGroupsKeeps | generate_synergy_dictionary.cjs:106 | Text without a bracket group is unchanged. |
| SynergyDictionary.StripTrailingGroup | generate_synergy_dictionary.cjs:107 | On a title ending in `)` that holds a `(`, the result is the longest prefix holding no `(`: everything from the first `(` goes. Any other title is unchanged. |
| SynergyDictionary.CleanAspyTitleFacts | generate_synergy_dictionary.cjs:106-107 | A cleaned ASPY title has no bracket group and no trailing parenthesised group, and is trimmed. |
| SynergyDictionary.CleanAspyTitlePlain | generate_synergy_dictionary.cjs:106-107 | A title with no `[` and no trailing `(...)` group is only trimmed. |
| SynergyDictionary.CleanAspyTitleExample | generate_synergy_dictionary.cjs:106-107 | "A [x] B" cleans to "A  B": the text around the group is kept. |
| SynergyDictionary.CleanAspyTitleIdempotent | generate_synergy_dictionary.cjs:106-107 | Cleaning an ASPY title twice is the same as cleaning it once. |
| SynergyDictionary.Collected | generate_synergy_dictionary.cjs:103-109 | A title is collected iff some row yields it. |
| SynergyDictionary.LoadTitlesFrom | generate_synergy_dictionary.cjs:100-110 | The loading loop returns exactly the specified title list. |
| SynergyDictionary.CollectTitles | generate_synergy_dictionary.cjs:102-109 | The row loop leaves in the title set each title a row yields, once, in order of first appearance. |
| SynergyDictionary.LoadTitlesFacts | generate_synergy_dictionary.cjs:100-125 | The loaded titles are exactly those some data row (after the header row) yields. Each appears once, in strictly increasing string order. |
| SynergyDictionary.LoadedAspyTitlesClean | generate_synergy_dictionary.cjs:104-108 | Every loaded ASPY title is non-empty and already clean. |
| SynergyDictionary.LoadedMasTitlesClean | generate_synergy_dictionary.cjs:120-123 | Every loaded MAS title is non-empty and trimmed. |
| SynergyDictionary.AuditCoverage | generate_synergy_dictionary.cjs:130-198 | Over two loaded sheets, every loaded title appears in exactly one dictionary row. |
| DataProcessor.FirstMatch | src/utils/dataProcessor.js:199-201 | The table scan returns the first entry whose key the text contains, or -1 if none does. |
| DataProcessor.FirstMatchAt | src/utils/dataProcessor.js:29-30 | An entry that matches, with no earlier entry matching, is the one found. |
| DataProcessor.RemoveFirstGroupSpec | src/utils/dataProcessor.js:23 | The replacement removes exactly the first match of `\s*\([^)]+\)`, or nothing when there is none. |
| DataProcessor.CleanTitle | src/utils/dataProcessor.js:21-24 | A missing title gives "Sin Título". Any other title comes back trimmed. |
| DataProcessor.CleanTitleNoGroup | src/utils/dataProcessor.js:23 | A title with no parenthesised group is only trimmed. |
| DataProcessor.TopicHeuristic | src/utils/dataProcessor.js:32-38 | The heuristics always give one of the five known topics. |
| DataProcessor.TopicTablesKnown | src/utils/dataProcessor.js:10-18 | Every value of the topic table is a known topic. |
| DataProcessor.NormalizeTopic | src/utils/dataProcessor.js:10-39 | `normalizeTopic` with `TOPIC_MAP` as declared: a missing text gives "General", and every text gives one of the five known topics. |
| DataProcessor.NormalizeTopicKnown | src/utils/dataProcessor.js:26-39 | A missing text gives "General". Every text gives a known topic. |
| DataProcessor.NormalizeTopicFirstKey | src/utils/dataProcessor.js:28-30 | The first key the upper-cased text contains decides the topic. |
| DataProcessor.NormalizeTopicHeuristic | src/utils/dataProcessor.js:31-38 | When no key is contained, the heuristics decide. |
| DataProcessor.DeadTopicKeys | src/utils/dataProcessor.js:11-13 | The mixed-case keys are never contained in upper-cased text, whatever the text. |
| DataProcessor.UpperCasedLive | src/utils/dataProcessor.js:28-30 | An upper-case key is found in the upper-cased text that contains it, so its entry can fire. |
| DataProcessor.TopicKeysLive | src/utils/dataProcessor.js:15-17 | Every key of the corrected topic table is upper case. |
| DataProcessor.HeuristicGeneral | src/utils/dataProcessor.js:32-38 | Upper-cased text with none of the letters G, P, L, Q, N passes every heuristic and gets "General". |
| DataProcessor.SecurityAsWritten | src/utils/dataProcessor.js:10-39 | With `TOPIC_MAP` as declared, the title "Security" gets "General". |
| DataProcessor.SecurityCorrected | src/utils/dataProcessor.js:11 | With upper-case keys, the title "Security" gets "Seguridad". |
| DataProcessor.NormalizeLocation | src/utils/dataProcessor.js:124-205 | `normalizeLocation` with `provinceMap` as declared: a missing location is "Desconocida". Any other gives a province of the table or the capitalised cleaned text. |
| DataProcessor.NormalizeLocationCases | src/utils/dataProcessor.js:188-205 | A missing location is "Desconocida". Otherwise the first key the cleaned text contains gives the province. With no key contained, the capitalised cleaned text is returned. |
| DataProcessor.FirstMatchSkip | src/utils/dataProcessor.js:199-201 | Entries whose keys are absent do not change what the scan finds further on. |
| DataProcessor.LasPalmasAsWritten | src/utils/dataProcessor.js:135 | With the province table as written, "Las Palmas" normalises to "Baleares". |
| DataProcessor.LasPalmasCorrected | src/utils/dataProcessor.js:178 | With "las palmas" looked up before "palma", "Las Palmas" normalises to "Las Palmas". |
| DataProcessor.ParseIntPrefix | src/utils/dataProcessor.js:267-270 | `parseInt` reads back an integer's decimal text followed by any non-digit text. |
| DataProcessor.ParseIntDigits | src/utils/dataProcessor.js:267-270 | Digits followed by nothing or by a non-digit parse to the value of the digits. |
| DataProcessor.ParseIntMinusDigits | src/utils/dataProcessor.js:267-270 | A minus sign, then digits, then nothing or a non-digit, parse to the negated value of the digits. |
| DataProcessor.ParseIntRoundTrip | src/utils/dataProcessor.js:267-270 | `parseInt(String(n))` is `n` for every integer `n`. |
| DataProcessor.ParseIntNaN | src/utils/dataProcessor.js:267-270 | Text with no digit parses to NaN, which `|| 0` turns into 0. |
| DataProcessor.IntOrZeroCell | src/utils/dataProcessor.js:267-270 | A numeric cell reads as its value; a missing cell reads as 0. |
| DataProcessor.CellString | src/utils/dataProcessor.js:233 | A text cell interpolates as itself and a missing cell as "undefined". A number's text parses back to the number. |
| DataProcessor.Max | src/utils/dataProcessor.js:270 | `Math.max` is an upper bound equal to one of its arguments. |
| DataProcessor.ParseRow | src/utils/dataProcessor.js:208-292 | `null` iff the title cell is falsy. A TypeError iff a truthy title, or a truthy location, is not text. Otherwise the course built from the columns, its topic and province taken from `TOPIC_MAP` and `provinceMap` as declared. |
| DataProcessor.BuildCourseFacts | src/utils/dataProcessor.js:233-289 | id and code are `<SOURCE>-<column 0>`. The status is CONFIRMADO iff places are free, else CERRADO. The topic is known, the title is trimmed, the course is not flagged and the start is the converted start cell. |
| DataProcessor.ParseRowFacts | src/utils/dataProcessor.js:233-289 | A parsed course has the source-prefixed id, the status tied to free places, a known topic and no synergy flag. |
| DataProcessor.ParseRowPlacesTaken | src/utils/dataProcessor.js:268-270 | With numeric capacity and free-places cells and no enrolment cell, enrolment is capacity minus free places, or 0. |
| DataProcessor.ParseRowEnrolment | src/utils/dataProcessor.js:270 | A numeric enrolment cell is taken as the enrolment. |
| DataProcessor.KpisBound | src/utils/dataProcessor.js:339-343 | The three status counts add up to at most the number of courses. |
| DataProcessor.KpisOfParsed | src/utils/dataProcessor.js:289 | Over parsed courses, confirmed plus closed is every course and none is finalised. |
| AppFilters.HandleFilterChange | src/App.jsx:104-112 | Only the named field changes. Choosing a location that is not blank also switches "synergies only" on. |
| AppFilters.HandleFilterChangeIdempotent | src/App.jsx:104-112 | Applying the same change twice equals applying it once. |
| AppFilters.CheckCourseNeutral | src/App.jsx:56-74 | With every filter unset, every course passes. |
| AppFilters.CheckCourseExact | src/App.jsx:56-74 | A passing course meets each filter that is set: location, company and both date bounds. |
| AppFilters.FilteredDataFacts | src/App.jsx:54-86 | The shown items are the input items that pass, in order. A single course passes iff "synergies only" is off and it passes the checks. A group passes iff one of its courses does. With "synergies only", only groups are shown. |
| AppFilters.InitialFiltersKeepAll | src/App.jsx:32-38 | With the initial filters every single course and every non-empty group is shown. |
| AppFilters.SynergiesOnlyNarrows | src/App.jsx:76-84 | Switching "synergies only" on shows a subsequence of what it shows when off. |
| AppFilters.LocationChangeShowsGroups | src/App.jsx:104-112 | After a location is chosen, only groups with a course at that location are shown. |
| AppFilters.UniqueValuesFacts | src/App.jsx:41-51 | A value list holds exactly the values of the shown courses, each once, in strictly increasing string order. |
| AppFilters.UniqueTitlesFacts | src/App.jsx:41-45 | `uniqueTitles` holds every course title, each once, sorted. |
| AppFilters.UniqueLocationsFacts | src/App.jsx:47-51 | `uniqueLocations` holds every course location, each once, sorted. |
| KpiDashboard.CategoriesPartition | src/components/KPIDashboard.jsx:4-52 | The four categories' scenario lists are disjoint and together cover exactly the five known scenarios. |
| KpiDashboard.ComputeCategory | src/components/KPIDashboard.jsx:81-101 | The card loop returns exactly the specified figures. These are the number of groups in the category and the enrolment summed over their courses, in total, for ASPY and for MAS. |
| KpiDashboard.SumStudents | src/components/KPIDashboard.jsx:88-93 | The loop over one group's courses sums the enrolment in total, of the ASPY courses and of the MAS courses. |
| KpiDashboard.SumGroups | src/components/KPIDashboard.jsx:87-94 | The loop over a card's groups sums the same three figures over all their courses. |
| KpiDashboard.ComputeCards | src/components/KPIDashboard.jsx:80-103 | The `map` over the categories yields one card per category, in category order, each with its specified figures. |
| KpiDashboard.ComputeMetrics | src/components/KPIDashboard.jsx:57-116 | The dashboard returns one card per category, in order, each with the specified figures. |
| KpiDashboard.StudentsSplit | src/components/KPIDashboard.jsx:88-93 | Over any courses, ASPY enrolment plus MAS enrolment is the total enrolment. |
| KpiDashboard.GroupStudentsSplit | src/components/KPIDashboard.jsx:87-94 | The same split holds over any groups. |
| KpiDashboard.CardTotals | src/components/KPIDashboard.jsx:83-101 | On every card, the ASPY and MAS figures add up to the total. |
| KpiDashboard.MetricsFor | src/components/KPIDashboard.jsx:80 | There is one card per category. |
| KpiDashboard.MetricsForAt | src/components/KPIDashboard.jsx:80 | Card `k` carries the figures of category `k`. |
| KpiDashboard.SinglesIgnored | src/components/KPIDashboard.jsx:59 | Adding a single course anywhere in the data changes no card. |
| KpiDashboard.HitsKnown | src/components/KPIDashboard.jsx:81 | A group falls into exactly one category if its scenario type is known, and into none otherwise. |
| KpiDashboard.CountedAreKnown | src/components/KPIDashboard.jsx:98-106 | The sum of the cards' group counts is the number of groups with a known scenario type. |
| KpiDashboard.CrossCheck | src/components/KPIDashboard.jsx:106-113 | The cross-check passes iff every group has a known scenario type. |
| KpiDashboard.ScenarioBreakdown | src/components/KPIDashboard.jsx:63-68 | The breakdown loop returns exactly the specified map. |
| KpiDashboard.BreakdownCounts | src/components/KPIDashboard.jsx:63-68 | The breakdown has a key iff some group carries that label, or 'UNDEFINED' for none. It maps each key to the number of groups with that label. |
| KpiDashboard.LabelKnown | src/components/KPIDashboard.jsx:65-74 | A group's label is among the known scenarios iff its scenario type is known. |
| KpiDashboard.WarningIffMismatch | src/components/KPIDashboard.jsx:72-113 | The dashboard warns about an unrecognised scenario iff the cross-check fails. |
| KpiDashboard.ProposedGroupsUnclassified | src/utils/synergyEngine.js:142-147 | The groups the engine proposes have no scenario type. |
| KpiDashboard.ProcessedGroupsUnclassified | src/utils/synergyEngine.js:159-191 | No group in the presentation list has a scenario type. The list holds a group iff the engine proposed one. |
| KpiDashboard.EngineGroupsUncounted | src/components/KPIDashboard.jsx:80-113 | Over the engine's presentation list, the cards count no group. The unrecognised-scenario warning fires iff the engine proposed at least one group. |
| Records.OrElse | src/utils/dataProcessor.js:243 | `a || b` on cells is one of its operands, and it is truthy iff either operand is. |
| Records.FlattenMembers | src/App.jsx:42 | A course is in the flattened list iff some entry stands for it: a single for itself, a group for each of its courses. |
| Sorting.SortBy | src/utils/synergyEngine.js:184-188 | Sorting keeps the length and the multiset of elements: the output is a permutation of the input. |
| Sorting.SortBySorted | src/utils/synergyEngine.js:184-188 | Under any total preorder, the output is sorted. |
| Sorting.SortByStable | src/utils/synergyEngine.js:184-188 | Elements that compare equal keep their relative order. |
| Sorting.FilterMembers | src/App.jsx:55 | `filter` keeps exactly the elements that pass. |
| Sorting.FilterSubsequence | src/App.jsx:55 | `filter` keeps the elements that pass in their order. |
| Sorting.FilterMonotone | src/App.jsx:76-84 | A stricter test filters out a subsequence. |
| Sorting.UniqueSortedFacts | src/App.jsx:44 | `[...new Set(s)].sort()` holds every element of `s` once, in strictly increasing code-point order. |
| Sorting.DefaultOrderTotalPreorder | src/App.jsx:44 | The default sort order on strings is a total preorder. |
| Text.TrimSlice | src/utils/dataProcessor.js:192 | The trimmed text is one contiguous slice of the original. |
| Text.ContainsIffOccurs | src/utils/synergyEngine.js:66 | `includes` holds iff the key occurs at some position. |
| Text.StrLeqTotal | src/App.jsx:44 | Code-point order compares any two strings. |
| Text.StrLeqTransitive | src/App.jsx:44 | Code-point order is transitive. |
| Text.StrLeqAntisymmetric | src/App.jsx:44 | Code-point order is antisymmetric. |

## Findings

| source | as written | input that shows it | evidently intended | confidence | as-written member | corrected member |
|---|---|---|---|---|---|---|
| src/utils/synergyEngine.js:48 | The `KEYWORD_MAP` key "tensión" is looked up in titles whose accents were already stripped (lines 60-61), so it never matches. | The title "Tensión" yields no "electric" keyword, so "Alta Tensión" and "Riesgo eléctrico" courses are not found similar through it. | The high-voltage key matches accent-stripped text ("tension"). | not executed | SynergyEngine.TensionKeyNeverMatches, SynergyEngine.AsWrittenElectric, SynergyEngine.TensionTitleExample | SynergyEngine.HighVoltageIsElectric (map `SynergyEngine.KeywordMapCorrected`) |
| src/utils/dataProcessor.js:135 | "palma" → "Baleares" comes before "las palmas" → "Las Palmas" (line 178), and the scan takes the first key contained. | The location "Las Palmas" normalises to "Baleares". | "Las Palmas" normalises to "Las Palmas". | not executed | DataProcessor.LasPalmasAsWritten | DataProcessor.LasPalmasCorrected (table `DataProcessor.ProvinceMapCorrected`) |
| src/utils/dataProcessor.js:11-13 | The `TOPIC_MAP` keys "Security", "Prevención" and "Management" are searched for in upper-cased text, so they never match. | The title "Security" (upper-cased "SECURITY") misses the "Security" → "Seguridad" entry and every heuristic, and gets "General". | The keys are written in upper case, so that their entries can fire. | not executed | DataProcessor.DeadTopicKeys, DataProcessor.SecurityAsWritten | DataProcessor.TopicKeysLive, DataProcessor.UpperCasedLive, DataProcessor.SecurityCorrected (table `DataProcessor.TopicMapCorrected`) |

## Left out

- File and network I/O is not modelled: `loadData`, `fetchAndParseASPY`/`fetchAndParseMAS`, `loadSynergyDictionary`, the `XLSX` workbook reading in `loadASPY`/`loadMAS`, the Excel and PDF export, uploads and `console` logging. The loaders take the sheet as a list of rows of cells. The dashboard's log lines are modelled only as the breakdown, the unrecognised-scenario test and the cross-check outcome.
- Dates are not modelled: `getJsDate`, `formatDate`, the `fechas`/`startDatefmt`/`endDate`/`endDatefmt` fields and the `new Date(...)` comparisons of the date filters. A start date is an integer day number. `DataProcessor.ParseRow` takes the conversion of the start-date cell as a parameter (`dayOf`).
- SynergyEngine.DaysDiff: the difference is in whole days. A fractional difference between two times of day, which the engine's division by 86 400 000 ms allows, is not represented.
- Unicode is modelled only in part. `toLowerCase`, `toUpperCase` and NFD accent stripping are modelled for ASCII and the accented Latin letters Spanish uses; other characters are left unchanged. Strings are sequences of code points, not UTF-16 code units.
- `localeCompare` is a parameter (`collate`) of the dictionary's final order; its properties are proved for any total preorder. The default `sort()` is code-point order.
- In the regular expressions, `.` is taken to match any character; JavaScript's `.` excludes line terminators.
- A spreadsheet cell is missing, text or an integer. Floating-point and date cells are not modelled, nor is `String(x)` of a fraction.
- KpiDashboard.ComputeCategory: `Number(c.inscritos) || 0` is the enrolment itself, because `inscritos` is always an integer here, so the NaN branch cannot arise.
- React state, hooks, rendering, hover state and the table and chart components are not modelled. `handleFilterChange` is the function from previous to next filter state.
- The capacity classification of a group (`scenarioType`, host/feeder, students to move) is computed in none of the modelled files. A group carries the type as an optional field. The engine leaves it unset, as `KpiDashboard.EngineGroupsUncounted` records.
- The `isGrouped`/`groupData` fields that `processCourseListWithGroups` resets, and the display-only `suggestion` text of a group, are not modelled. Both are write-only in the modelled code.
- The dictionary argument passed to `processCourseListWithGroups` in `src/App.jsx:97` is not modelled; the function ignores it.
- `modalidad` is kept as the raw cell (or "Presencial"), since nothing in the modelled code reads it.
- The scorer and orphan labeller of the dictionary functions are parameters. `SynergyDictionary.AuditDictionary` instantiates them with `matchScore` and the keyword text. This keeps proofs about pairing and ordering independent of the keyword rule table.
