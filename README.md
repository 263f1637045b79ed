# Course server lesson index, modelled in Dafny

The repository is a small Go web server for a course. It reads a directory of
Markdown lessons, works out the week of each lesson, and serves the lessons,
a syllabus and a per-lesson table of contents over HTTP. It ships three
variants of the server, which share most of their logic:

- `main.go`: the sectioned server. Weeks taken from file names and weeks of
  top-level lessons go up to 48. Five sections with disjoint week ranges hold
  the lessons; the fifth, `section5`, covers weeks 49-60 (main.go:237), and
  the week route answers weeks 1-60 (main.go:445). Top-level `week*.md` files are
  attached to the section whose range holds their week. A scan builds a new
  catalog and installs it at the end.
- `embedded_server.go`: the flat server. Week numbers go up to 100 and there
  are no sections. A walk that fails returns its error and keeps the
  previous lesson map.
- `from_claude/course_backend.go`: the minimal server. Week numbers go up to
  10. A scan clears the lesson map first and fills it during the walk. A
  file whose `Stat` fails still gets a lesson. The course file is looked
  for under `course.yaml` only. `handleLessons`, `handleLesson` and
  `handleSyllabus` rescan before they answer; `handleLesson` first checks the
  week and answers 400 without a rescan (from_claude/course_backend.go:215-239);
  `handleCourse` answers the stored course without a rescan
  (from_claude/course_backend.go:191-194).

The model is one implementation. Its `Variant` record holds the week bound,
whether front matter may override the section, and whether a failed `Stat`
is fatal. The modules follow the program's parts:

- `Text`, `Files`: the Go library functions the core relies on. These are
  `strings.ToLower`, `TrimSpace`, `TrimSuffix`, `Contains`, `strconv.Atoi`
  and `filepath.Base`.
- `WeekNumbers`: `extractWeekFromFilename`.
- `FrontMatter`, `Lessons`: `strings.SplitN`, the front-matter split and
  `parseLesson`.
- `Courses`: `loadCourseInfo`.
- `Catalog`, `CatalogProperties`, `ScanOrder`, `CatalogServer`: the sectioned
  `scanLessons`, its invariants, and the server class that installs the
  result.
- `FlatServers`: the flat and minimal `scanLessons`, their server classes and
  the minimal server's handlers.
- `Queries`: week lookups, the week-ordered listing and the sorted week list.
- `Markdown`, `Toc`, `TocRoute`: slug generation, `cleanTitle`, the two ways
  of extracting a table of contents, and the TOC route.
- `Watcher`: the event classification of `startFileWatcher`.

The environment is made of values:

- The lessons directory is a `FileSystem`: whether its root exists, and its
  entries in walk order.
- Each entry is a file (its data, if it can be read, and its `Stat` info,
  if that succeeds), a directory, or an entry the walk cannot visit.
- YAML decoding is a function passed in as a parameter.
- The clock is a `now` value passed in.

## Model

| member | source | states |
|---|---|---|
| WeekNumbers.FilenameWeek | main.go:392-413 | the week of a file name is 0 or lies in [1, maxWeek] |
| WeekNumbers.ExtractWeekFromFilename | main.go:392-413 | the loop over the three tokens returns exactly `FilenameWeek` of the name |
| WeekNumbers.TryTokens | main.go:396-412 | the pattern loop returns the number formed by the digits when some token occurs and that number is in [1, maxWeek], else 0 |
| WeekNumbers.CollectDigits | main.go:400-405 | the character loop collects exactly the digits of the string, in order |
| WeekNumbers.Digits | main.go:400-405 | the collected digits are all digits and no longer than the input |
| WeekNumbers.DigitsAppend | main.go:400-405 | digit collection distributes over concatenation |
| WeekNumbers.DigitsOfDigitString | main.go:400-405 | a string of digits collects to itself |
| WeekNumbers.DigitsOfNonDigits | main.go:400-405 | a string without digits collects to the empty string |
| WeekNumbers.DigitsOfLower | main.go:393 | lower-casing does not change the digits of a name |
| WeekNumbers.DigitsOfNormalized | main.go:393-394 | lower-casing and dropping `.md` do not change the digits of a name |
| WeekNumbers.HasWeekTokenIsContainsSome | main.go:396-399 | the name contains a token iff it contains `week`, `lesson` or `chapter` |
| WeekNumbers.WeekIsConcatenatedDigits | main.go:392-413 | the week is non-zero iff the normalized name holds a token, has digits, and the number they form is in [1, maxWeek]; a non-zero week is that number |
| WeekNumbers.TokenNumberName | main.go:392-413 | `<token><digits>.md` yields the number when it is in range and 0 otherwise |
| WeekNumbers.FilenameWeekOfNormalized | main.go:393-394 | names with the same normalized form have the same week |
| WeekNumbers.CanonicalNameRoundTrip | main.go:392-413 | `week<n>.md` yields n for every n in [1, maxWeek] |
| WeekNumbers.FilenameWeekFromDigits | main.go:392-413 | the week in terms of the normalized name and its digits |
| WeekNumbers.NormalizedOfLowerName | main.go:393-394 | a lower-case stem plus `.md` normalizes to the stem |
| WeekNumbers.DigitsOfTwoNumbers | main.go:400-405 | the digits of two numbers separated by non-digits are concatenated |
| WeekNumbers.ExampleTwoNumbers | main.go:392-413 | `week-1-lesson-2.md` yields 12 |
| WeekNumbers.ExampleLeadingZero | main.go:406 | `week01.md` yields 1 |
| WeekNumbers.ExampleChapter | from_claude/course_backend.go:162-189 | `chapter3.md` yields 3 with the bound 10 |
| WeekNumbers.ExampleUpperCase | main.go:393-394 | `Week7.MD` yields 7: the name is lower-cased before `.md` is dropped |
| WeekNumbers.ExampleNoToken | main.go:396-412 | `intro-2.md` yields 0: it has digits but no token |
| WeekNumbers.ExampleNoDigits | main.go:406 | `week.md` yields 0: `Atoi` of the empty string fails |
| WeekNumbers.ExampleBound | embedded_server.go:278 | `week49.md` yields 0 with the bound 48 and 49 with the bound 100 |
| Text.ToLower | main.go:393 | lower-casing keeps the length and maps each character |
| Text.TrimSuffix | main.go:394 | with the suffix present, the result plus the suffix is the input; otherwise the input is unchanged |
| Text.TrimSpace | main.go:361 | the result neither starts nor ends with white space |
| Text.TrimSpaceProperties | main.go:361 | trimming is idempotent, and the result is empty iff the input is all white space |
| Text.TrimLeftSpace | main.go:361 | the result is a suffix of the input; everything dropped is white space; it does not start with white space |
| Text.TrimRightSpace | main.go:361 | the result is a prefix of the input; everything dropped is white space; it does not end with white space |
| Text.Atoi | main.go:406 | a digit string in the int64 range parses to its decimal value; the empty string fails; any result is in the int64 range |
| Text.AtoiOfDigits | main.go:406 | a non-empty digit string parses iff its value fits in int64 |
| Text.NatToString | main.go:382 | the decimal rendering of a number is a non-empty digit string |
| Text.DecimalValueOfNatToString | main.go:382 | reading back the decimal rendering of n gives n |
| Text.IndexOf | main.go:354 | finds the first occurrence of the separator, or reports that there is none |
| Files.Base | main.go:370 | the base name is never empty, is `.` for the empty path, and holds no slash unless it is `/` |
| Files.BaseOfJoin | main.go:260 | the base name of `dir/name` is `name` |
| Files.BaseOfPlainName | main.go:370 | a name without slashes is its own base name |
| Files.Lookup | main.go:183 | finds the entry at a path, or reports that no entry has that path |
| Files.ReadData | main.go:334-337 | a read succeeds exactly on a file whose data is readable |
| FrontMatter.SplitN | main.go:354 | gives 1 to n parts; joined with the separator they give the input back; each part before the last ends at the first separator; with fewer than n parts the last part holds no separator |
| FrontMatter.SplitFrontMatter | main.go:353-355 | a text splits iff it starts with `---` and has another `---` after that; the metadata and body rebuild the text, and the metadata ends at the first later `---` |
| FrontMatter.ThreeParts | main.go:353-355 | after an opening `---`, the split has a third part exactly when another `---` follows; the parts then rebuild the text and the metadata ends at the first `---` |
| FrontMatter.FirstPartEmpty | main.go:354 | a text that starts with `---` splits into an empty part and then the split of the rest |
| FrontMatter.SplitFrontMatterRoundTrip | main.go:353-355 | `---` m `---` b splits into m and b whenever m ends at the first later `---`, that is, no `---` starts inside m or across its end |
| FrontMatter.SplitUnique | main.go:353-355 | two splittings of the same text agree |
| FrontMatter.NoFrontMatterWithoutPrefix | main.go:353 | a text that does not start with `---` has no front matter |
| Lessons.PartsOfFrontMatter | main.go:354-355 | `SplitN(text, "---", 3)` has three parts iff the front-matter split succeeds, and its parts 1 and 2 are then the metadata and body |
| Lessons.StartLesson | main.go:339-351 | definition: the record before the front matter is read; path, the caller's section, `CreatedAt` from stat (or `now`), size from stat; `Lessons.ParsedLesson` states its fields |
| Lessons.WithFrontMatter | main.go:356-365 | definition: decoded front matter sets title, description, week and the trimmed body, and a non-empty section where the variant allows; `Lessons.LessonFromFrontMatter` states the outcome |
| Lessons.WithFallbacks | main.go:369-387 | definition: week from the file name when still 0, the default title when empty, the raw text when the content is empty; `Lessons.LessonWithoutFrontMatter` and `CatalogProperties.SectionFileWeek` state the outcome |
| Lessons.FrontMatterOf | main.go:353-361 | front matter is used iff the raw text is `---` m `---` b, with m ending at the first later `---`, and m decodes; the result is then the decoded m with b trimmed |
| FrontMatter.SplitOfParts | main.go:353-355 | a text of the form `---` m `---` b, with m ending at the first later `---`, splits into exactly m and b |
| Lessons.DefaultTitleDigits | main.go:381-383 | the default title is `Week `, then the decimal digits of the week (after a `-` when it is negative), then ` Lesson` |
| Text.IntToStringReadsBack | main.go:382 | `%d` renders a number as decimal digits that read back as the number, with a leading `-` for a negative one |
| CatalogProperties.SectionFileWeek | main.go:369-379 | for a file in section row k with file-name week n, the lesson week is 0 when n is 0 and `weekStart + n - 1` otherwise; it lies within the section's range exactly when n is in [1, 12] |
| CatalogProperties.SectionNamedFile | main.go:267-288 | a file `week<n>.md` without front matter in section row k parses to week `weekStart + n - 1`; the walk adds it when n is at most 12 and drops it otherwise, so `section2-javascript/week13.md` gets week 25 and is dropped |
| Lessons.ParsedLesson | main.go:333-390 | parsing succeeds iff the file can be read and, in variants where stat is fatal, stat succeeds; a read failure is reported as such; a parsed lesson has a non-empty title, its own path and the caller's section name; its content is empty iff the raw file is; `CreatedAt` is the mtime, or `now` when stat failed |
| Lessons.ParseLesson | main.go:333-390 | the field-by-field method returns exactly `ParsedLesson` |
| Lessons.ApplyFallbacks | main.go:369-387 | the week, title and content fallbacks, applied in the source's order, give `WithFallbacks` |
| Lessons.LessonFromFrontMatter | main.go:353-367 | a decodable front matter provides the description, the title (or the default title), the week when it is non-zero, the trimmed body (or the raw text when that is empty), and the metadata's non-empty section when the variant lets front matter override the section |
| Lessons.LessonWithoutFrontMatter | main.go:369-387 | without usable front matter a lesson gets the file-name week, the default title, an empty description, the raw text and the caller's section |
| Lessons.UnresolvedWeekIsZero | main.go:369-383 | with no week from the front matter or the file name, the week is 0 and the title is the default one |
| Lessons.DefaultTitleOfZero | main.go:382 | the default title of week 0 is `Week 0 Lesson` |
| Lessons.RawNonEmptyWithFrontMatter | main.go:385-387 | a text with front matter is never empty, so the raw-content fallback never yields empty content |
| Lessons.StatFailure | from_claude/course_backend.go:154-157 | when stat fails, the minimal variant still parses the file, keeping `now` as `CreatedAt` and size 0; the other two variants report a stat error |
| Courses.FirstExisting | main.go:182-185 | finds the first course-file name that exists, and no earlier one exists |
| Courses.LookupOfExisting | main.go:205 | an existing path has an entry |
| Courses.CourseFromFile | main.go:205-212 | loading fails iff the file cannot be read or does not decode; otherwise the decoded course is the result |
| Courses.LoadedCourse | main.go:178-216 | definition: the first existing candidate is read and decoded, and with none the default is loaded; `Courses.DefaultWhenMissing`, `Courses.FirstPresentIsRead`, `Courses.YamlBeforeYml` and `Courses.YmlFallback` state its cases |
| Courses.DefaultWhenMissing | main.go:183-202 | when no candidate file exists, the fixed default course is the result, with success |
| Courses.DefaultWithoutRoot | main.go:183-202 | a missing lessons directory also gives the default course |
| Courses.FirstPresentIsRead | main.go:182-212 | the first existing candidate is the one read |
| Courses.YamlBeforeYml | main.go:182-183 | `course.yaml` wins when it exists |
| Courses.YmlFallback | main.go:184-185 | `course.yml` is read only when `course.yaml` is absent |
| Courses.MinimalIgnoresYml | from_claude/course_backend.go:57-67 | the minimal loader gives its 10-week default whenever `course.yaml` is absent, whether or not `course.yml` exists |
| Courses.LoadCourse | main.go:178-216 | the loader method computes `LoadedCourse` over both names, or `course.yaml` alone for the minimal variant |
| Catalog.RangeDescriptionDigits | main.go:244 | a section description is `Weeks `, the decimal digits of the first week, `-`, and the decimal digits of the last week |
| Catalog.TableDescriptions | main.go:233-244 | the five descriptions are `Weeks 1-12`, `Weeks 13-24`, `Weeks 25-36`, `Weeks 37-48` and `Weeks 49-60` |
| Catalog.SectionsOf | main.go:240-249 | the initial section map has exactly the ids of the configured rows |
| Catalog.SectionsOfRows | main.go:240-249 | with distinct ids, each row's id maps to that row's empty section |
| Catalog.SectionsOfRow | main.go:240-249 | with distinct ids, row k's id is a key and maps to row k's empty section |
| Catalog.InitialSections | main.go:228-249 | the five configured sections, empty, keyed by their ids |
| Catalog.DistinctIds | main.go:233-237 | the section ids are distinct |
| Catalog.TableRanges | main.go:233-237 | section k covers weeks 12k+1 to 12k+12 |
| Catalog.SectionIndexOfWeek | main.go:313-314 | every week in [1, 60] lies in exactly one section's range |
| Catalog.SectionOfWeek | main.go:313-321 | a week has a section iff it is in [1, 60], and that section is the one whose range holds it |
| Catalog.FirstSectionHolding | main.go:313-321 | the search over the sections finds a section holding the week iff there is one |
| Catalog.InsertByWeek | main.go:296-298 | inserting into a week-sorted list keeps it sorted and adds exactly the one lesson |
| Catalog.SortByWeek | main.go:296-298 | the sorted list is ordered by week and is a permutation of the input |
| Catalog.LegacyLesson | main.go:302-324 | an attached legacy lesson has a week in [1, 48], goes to the section whose range holds it, and carries that section's id and name |
| Catalog.WalkStep | main.go:268-288 | definition: one callback call adds a readable Markdown file of the section whose parsed week is in the section's range, and skips anything else; `CatalogProperties.WalkStepValid` and `CatalogProperties.SectionNamedFile` state its effect |
| Catalog.WalkSection | main.go:267-289 | definition: the callback over the entries in walk order, stopping at an entry of the directory the walk cannot visit; `CatalogProperties.WalkSectionValid` states what it keeps |
| Catalog.SectionStep | main.go:259-299 | definition: an existing section directory is walked and its list then sorted; a missing one is skipped; `CatalogProperties.SectionStepValid` and `ScanOrder.SectionPhaseOfAbsent` state its effect |
| Catalog.SectionPhase | main.go:259-299 | definition: the section loop over the table rows; `CatalogProperties.SectionPhaseValid` states what it keeps |
| Catalog.IsLegacyName | main.go:302 | definition: the `week*.md` glob as a test on top-level names |
| Catalog.AddLegacy | main.go:304-324 | definition: a globbed file that `Catalog.LegacyLesson` keeps is added to its section; `CatalogProperties.LegacyLessonAttached` states both cases |
| Catalog.LegacyPhase | main.go:302-325 | definition: the legacy loop over the top-level entries; `CatalogProperties.LegacyPhaseValid` states what it keeps |
| Catalog.ScanAsWritten | main.go:218-331 | definition: `scanLessons` as written, sorting each section before the legacy files are appended; `ScanOrder.SortBeforeLegacy` shows an unsorted result and `CatalogProperties.ScanValid` what it keeps |
| Catalog.SortAll | main.go:296-298 | definition: the sort applied to every section; `CatalogProperties.SortAllSorts` and `CatalogProperties.SortAllValid` state its effect |
| Catalog.Scan | main.go:218-331 | definition: the corrected scan of the "Findings" row, `ScanAsWritten` followed by sorting every section; `CatalogProperties.ScanValid` states that it is valid and sorted |
| CatalogProperties.EmptyCatalogValid | main.go:251-256 | the catalog before any walk is valid and sorted |
| CatalogProperties.AddValid | main.go:282-285 | adding an in-range lesson to its section keeps the catalog valid and overwrites the week map at its week |
| CatalogProperties.AddKeyed | main.go:283 | the week map stays keyed by each lesson's own week |
| CatalogProperties.AddHeaders | main.go:284 | appending a lesson leaves every section header as configured |
| CatalogProperties.AddListsInRange | main.go:282-284 | every listed lesson stays inside its section's range |
| CatalogProperties.AddMapInLists | main.go:283-284 | every lesson in the week map stays in its section's list |
| CatalogProperties.SortKeepsMembers | main.go:296-298 | sorting keeps exactly the same lessons |
| CatalogProperties.SortSectionValid | main.go:296-298 | sorting one section keeps the catalog valid and sorts that section |
| CatalogProperties.SortHeaders | main.go:296-298 | sorting keeps the section headers |
| CatalogProperties.SortLists | main.go:296-298 | sorting keeps every list in range and leaves the week map alone |
| CatalogProperties.SortMap | main.go:296-298 | after sorting, the week map's lessons are still in their lists |
| CatalogProperties.SortSectionFrame | main.go:296-298 | sorting one section leaves the other sections and the set of ids untouched |
| CatalogProperties.WalkStepValid | main.go:268-288 | one call of the walk callback keeps the catalog valid |
| CatalogProperties.WalkSectionValid | main.go:267-289 | a section walk keeps the catalog valid, including one that stops on an error |
| CatalogProperties.SectionStepValid | main.go:259-299 | handling one section directory keeps the catalog valid |
| CatalogProperties.SectionPhaseValid | main.go:259-299 | the loop over the section directories keeps the catalog valid |
| CatalogProperties.AddLegacyValid | main.go:304-324 | attaching a legacy file keeps the catalog valid |
| CatalogProperties.LegacyPhaseValid | main.go:302-325 | the legacy loop keeps the catalog valid |
| CatalogProperties.SortAllValid | main.go:296-298 | sorting every section keeps the catalog valid |
| CatalogProperties.SortAllSorts | main.go:296-298 | sorting every section from row k on sorts those sections and leaves the ones before k as they were |
| CatalogProperties.SortAllEmpty | main.go:251-256 | sorting empty sections changes nothing |
| CatalogProperties.ScanValid | main.go:218-331 | every scan, as written or corrected, is valid: five sections as configured, lists in range, the week map keyed by week and held in the lists; the corrected scan also has every section sorted |
| CatalogProperties.WeekInExactlyOneSection | main.go:282-285 | a lesson in the week map is listed in the section of its week and in no other |
| CatalogProperties.MissingDirectoryScan | main.go:251-256 | a missing lessons directory gives an empty week map and the five empty sections |
| CatalogProperties.LegacyLessonAttached | main.go:302-324 | a legacy file that parses with a week in [1, 48] is put in the week map and appended to the section whose range holds it, with that section's id and name; any other legacy file changes nothing |
| CatalogProperties.DuplicateWeek | main.go:282-285 | two lessons with the same week both stay in the section list while the week map keeps the second |
| ScanOrder.SortBeforeLegacy | main.go:296-318 | one section file of week 5 and one legacy `week3.md` give a first-section list of weeks 5 and then 3, which is not sorted |
| ScanOrder.SortBeforeLegacyFor | main.go:296-318 | the same for any parser and any names placed like those two files |
| ScanOrder.SectionPhaseOfAbsent | main.go:262-265 | section directories that do not exist are skipped |
| ScanOrder.NotAnotherSection | main.go:259-265 | a path with `1` at its eighth character, or one not starting with `s`, is not the directory of the second, third or fourth section |
| ScanOrder.StepOnDirectory | main.go:272-274 | the walk callback ignores a directory |
| ScanOrder.StepOnTopLevel | main.go:267-289 | a section walk does not see files outside its directory |
| CatalogServer.InitSections | main.go:240-249 | the initialization loop builds exactly `SectionsOf` the rows |
| CatalogServer.WalkEntry | main.go:268-288 | one callback call updates the week map and the section's list as `WalkStep` does |
| CatalogServer.WalkSectionDir | main.go:267-289 | the callback loop over a section's entries computes `WalkSection` |
| CatalogServer.ScanSections | main.go:259-299 | the loop over the section directories computes `SectionPhase` and keeps the section ids |
| CatalogServer.FindSection | main.go:313-321 | the loop over the sections finds the section whose range holds the week, or none |
| CatalogServer.ScanLegacy | main.go:302-325 | the legacy loop computes `LegacyPhase` and keeps the section ids |
| CatalogServer.SortEverySection | main.go:296-298 | the sorting loop, moved after the legacy loop as in the corrected scan of the "Findings" row, computes `SortAll` |
| CatalogServer.RebuildCatalog | main.go:218-331 | the rebuild computes the corrected `Scan` |
| CatalogServer.ScanOutcome | main.go:218-331 | a rebuilt catalog is valid and sorted |
| CatalogServer.Server.constructor | main.go:113-118 | a new server has empty maps and no course |
| CatalogServer.Server.LoadCourseInfo | main.go:178-216 | on success the course becomes the loaded one; on failure the course stays and the error is returned; the maps do not change |
| CatalogServer.Server.ScanLessons | main.go:218-331 | the week map and section map are replaced together by the corrected scan of the "Findings" row, which is valid and sorted; the course does not change |
| CatalogServer.Server.HandleEvent | main.go:144-164 | an event reloads the course and rescans the lessons exactly as `React` says; what is not triggered does not change |
| CatalogServer.Server.Install | main.go:328-329 | both maps are replaced together |
| FlatServers.Kept | embedded_server.go:188-201 | a kept lesson has a week in [1, maxWeek] and comes from a readable Markdown file, not a directory |
| FlatServers.FlatStep | embedded_server.go:184-203 | definition: one callback call puts the kept lesson, if any, at its week; `FlatServers.FlatEntry` computes it and `FlatServers.OverwriteLast` states its effect |
| FlatServers.FlatWalk | embedded_server.go:183-204 | definition: the walk over the entries in walk order, stopping with an error at an entry it cannot visit; `FlatServers.FlatWalkFails`, `FlatServers.LastWriteWins` and `FlatServers.WeeksOfWalk` state its outcome |
| FlatServers.FlatWalkKeyed | embedded_server.go:198-200 | a walk keeps the map keyed by each lesson's week and inside [1, maxWeek] |
| FlatServers.FlatWalkFails | embedded_server.go:183-186 | a walk fails iff it meets an entry it cannot visit |
| FlatServers.UntouchedWeek | embedded_server.go:198-200 | a week that no entry yields keeps what the map held |
| FlatServers.WalkOverwrites | embedded_server.go:183-204 | a walk that does not fail puts the kept lessons into the map in walk order |
| FlatServers.OverwriteMisses | embedded_server.go:199 | putting lessons of other weeks leaves a week as it was |
| FlatServers.OverwriteLast | embedded_server.go:199 | the last lesson put at a week is the one the map keeps |
| FlatServers.LastWriteWins | embedded_server.go:183-204 | after a walk, a week maps to the lesson of the last entry that yields that week |
| FlatServers.WeeksOfWalk | embedded_server.go:183-204 | a week is in the map after a walk iff it was there before or some entry yields it |
| FlatServers.PartialOnError | from_claude/course_backend.go:84-106 | an error at entry k ends the walk with the map the first k entries left |
| FlatServers.EmbeddedScanKeyed | embedded_server.go:169-213 | the flat scan keeps the map keyed within [1, 100]; it fails iff the directory exists and the walk fails, and then the old map stays |
| FlatServers.EmbeddedScan | embedded_server.go:169-213 | definition: a missing directory gives an empty map, a failed walk keeps the old map and returns the error, otherwise the walk's map; `FlatServers.EmbeddedScanKeyed` states its guarantees |
| FlatServers.FlatEntry | embedded_server.go:184-203 | one callback call updates the map as `FlatStep` does |
| FlatServers.WalkInto | embedded_server.go:183-204 | the callback loop computes `FlatWalk` from an empty map |
| FlatServers.EmbeddedServer.constructor | embedded_server.go:65-69 | a new server has an empty map and no course |
| FlatServers.EmbeddedServer.LoadCourseInfo | embedded_server.go:129-167 | as the sectioned loader, with the flat server's default course |
| FlatServers.EmbeddedServer.ScanLessons | embedded_server.go:169-213 | the map and the error are those of `EmbeddedScan` over the old map; the course does not change |
| FlatServers.EmbeddedServer.HandleEvent | embedded_server.go:95-116 | an event reloads and rescans exactly as `React` says |
| FlatServers.MinimalScanKeyed | from_claude/course_backend.go:81-107 | the minimal scan keeps the map keyed within [1, 10]; it fails iff the directory is missing or the walk fails |
| FlatServers.MinimalScan | from_claude/course_backend.go:81-107 | definition: the map is cleared, filled by the walk, and left partial on an error; a missing directory is an error; `FlatServers.MinimalScanKeyed` and `FlatServers.PartialOnError` state its guarantees |
| FlatServers.MinimalServer.constructor | from_claude/course_backend.go:49-54 | a new server has an empty map and no course |
| FlatServers.MinimalServer.LoadCourseInfo | from_claude/course_backend.go:56-79 | loads `course.yaml` only, with the 10-week default; a failure keeps the course |
| FlatServers.MinimalServer.ScanLessons | from_claude/course_backend.go:81-107 | the map is cleared and the walk's map, partial on error, is left in place |
| FlatServers.MinimalServer.HandleLessons | from_claude/course_backend.go:196-213 | rescans first; a scan error answers 500; otherwise the lessons of weeks 1 to 10 in week order |
| FlatServers.MinimalServer.HandleLesson | from_claude/course_backend.go:215-239 | a bad week answers 400 before any scan; otherwise it rescans, answers 500 on a scan error, and then looks the week up |
| FlatServers.MinimalServer.HandleSyllabus | from_claude/course_backend.go:241-267 | rescans first; a scan error answers 500; otherwise the weeks of the map, strictly ascending, each once |
| Queries.GlobalWeekInRow | main.go:518-519 | a section week in [1, 12] maps to a global week inside that section's range |
| Queries.GlobalWeek | main.go:518-519 | definition: `WeekStart + week - 1`; `Queries.GlobalWeekInRow` states where it lands |
| Queries.LessonByWeek | main.go:440-461 | a week string that does not parse or is out of range answers 400; a found lesson is the map's entry at that week; 404 only when the week is absent |
| Queries.LessonByWeekFinds | main.go:440-461 | every stored week in range is found by its decimal rendering, and the lesson has that week |
| Queries.AtoiOfNatToString | main.go:444 | `Atoi` reads back the decimal rendering of a number in the int64 range |
| Queries.SectionLesson | main.go:498-532 | a section week outside [1, 12] answers 400; 404 when the section or the global week is absent; a found lesson is at `WeekStart + week - 1` |
| Queries.SectionLessonInSection | main.go:498-532 | in a valid catalog, a lesson found by section and week is in that section's list and range |
| Queries.SectionLessonComplete | main.go:498-532 | every lesson listed in a section can be fetched by its section-local week |
| Queries.ListLessons | main.go:425-438 | the listing loop computes `InWeekOrder` |
| Queries.InWeekOrder | main.go:429-434 | definition: the lessons stored at weeks 1 to the bound in ascending order; `Queries.InWeekOrderMembers`, `Queries.InWeekOrderLength` and `Queries.InWeekOrderAscending` state its meaning |
| Queries.InWeekOrderMembers | main.go:429-434 | the listing holds exactly the stored lessons of weeks 1 to the bound |
| Queries.InWeekOrderLength | main.go:429-434 | the listing has one lesson per stored week in range |
| Queries.InWeekOrderBounded | main.go:429-434 | every listed lesson's week is within the bound |
| Queries.InWeekOrderAscending | main.go:429-434 | the listing is strictly ascending by week |
| Queries.InsertInt | main.go:768 | insertion keeps a list sorted and adds the one element |
| Queries.SortInts | main.go:768 | the sorted list is ascending and a permutation of the input |
| Queries.SortedWeeks | main.go:764-769 | the week list is strictly ascending and holds exactly the map's weeks, each once |
| Queries.SortedOnce | main.go:764-769 | sorting a list that holds each key of the map once gives a strictly ascending list of exactly those keys |
| Markdown.MatchAt | main.go:1138-1145 | a match starts at the pattern's opening character and ends after it |
| Markdown.ReplaceFrom | main.go:1138-1145 | removing the markup never lengthens the text |
| Markdown.PassWithoutOpener | main.go:1138-1145 | a text without the opening character passes unchanged |
| Markdown.PlainTextUnchanged | main.go:1160-1172 | a title without markup characters is not changed by the four replacements |
| Markdown.StripMarkdown | main.go:1138-1145 | definition: the bold, italic, code and link replacements in that order; `Markdown.BoldUnwrapped`, `Markdown.LinkUnwrapped` and `Markdown.PlainTextUnchanged` state examples and a fixed point |
| Markdown.BoldUnwrapped | main.go:1162-1163 | `**w**` becomes `w` |
| Markdown.LinkUnwrapped | main.go:1168-1169 | `[t](u)` becomes `t` |
| Markdown.CleanTitle | main.go:1160-1172 | the cleaned title neither starts nor ends with white space |
| Markdown.RemoveSpecial | main.go:1149-1150 | only word characters, `\s` and `-` remain, all taken from the input |
| Markdown.DropRun | main.go:1155 | drops the leading run of characters that satisfy the test, and only that run |
| Markdown.DropRunBack | main.go:1155 | drops the trailing run of characters that satisfy the test, and only that run |
| Markdown.SquashRuns | main.go:1151-1154 | a non-empty text squashes to a non-empty text whose first character is the replacement exactly when the text starts with a class character |
| Markdown.SquashRunsShape | main.go:1151-1154 | after squashing, every character is the replacement or an input character outside the class, and no class character follows a replacement |
| Markdown.InSuffix | main.go:1151-1155 | a character of a suffix occurs in the whole text, so trimming and squashing only keep input characters |
| Markdown.KeptChars | main.go:1149-1150 | on lower-case text, deleting the special characters leaves only slug characters and white space |
| Markdown.DashedChars | main.go:1151-1152 | turning white-space runs into `-` leaves only slug characters |
| Markdown.SingleChars | main.go:1153-1154 | collapsing runs of `-` keeps slug characters and leaves no `--` |
| Markdown.TrimShaped | main.go:1155 | trimming `-` from both ends of such text gives a slug |
| Markdown.NormalizeShaped | main.go:1148-1155 | the slug steps turn any lower-case text into a slug: slug characters only, no `--`, no leading or trailing `-` |
| Markdown.Normalize | main.go:1148-1155 | definition: the slug steps after lower-casing; `Markdown.NormalizeShaped` and `Markdown.NormalizeFixed` state its meaning |
| Markdown.Slug | main.go:1136-1158 | definition: `generateIDFromTitle`; `Markdown.SlugIsShaped` and `Markdown.SlugIdempotent` state its meaning |
| Markdown.SlugIsShaped | main.go:1136-1158 | every slug is shaped and holds no white space |
| Markdown.NormalizeFixed | main.go:1148-1155 | a shaped slug is left unchanged by the slug steps |
| Markdown.RemoveSpecialFixed | main.go:1149-1150 | text holding only kept characters loses nothing |
| Markdown.SquashFixed | main.go:1151-1154 | text whose class characters already stand alone as the replacement is unchanged |
| Markdown.SlugOfSlug | main.go:1136-1158 | slug generation leaves a shaped slug unchanged |
| Markdown.SlugIdempotent | main.go:1136-1158 | generating the slug twice equals generating it once |
| Toc.Lines | main.go:1051 | `strings.Split(s, "\n")` gives at least one piece, and no piece holds a line feed |
| Toc.JoinOfLines | main.go:1051 | joining the pieces with line feeds gives the text back |
| Toc.LinesOfJoin | main.go:1051 | splitting lines without line feeds, joined, gives them back |
| Toc.HeadingOf | main.go:1108-1114 | a heading has 1 to 6 leading `#`, followed by white space, so the `#` run is the whole leading run; its title is a non-empty end of the line without line feeds |
| Toc.HeadingOfParts | main.go:1108-1114 | `level` `#`s, a run of white space and a title not starting with white space and without line feeds give the heading of that level and exactly that title |
| Toc.HelloWorldHeading | main.go:1108-1114 | `## Hello World` is a level-two heading titled `Hello World` |
| Toc.HeadingItem | main.go:1108-1128 | a line gives an item iff it is a heading of level 2 or more with a non-blank title; the item's level is in [2, 6] and its id is a shaped slug |
| Toc.HeadingItems | main.go:1103-1134 | definition: the heading items in line order; `Toc.HeadingItemsShape` and `Toc.SampleHeadings` state its meaning |
| Toc.ExtractTocFromHeadings | main.go:1103-1134 | the loop over the lines gives `HeadingItems` of the lines |
| Toc.HeadingItemsShape | main.go:1103-1134 | every heading item has a level in [2, 6] and a shaped id |
| Toc.LinkLevel | main.go:1079-1083 | the level from the indentation is in [2, 6], and is `indent/2 + 2` below eight columns |
| Toc.LinkItem | main.go:1071-1090 | a link line gives an item with a non-empty title and id and a level in [2, 6] |
| Toc.LinkItemOfLine | main.go:1071-1090 | the line of `indent` spaces, `- [title](#id)` gives the item (id, title, level of the indent) whenever the title holds no `]`, the id no `)`, and both are non-empty |
| Toc.IntroLink | main.go:1071-1090 | `- [Intro](#intro)` gives the item (intro, Intro, 2) |
| Toc.IndentedSetupLink | main.go:1071-1090 | `  - [Setup](#setup)` gives the item (setup, Setup, 3) |
| Toc.TableOfContentsHeader | main.go:1057 | `## Table of Contents` is a table-of-contents header |
| Toc.LinksInTable | main.go:1063-1091 | inside the table, lines that do not start with `#` each contribute their link item, if they have one, in order |
| Toc.IntroBreak | main.go:1063-1067 | `## Intro` ends an open table |
| Toc.IntroSetupTable | main.go:1049-1101 | the content `## Table of Contents`, `- [Intro](#intro)`, `  - [Setup](#setup)`, `## Intro` yields (intro, Intro, 2) and (setup, Setup, 3) from the explicit table |
| Toc.ExplicitLevels | main.go:1049-1093 | every item of the explicit table has a level in [2, 6] |
| Toc.IsTocHeader | main.go:1057 | definition: one or two `#` and a table-of-contents phrase in any case with only white space around it; `Toc.TableOfContentsHeader` and `Toc.NotHeaderByInitial` state examples both ways |
| Toc.IsSectionBreak | main.go:1064 | definition: one or two `#`, white space, then text without `[`; `Toc.IntroBreak` states an example |
| Toc.ExplicitFrom | main.go:1051-1093 | definition: the explicit entries from a line on, given whether the table is open; `Toc.ExplicitStep`, `Toc.LinksInTable` and `Toc.NoHeaderNoEntries` state its meaning |
| Toc.NoHeaderNoEntries | main.go:1055-1060 | without a table-of-contents header, explicit mode yields nothing |
| Toc.ExplicitStep | main.go:1055-1093 | one line either opens the table, stops it at the next major heading, or contributes its link |
| Toc.ExplicitEntries | main.go:1051-1093 | the first pass, with its `inTOCSection` flag, computes `ExplicitFrom` of the lines |
| Toc.AdvanceOnHeader | main.go:1057-1060 | a table-of-contents header opens the table, whatever came before |
| Toc.AdvanceOnBreak | main.go:1063-1067 | inside the table, a major heading ends the scan with the entries found so far |
| Toc.AdvanceInToc | main.go:1069-1091 | inside the table, any other line appends its link entry, if it has one |
| Toc.AdvanceOutside | main.go:1055-1093 | outside the table, a line that is not a header adds nothing |
| Toc.HeadingItemsStep | main.go:1107-1131 | each further line adds its heading item, if any, at the end |
| Toc.ExtractTocFromContent | main.go:1049-1101 | the loop computes `TocFromContent`: the explicit items, or the heading scan when there are none |
| Toc.TocLevels | main.go:1049-1101 | every extracted item has a level in [2, 6] |
| Toc.TocFromContent | main.go:1049-1101 | definition: the explicit entries, or the heading items when there are none; `Toc.IntroSetupTable`, `Toc.SetupInstallRun` and `Toc.TocLevels` state its meaning |
| Toc.HeadingOfWord | main.go:1108-1114 | `#…# word` is a heading of that level and that title |
| Toc.SlugOfWord | main.go:1136-1172 | a plain word's slug is its lower case and its clean title is the word itself |
| Toc.WordHeadingItem | main.go:1108-1128 | a word heading of level 2 to 6 gives the item (lower-cased word, word, level) |
| Toc.NotHeaderByInitial | main.go:1057 | a heading whose text does not start with `t` or `c` is not a table-of-contents header |
| Toc.WordHeadingNotHeader | main.go:1057 | a heading of a word that does not start with `t` or `c` does not open an explicit table |
| Toc.SplitWordHeadings | main.go:1051 | three word headings joined with line feeds split into the three lines |
| Toc.WordHeadingsNoTable | main.go:1055-1093 | three such headings yield no explicit table |
| Toc.SampleHeadings | main.go:1103-1134 | the heading scan of `## Setup`, `### Install`, `## Run` gives (setup, 2), (install, 3), (run, 2) |
| Toc.SetupInstallRun | main.go:1049-1101 | the content `## Setup\n### Install\n## Run` yields (setup, 2), (install, 3), (run, 2) |
| TocRoute.DefaultOutline | main.go:1174-1185 | the default outline has eight items, all of level 2 |
| TocRoute.SectionWeek | main.go:962-983 | a week that does not parse or is below 1 answers 400, and an unknown section 404; otherwise the global week and the lesson stored there, if any |
| TocRoute.LessonToc | main.go:957-1008 | the TOC handler answers the errors of `SectionWeek`, and otherwise the response of `TocOf` |
| TocRoute.TocOf | main.go:985-1004 | definition: the default outline when the lesson is missing or yields no items, otherwise the extracted items; `TocRoute.TocSource` states its meaning |
| TocRoute.TocSource | main.go:985-1004 | the response's source is `markdown` or `default`, never `error`; `markdown` items are those extracted from the lesson's content; `default` items are the eight defaults; a missing lesson gives the defaults; the items are never empty and all have a level in [2, 6] |
| TocRoute.LessonContent | main.go:1010-1045 | the content route answers the stored lesson's content exactly when the section week resolves to a stored lesson |
| TocRoute.PastSectionEnd | main.go:962-982 | a section week above 12 that finds a lesson finds one beyond the section's range and not in its list |
| Watcher.React | main.go:144-164 | the course reloads iff the event writes or creates a watched file whose raw name contains `course.yaml` or `course.yml`; the lessons rescan iff it writes or creates a file whose lower-cased name ends in `.md` |
| Watcher.Acts | main.go:144-147 | definition: a write or a creation of a file whose lower-cased name ends in `.md`, `.yaml` or `.yml`; `Watcher.OnlyWritesReact` states what does not act |
| Watcher.NamesCourseFile | main.go:152 | definition: the raw name contains `course.yaml` or `course.yml`, case-sensitively; `Watcher.CapitalizedCourseFile` states an example |
| Watcher.OnlyWritesReact | main.go:144 | removals, renames and mode changes alone do nothing |
| Watcher.BothFire | main.go:152-158 | writing `course.yaml.md` both reloads the course and rescans the lessons |
| Watcher.CourseFileOnly | main.go:152-158 | writing `course.yaml` reloads the course without a rescan |
| Watcher.CapitalizedCourseFile | main.go:145-152 | `Course.yaml` is watched but reloads nothing: the name test is case-sensitive |

## Left out

- HTTP routing, CORS, JSON encoding and static file serving are not modelled. Handlers are functions from their inputs to a result or an HTTP status (400, 404, 500).
- The mutex, the watcher goroutine, its select loop, the 100 ms sleep and the watcher's error channel are left out. A watcher event is one call of `HandleEvent`.
- The file system is a value: the entries in walk order and whether the root exists. `os.Stat` errors other than "does not exist" are not distinguished.
- `filepath.Glob(".../week*.md")` is modelled as a filter on the top-level entries by name.
- YAML decoding is a function passed in, for both the lesson metadata and the course file. When decoding the course fails, the course is kept. How `yaml.Unmarshal` merges fields into the existing course is part of that function.
- Time is an uninterpreted value. Each scan takes one `now` value, which the minimal variant uses when `Stat` fails.
- `sort.Slice` is not stable. The model sorts stably, and only sortedness and permutation are claimed.
- Go map iteration order is replaced by table order for the sections. The week ranges are disjoint, so the order does not change which section a lesson joins.
- `handleSections`, `handleSection`, `handleCourse`, the static syllabus and instructor data, and `main` are not modelled.
- Lower-casing is exact for every character whose lower case is ASCII. Other characters are kept as they are, and only ASCII matters wherever a lowered string is examined.
- The minimal server has no file watcher in the source, so none is modelled.
- Queries.LessonByWeekFinds: stated only for weeks within the int64 range, because `strconv.Atoi` rejects larger numbers.
- TocRoute.SectionWeek: the TOC and content routes accept any section week of at least 1, with no upper bound of 12. The model keeps that behaviour, and TocRoute.PastSectionEnd states what it leads to.
- The syllabus responses of the sectioned and flat servers are modelled only through Queries.SortedWeeks, their computed part.
- `Lesson.filePath` holds the path relative to the lessons directory. In the source the walk gives the path with the lessons directory in front (main.go:260,267; embedded_server.go:183; from_claude/course_backend.go:84). The model leaves the prefix out because it does not change any week, section or lookup.

## Findings

| source | as written | input that shows it | evidently intended | confidence | as-written member | corrected member |
|---|---|---|---|---|---|---|
| main.go:296-318 | each section's list is sorted right after its directory walk (296-298); legacy top-level lessons are appended afterwards (313-318) and never sorted | `section1-html-css/week5.md` and a top-level `week3.md` leave the first section's list as weeks 5, 3 | every section list sorted by week after a scan | not executed | ScanOrder.SortBeforeLegacy | CatalogProperties.ScanValid |
