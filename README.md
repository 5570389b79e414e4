# Teaching-load document parser (eduvision backend)

This project models the core of the `/uploadScheduleDocument` handler of the
eduvision backend. The handler reads the plain text of an instructor's
teaching-load document and turns it into a preview of draft class schedules.
It works in these steps:

- **Semester window.** It finds the leftmost `<digit><ST|ND|RD|TH> Semester, AY yyyy-yyyy`
  marker (case-insensitive) and maps `1ST` to August 1 to December 15 of the
  first year and `2ND` to January 10 to May 30 of the second year. Any other
  ordinal, or no marker at all, gives the `"TBD"` dates.
- **Instructor resolution.** It reads the declared instructor name after
  `Name of Instructor:`, trims and upper-cases it, and turns every whitespace
  run into `.*`. It then asks the user directory for a match. When the
  directory finds nobody the request ends with 404 and no draft.
- **Line normalisation.** It splits the text on `\n`, trims every line and
  drops the empty ones.
- **Scan.** One pass over the lines, with one line of lookahead:
  - A header line `IS`/`IT` + 3 digits sets the course code. The next line
    gives the title (the text before its first `(`) and the section label
    (the first `(...)` group, or `"Unknown"`).
  - A time line `HH:MM – HH:MM (lec|lab)` takes its day letters from the next
    line (`getDaysObj`). It splits the section label into prefix, level and
    block and looks the section up.
  - A time line whose section is found yields one draft. One whose section
    is not found is skipped.
- **Request checks** of `POST /faculty` (required fields, role whitelist) and
  `POST /schedules` (required fields, six-boolean `days` object).

Modules, one per component:

- `Strings`: JavaScript's `trim`, `split`, `\s`, ASCII case folding, `parseInt`
  and number printing, and the leftmost-match search used for every regex.
- `Semester`, `Instructor`, `Lines`, `Days`, `Sections`: the steps above.
- `Scanner`: the scan loop. `ScanLines` is the handler's imperative loop over
  three context variables and a `schedules` array. It is proved equal to the
  line-by-line specification `Drafts`, and the properties of the scan are
  lemmas about `Drafts`.
- `Upload`: the whole handler. `ParseDocument` is proved equal to
  `ParseSpec`.
- `Validation`: the request checks.

The user directory (`UserModel.findOne`) and the section directory
(`Section.findOne`) are function parameters (`InstructorDirectory`,
`SectionDirectory`). `Sections.FindSection` is one concrete section directory
over a list of records, used in the worked example.

## Model

| member | source | states |
|---|---|---|
| `Semester.SemesterAt` | backend/src/routes/authRoutes.ts:317 | a match of the semester pattern at a position has a digit-plus-suffix ordinal (any case) and two four-digit years, and the ordinal is the text at that position |
| `Semester.FindSemesterLeftmost` | backend/src/routes/authRoutes.ts:317 | `FindSemester` (`text.match`) finds the leftmost occurrence of the marker, and finds none exactly when the pattern matches at no position |
| `Semester.MarkerAt` | backend/src/routes/authRoutes.ts:317 | a marker written after any text, with a non-empty whitespace run after the ordinal, any whitespace (none, several, tabs, line breaks) before `AY` and before the years, and `Semester` and `AY` in any letter case, matches where it starts, capturing its ordinal and both years as written |
| `Semester.MarkerRead` | backend/src/routes/authRoutes.ts:317 | conversely, every match is such a written marker: its captures are the ordinal and years of the text at that position, and the gaps between them are whitespace runs the pattern allows |
| `Semester.MarkerFound` | backend/src/routes/authRoutes.ts:317 | when no match starts earlier, `FindSemester` returns that marker's ordinal and years |
| `Semester.ExtractSemester` | backend/src/routes/authRoutes.ts:318-339 | the step-by-step assignments of `semester`, `semesterStartDate` and `semesterEndDate` compute `WindowOf` the match, the window of the table |
| `Semester.WindowTable` | backend/src/routes/authRoutes.ts:322-333 | `WindowOf`: the label is the upper-cased ordinal; `1ST` gives `y1-08-01`..`y1-12-15`, `2ND` gives `y2-01-10`..`y2-05-30`, any other ordinal keeps both dates `"TBD"` |
| `Semester.SemesterUpperCase` | backend/src/routes/authRoutes.ts:323 | the semester label never holds a lower-case ASCII letter |
| `Semester.NoMarkerNoDates` | backend/src/routes/authRoutes.ts:318-339 | a text without the marker gets `"TBD"` for label and both dates, and `AcademicYear` prints `undefined-undefined` |
| `Semester.FirstSemesterExample` | backend/src/routes/authRoutes.ts:317-329 | `1ST Semester, AY 2024-2025` gives the window `2024-08-01`..`2024-12-15` |
| `Semester.SecondSemesterExample` | backend/src/routes/authRoutes.ts:317-332 | `2nd semester, ay 2024-2025` gives `2ND` and `2025-01-10`..`2025-05-30`, with academic year `2024-2025` |
| `Instructor.CaptureAfter` | backend/src/routes/authRoutes.ts:341 | the capture is the slice of the text that starts at the first non-space after the label (line breaks skipped, as `\s*` does) and runs to the next line terminator or the end (as `.*` does); it starts with a non-space and holds no line terminator |
| `Instructor.CapturedFromUnique` | backend/src/routes/authRoutes.ts:341 | that description of the capture determines it: one start position and one value |
| `Instructor.LabelFirst` | backend/src/routes/authRoutes.ts:341 | `LabelAt`: a label in any letter case with no label before it is the leftmost match, and the capture starts right after it |
| `Instructor.ValueCaptured` | backend/src/routes/authRoutes.ts:341 | whitespace of any kind (line breaks included) followed by a value on one line is captured as exactly that value |
| `Instructor.InstructorName` | backend/src/routes/authRoutes.ts:341-342 | the declared name is trimmed, has no lower-case ASCII letter and lies on one line |
| `Instructor.NameAfterLabel` | backend/src/routes/authRoutes.ts:341-342 | the leftmost label anywhere in the text, in any case, followed by any whitespace (line breaks included) and a value on one line, declares that value trimmed and upper-cased |
| `Instructor.NameAtStartTrimmed` | backend/src/routes/authRoutes.ts:341-342 | a value without surrounding whitespace is declared exactly as written, upper-cased |
| `Instructor.NameExample` | backend/src/routes/authRoutes.ts:341-342 | `Name of Instructor: Juan Dela Cruz` declares `JUAN DELA CRUZ` |
| `Instructor.FuzzyPattern` | backend/src/routes/authRoutes.ts:349 | the pattern holds no whitespace |
| `Instructor.FuzzyPatternKeepsWord` | backend/src/routes/authRoutes.ts:349 | a run of non-space characters is copied into the pattern unchanged |
| `Instructor.FuzzyPatternGap` | backend/src/routes/authRoutes.ts:349 | a whitespace run of any length and any whitespace characters, before a non-space or the end, becomes one `.*` |
| `Instructor.FuzzyPatternOfWords` | backend/src/routes/authRoutes.ts:349 | words separated by non-empty whitespace runs (one run per gap, each of any length and kind) become the same words joined by `.*` |
| `Instructor.FuzzyPatternSpaceFree` | backend/src/routes/authRoutes.ts:349 | a name without whitespace is its own pattern |
| `Instructor.PatternExample` | backend/src/routes/authRoutes.ts:349 | `JUAN DELA CRUZ` is looked up as `JUAN.*DELA.*CRUZ` |
| `Lines.KeepLine` | backend/src/routes/authRoutes.ts:363 | a kept piece is non-empty, has no surrounding whitespace and holds only characters of the piece |
| `Lines.NormalizeLines` | backend/src/routes/authRoutes.ts:363 | no normalised line is empty, has surrounding whitespace or holds a newline |
| `Lines.NormalizeLinesExact` | backend/src/routes/authRoutes.ts:363 | the lines are exactly the trimmed non-blank pieces of the `\n` split, in their original order, each once |
| `Lines.NormalizeLinesCount` | backend/src/routes/authRoutes.ts:363 | the normalised lines plus the blank pieces number exactly the newline-separated pieces |
| `Lines.NormalizeJoined` | backend/src/routes/authRoutes.ts:363 | normalising already-clean lines joined by newlines gives them back |
| `Strings.Trim` | backend/src/routes/authRoutes.ts:363 | `trim`: the result has no surrounding whitespace, is empty exactly when the string is all whitespace, and holds only characters of the string |
| `Strings.TrimIsCore` | backend/src/routes/authRoutes.ts:363 | the trimmed string is the slice starting at the first non-space with only whitespace before and after it |
| `Strings.TrimPadded` | backend/src/routes/authRoutes.ts:342 | trimming removes exactly the whitespace padding around a trimmed core |
| `Strings.Split` | backend/src/routes/authRoutes.ts:363 | `split` with a one-character separator gives at least one piece, and no piece holds the separator |
| `Strings.JoinSplit` | backend/src/routes/authRoutes.ts:363 | joining the pieces with the separator gives the string back |
| `Strings.SplitJoin` | backend/src/routes/authRoutes.ts:363 | splitting a join of separator-free pieces gives the pieces back |
| `Strings.ToUpperFacts` | backend/src/routes/authRoutes.ts:342 | `toUpperCase` keeps the length, leaves no lower-case ASCII letter, keeps whitespace where it was, and is idempotent |
| `Strings.NatToString` | backend/src/routes/authRoutes.ts:328 | a number printed by a template literal is a non-empty digit string without a leading zero |
| `Strings.ParsePrinted` | backend/src/routes/authRoutes.ts:324-328 | `parseInt` of a printed number gives the number back |
| `Strings.PrintParsed` | backend/src/routes/authRoutes.ts:324-328 | printing `parseInt` of a digit string without a leading zero gives the string back |
| `Days.DecodeDaysFlags` | backend/src/routes/authRoutes.ts:371-378 | `DecodeDays` (`getDaysObj`): each flag is its regex test on the token's letters: `M`, `W`, `F`, `S` anywhere; Tuesday a `T` not followed by `h`; Thursday a `Th` or any `H` |
| `Days.HasTue` | backend/src/routes/authRoutes.ts:373 | Tuesday is set exactly when some `T` is not immediately followed by `h` |
| `Days.HasTh` | backend/src/routes/authRoutes.ts:375 | the `Th` alternative of the Thursday test (the other alternative is any `H`) holds exactly when some `T` is immediately followed by `h` |
| `Days.ThIsNotTuesday` | backend/src/routes/authRoutes.ts:373-375 | a token whose every `T` starts a `Th` decodes without Tuesday |
| `Days.DecodeExamples` | backend/src/routes/authRoutes.ts:371-378 | `MWF` gives exactly mon/wed/fri, `TTh` exactly tue/thu, `Th` thu alone, `S` sat alone, `""` nothing |
| `Days.TestsOfConcat` | backend/src/routes/authRoutes.ts:373-375 | joining two tokens that are not glued across a `T`/`h` boundary keeps the Tuesday and `Th` tests independent |
| `Days.AppendCode` | backend/src/routes/authRoutes.ts:371-378 | appending one day's code to a token sets exactly that day's flag and leaves the other five unchanged |
| `Days.DecodeEncode` | backend/src/routes/authRoutes.ts:371-378 | every mask is decoded back from its canonical token: the six tests are independent |
| `Sections.QueryOfTwoTokens` | backend/src/routes/authRoutes.ts:403-411 | `SectionQueryOf`: a label `prefix token...` queries the prefix as course pattern and the first two characters of the second token as level and block |
| `Sections.QueryOfOneToken` | backend/src/routes/authRoutes.ts:403-405 | a label without a space is all pattern, with level and block undefined |
| `Sections.QueryExample` | backend/src/routes/authRoutes.ts:403-411 | `IT 2A` queries course `IT`, level `2`, block `A`; `Unknown` queries neither level nor block |
| `Sections.FindSection` | backend/src/routes/authRoutes.ts:407-411 | a list-backed directory answers with the first record whose course contains the pattern ignoring case and whose section and block are the query's characters, and with nothing exactly when no record matches |
| `Scanner.MatchHeader` | backend/src/routes/authRoutes.ts:383 | a header match is `IS`/`IT`, optional whitespace and three digits at the head of the line, and there is none exactly when no prefix of the line has that shape |
| `Scanner.ParenAt` | backend/src/routes/authRoutes.ts:390 | a group match is a `(`, a non-empty run without `)`, then `)` |
| `Scanner.CourseTitleBeforeParen` | backend/src/routes/authRoutes.ts:387 | `CourseTitle`: the title is the trimmed text before the first `(` |
| `Scanner.CourseTitleNoParen` | backend/src/routes/authRoutes.ts:387 | a course line without `(` is all title, trimmed |
| `Scanner.SectionLabelFirstGroup` | backend/src/routes/authRoutes.ts:390-391 | `SectionLabel`: the section label is the trimmed contents of the first `(...)` group |
| `Scanner.SectionLabelNoGroup` | backend/src/routes/authRoutes.ts:390-391 | a course line without `(` gives the label `Unknown` |
| `Scanner.TimeAt` | backend/src/routes/authRoutes.ts:397 | a time match has two `dd:dd` clocks and a `lec`/`lab` kind in any case, the start clock being the text at that position |
| `Scanner.SlotAt` | backend/src/routes/authRoutes.ts:397 | a time slot written after any text, with any whitespace (including none) around the en dash and before `(`, and the kind in any case, matches where it starts, capturing its start, end and kind as written |
| `Scanner.SlotRead` | backend/src/routes/authRoutes.ts:397 | conversely, every match is such a written slot: its captures are the clocks and kind of the text at that position, and the gaps are whitespace runs |
| `Scanner.SlotFound` | backend/src/routes/authRoutes.ts:397-399 | when no match starts earlier, `MatchTime` (`line.match`) returns that slot's start, end and kind |
| `Scanner.NoColonNoTime` | backend/src/routes/authRoutes.ts:397 | a line without `:` is never a time line |
| `Scanner.ScanLines` | backend/src/routes/authRoutes.ts:380-434 | the loop over three context variables and the `schedules` array yields exactly `Drafts(lines, env)`, the drafts of every line in line order |
| `Scanner.ContextFromLastHeader` | backend/src/routes/authRoutes.ts:383-394 | `ContextAt`: the context in force is the one set by the last header above, until the next header |
| `Scanner.ContextBeforeHeaders` | backend/src/routes/authRoutes.ts:366-368 | before the first header the code, title and label are all `""` |
| `Scanner.ContextCodeShape` | backend/src/routes/authRoutes.ts:366-385 | the course code in force is `""` or a header code |
| `Scanner.OneCourse` | backend/src/routes/authRoutes.ts:383-394 | below a first-line header with no other header, every line is scanned under that header's context |
| `Scanner.HeaderOnLastLine` | backend/src/routes/authRoutes.ts:386-391 | a header on the last line sets title `""` and label `Unknown` |
| `Scanner.SlotLineYields` | backend/src/routes/authRoutes.ts:397-430 | `LineDraft`: a time line whose section is found yields the draft built from the context, the slot, the next line's days and the record |
| `Scanner.LineDraftShape` | backend/src/routes/authRoutes.ts:383-430 | a line contributes a draft exactly when it is a non-header time line whose section is found, and the draft is built from them |
| `Scanner.DraftsFromSlotLines` | backend/src/routes/authRoutes.ts:380-433 | `Drafts`: every draft comes from one such line, in line order, and every such line yields exactly one draft; header lines never yield one |
| `Scanner.DraftAt` | backend/src/routes/authRoutes.ts:418-430 | draft `k` is `MakeDraft` of its origin line: context code and title, times, decoded next line, found record |
| `Scanner.DraftCount` | backend/src/routes/authRoutes.ts:397-433 | drafts plus time lines skipped for their section equal the time lines: at most one draft per time line |
| `Scanner.DraftFields` | backend/src/routes/authRoutes.ts:418-430 | every draft has the scan's instructor and semester dates, room `TBD`, clock-shaped times and a `""` or header course code |
| `Scanner.DraftUnderHeader` | backend/src/routes/authRoutes.ts:383-420 | a draft carries the code and title of the last header above its time line |
| `Scanner.DraftBeforeHeaders` | backend/src/routes/authRoutes.ts:366-420 | a draft whose time line precedes every header has code and title `""` |
| `Scanner.LastLineSlotHasNoDays` | backend/src/routes/authRoutes.ts:400-401 | a time line that is the last line is still scanned: when its section is found it yields the last draft, with no day set |
| `Scanner.DraftDisplaySection` | backend/src/routes/authRoutes.ts:407-429 | a draft references the found section's id and displays `course + " " + section + block` of that record |
| `Scanner.ExampleContext` | backend/src/routes/authRoutes.ts:383-394 | `IS101` over `Data Structures (IT 2A)` sets code `IS101`, title `Data Structures`, label `IT 2A` for the lines below |
| `Scanner.ExampleDrafts` | backend/src/routes/authRoutes.ts:380-434 | that header, `08:00 – 09:30 (lec)` and `MWF`, with section `IT 2A` on file, yield exactly one draft: 08:00-09:30, mon/wed/fri, room `TBD` |
| `Upload.ParseDocument` | backend/src/routes/authRoutes.ts:317-444 | the handler's steps compute `ParseSpec`: 404 when the directory finds no instructor, else the preview of the scan |
| `Upload.NotFoundIffNoInstructor` | backend/src/routes/authRoutes.ts:345-359 | the request fails, with `InstructorNotFound` and no draft, exactly when the instructor lookup finds nobody |
| `Upload.PreviewDrafts` | backend/src/routes/authRoutes.ts:363-433 | every draft names the found instructor, the document's semester dates and room `TBD`; drafts plus skipped slots equal the time lines |
| `Upload.NoLabelEmptyPattern` | backend/src/routes/authRoutes.ts:341-349 | a text without the label declares `""` and is looked up with the empty pattern |
| `Upload.PreviewHeader` | backend/src/routes/authRoutes.ts:438-444 | the preview shows `DisplayName` of the instructor, `last, first middle `, the captured academic year (or `undefined-undefined`) and an upper-case semester label |
| `Validation.FalsyValues` | backend/src/routes/authRoutes.ts:99 | `Truthy`: exactly `undefined`, `null`, `false`, `0` and `""` fail a `!field` test |
| `Validation.CheckFaculty` | backend/src/routes/authRoutes.ts:99-108 | missing fields exactly when a required member is falsy; invalid role exactly when all are present and the role is not one of the four; accepted otherwise |
| `Validation.RoleWhitelist` | backend/src/routes/authRoutes.ts:104-105 | `RoleAccepted` (`validRoles.includes`): a role string is accepted exactly when it is `superadmin`, `instructor`, `programchairperson` or `dean` |
| `Validation.FacultyOfStrings` | backend/src/routes/authRoutes.ts:99-108 | a body of non-empty strings is accepted exactly when its role is one of the four |
| `Validation.NoRoleIsMissing` | backend/src/routes/authRoutes.ts:99-102 | a body without `role` is refused for a missing field |
| `Validation.Reply` | backend/src/routes/authRoutes.ts:100-211 | every refusal is answered with status 400 |
| `Validation.ReplyMessages` | backend/src/routes/authRoutes.ts:100-211 | the four refusals carry the handlers' messages: missing fields and invalid role for `POST /faculty`, missing fields and invalid days for `POST /schedules` |
| `Validation.CheckSchedule` | backend/src/routes/authRoutes.ts:191-213 | missing fields exactly when one of the ten members is falsy; invalid days exactly when all are present and `days` fails; accepted otherwise |
| `Validation.DaysValidExactly` | backend/src/routes/authRoutes.ts:207-208 | `DaysValid`: an object is accepted exactly when each of `mon`..`sat` holds a boolean, whatever else it holds |
| `Validation.DaysMustBeObject` | backend/src/routes/authRoutes.ts:207-208 | a string, number, boolean, null or array is never a valid `days` |
| `Validation.DaysJsonAccepted` | backend/src/routes/authRoutes.ts:207-208 | the JSON object of every decoded mask passes the `days` check and reads back as the same mask |
| `Validation.AcceptedDaysAreAMask` | backend/src/routes/authRoutes.ts:207-208 | an accepted `days` object agrees with the JSON of its mask on the six keys |

## Left out

- Express routing, the multer upload, `mammoth.extractRawText` and the
  temporary-file cleanup (authRoutes.ts:298-315): the extracted text is the
  input of `Upload.ParseDocument`.
- The MongoDB queries. `UserModel.findOne` with `$regexMatch` (345-353) and
  `Section.findOne` (407-411) are the function parameters `users` and
  `sections`. How the store evaluates the fuzzy pattern is not modelled; only
  the pattern string is.
- `Sections.FindSection`: treats the course prefix as a literal substring. It
  assumes an undefined level or block matches no record. The real store
  evaluates `new RegExp(prefix, "i")`. A label whose prefix is not a valid
  regular expression (for example one holding `(`) makes the handler throw
  and answer 500; this is not modelled.
- `/confirmSchedules` (453-462): a single `Schedule.insertMany`, which is
  persistence only.
- The rest of `POST /faculty` and `POST /schedules` after the checks:
  duplicate lookups, bcrypt hashing and saving (110-151, 215-237).
- Login, the list routes and the other CRUD routes (23-91, 154-173, 243-273).
- Logging, the `try`/`catch` answers with status 500, and the JSON envelope of
  the responses.
- frontend/src/pages/user/FacultyDashboard.tsx is not part of this model.
- Strings are sequences of Unicode code points. JavaScript strings are UTF-16
  code units, so indexing differs for characters outside the Basic
  Multilingual Plane.
- Instructor.InstructorName: upper-cases ASCII letters only. JavaScript's
  `toUpperCase` also maps other letters (`é` to `É`, `ß` to `SS`). The regex
  `i` flag without `u` folds only ASCII for these patterns, so the matchers
  are exact.
- Semester.WindowTable: states the dates with the document's own year
  digits only for years without a leading zero. For other years `WindowOf`
  still models `parseInt` followed by printing, which drops the zeros.
- Validation: JSON numbers are exact reals, not doubles. A body that is not
  a JSON object is not modelled.
- Re-running the parse on the same text and directories gives the same
  preview. This holds by construction, since every member is a function of
  its inputs.
