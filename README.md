# Pinnwand: a verified model of the listing form and the listing view

Pinnwand is a small browser UI where students post and browse course
study-group listings (course name, semester, nickname, contact). Under its
rendering and HTTP calls sit three pieces of sequential logic, modelled here:

- **Field validation and item helpers** (`utils.dfy`, module `Utils`): the four
  field patterns (user name, course name, contact, semester) as predicates on
  strings, the whole-item check `valid`, the in-place `clear`, the display label
  `formatCourse`, and the validity gate in front of the POST in `submit`.
  Listings are objects (`class Item`), because `clear` and the form change their
  fields in place and the list view tells listings apart by identity.
- **The submit form** (`submit.dfy`, module `SubmitComponent`, `class Submit`):
  the set `checklist` of fields marked invalid, the draft `data`, per-field input
  handling, the two-level submit guard (`isValid()`, then `valid(data)`), Reset,
  the help toggle, and the semester options computed from the month and year.
  Its invariant `Consistent()` says that every field not marked invalid holds a
  value matching its pattern; input handling keeps it, Reset can break it, and
  the second guard is what still keeps an emptied draft from being posted.
- **The list view** (`course_list.dfy`, module `CourseListComponent`,
  `class CourseList`): `page`, `limit`, `count` with clamping Prev/Next, the
  page-size and view selectors, the reveal set `toggleSet`, and the reload and
  count handlers. Answers of the server are inputs (`Response<T>`: a parsed body
  or a failure); each handler returns the `load(page, limit)` request it made.
- `numbers.dfy` (module `JsNumbers`) holds the JavaScript conversions these rely
  on: `toString()` of an integer, `Number(s)` of a decimal string, and `%`.

Where the repository's own design description promises more than the code
does, the model follows the code: the page number is not kept at 1 or above by
`nextPage` (with `count = 0` it sets page 0, reachable only while Next is
disabled), the standalone form navigates to `/` after a successful POST rather
than clearing its draft, a blocked or refused submit still stamps `createdAt`
on the draft (it is set before either guard), and `getAll` does not check the
HTTP status.

## Model

| member | source | states |
|---|---|---|
| `JsNumbers.NatToDecimal` | src/Components/submit.ts:40-47 | `toString()` of a natural number is a non-empty digit string, one digit long exactly below 10, with no leading zero |
| `JsNumbers.IntToString` | src/Components/submit.ts:40-47 | `toString()` of an integer reads back, through `Number()`, as the integer for non-negatives, and as `-` followed by the magnitude's digits for negatives |
| `JsNumbers.DecimalValue` | src/Components/courseList.ts:146 | `Number(s)` of a decimal string is 0 exactly when every digit is `0` |
| `JsNumbers.JsRemainder` | src/Components/submit.ts:37 | JavaScript `%` keeps the dividend's sign: Euclidean for non-negative years, the negated remainder of the magnitude otherwise |
| `JsNumbers.DecimalRoundTrip` | src/Components/courseList.ts:146 | `Number(n.toString()) == n` for every natural `n` |
| `JsNumbers.TwoDigitDecimal` | src/Components/submit.ts:37-47 | a year number from 10 to 99 prints as exactly its two digits |
| `Utils.IsUserName` | src/Scripts/utils.ts:17 | a user name is 4 to 12 characters from letters, digits, `.` and `_`; so it holds no space and no `@` |
| `Utils.IsCourseName` | src/Scripts/utils.ts:18 | a course name is 2 to 30 characters from letters, digits, space, `.` and `_`; so it holds no `@` and no `]` |
| `Utils.IsContact` | src/Scripts/utils.ts:19 | a contact is a non-empty run of `[A-Za-z0-9._-]`, one `@`, a non-empty run |
| `Utils.IsSemester` | src/Scripts/utils.ts:20 | a semester is two ASCII digits, `W` or `S`, then `S`; it has length 4, holds no `]`, and the placeholder `"0"` fails |
| `Utils.ContactShape` | src/Scripts/utils.ts:19 | a contact matches exactly when it has one `@`, not first and not last, and all other characters are in `[A-Za-z0-9._-]` |
| `Utils.ContactHasOneAt` | src/Scripts/utils.ts:19 | a valid contact contains exactly one `@` |
| `Utils.NoPatternMatchesEmpty` | src/Scripts/utils.ts:17-20 | none of the four patterns accepts the empty string |
| `Utils.AllMatchIff` | src/Scripts/utils.ts:32-37 | every field matching its own pattern, in any order, is the conjunction of the four tests |
| `Utils.EmptyFieldFails` | src/Scripts/utils.ts:32-37 | a record with any empty field fails the check |
| `Utils.Valid` | src/Scripts/utils.ts:32-37 | the early-return chain of `valid` is true iff every field matches its pattern |
| `Utils.Clear` | src/Scripts/utils.ts:22-27 | the four fields become `""`, `createdAt` is kept, and the item is invalid afterwards |
| `Utils.FormatCourse` | src/Scripts/utils.ts:28-30 | the label has length `|semester| + |courseName| + 2`, with `[` first and `]` right after the semester |
| `Utils.FormatCourseSplits` | src/Scripts/utils.ts:28-30 | for a semester matching its pattern, splitting the label at the first `]` gives back the semester and the course name |
| `Utils.Submit` | src/Scripts/utils.ts:70-81 | returns `valid(item)`, and issues a POST of the item's fields exactly when it returns true |
| `SubmitComponent.SemesterOptions` | src/Components/submit.ts:37-48 | the two options are the label of the current semester and of the semester right after it |
| `SubmitComponent.OptionsMatchPattern` | src/Components/submit.ts:37-48 | for `year % 100` from 11 to 98 both options match the semester pattern and differ |
| `SubmitComponent.PlaceholderRejected` | src/Components/submit.ts:58 | the placeholder option `"0"` fails the semester pattern |
| `SubmitComponent.UnpaddedOptionsFail` | src/Components/submit.ts:37-48 | November 2099, January 2100 and May 2005 offer `100SS`, `-1WS` and `5SS`, which the pattern rejects |
| `SubmitComponent.PaddedOptionsAlwaysMatch` | src/Components/submit.ts:37-48 | with zero-padded two-digit years both options match in every month of every year, and equal the printed ones for years 11 to 98 |
| `SubmitComponent.SemesterPatternIsPaddedLabel` | src/Scripts/utils.ts:20 | the semester pattern accepts exactly the padded labels of semesters with years 0 to 99 |
| `SubmitComponent.Submit.constructor` | src/Components/submit.ts:9-27 | all four fields start marked invalid, so `isValid()` is false; the draft is empty with `createdAt` 0 |
| `SubmitComponent.Submit.IsValid` | src/Components/submit.ts:19 | the submit button is enabled iff no field is marked invalid |
| `SubmitComponent.Submit.HandleInput` | src/Components/submit.ts:198-245 | a matching value unmarks its field and is stored; a failing one marks its field and leaves the draft; an unknown name changes nothing; the invariant is kept |
| `SubmitComponent.Submit.Submit` | src/Components/submit.ts:68-86 | stamps `createdAt`; posts only when no field is marked and `valid(data)` holds; with the invariant, no mark means it posts |
| `SubmitComponent.Submit.Toggle` | src/Components/submit.ts:91-94 | flips the help switch and nothing else |
| `SubmitComponent.Submit.Clear` | src/Components/submit.ts:122-135 | empties the draft, keeps the marks; the draft is invalid, and the invariant holds afterwards iff all four fields are marked |
| `CourseListComponent.LastPage` | src/Components/courseList.ts:101 | `ceil(count / limit)`: the least page count whose pages hold `count` listings |
| `CourseListComponent.NextPageOf` | src/Components/courseList.ts:101 | Next never passes the last page, moves one page on below it, and lands on the last page otherwise |
| `CourseListComponent.PrevPageOf` | src/Components/courseList.ts:106 | Prev never drops below 1, moves one page back above 1, and stays at 1 otherwise |
| `CourseListComponent.EnabledButtonsStep` | src/Components/courseList.ts:100-128 | an enabled Next gives `page + 1` within the pages; an enabled Prev gives `page - 1` at 1 or above |
| `CourseListComponent.NavigationKeepsRange` | src/Components/courseList.ts:100-108 | a page between 1 and the last page stays there under Prev and Next |
| `CourseListComponent.TwentyFiveByTen` | src/Components/courseList.ts:100-128 | 25 listings by 10: last page 3, Next on 3 stays on 3, Prev on 1 stays on 1 |
| `CourseListComponent.CourseList.constructor` | src/Components/courseList.ts:12-18 | page 1, limit 10, list view, count 0, nothing shown or revealed |
| `CourseListComponent.CourseList.IsHidden` | src/Components/courseList.ts:97 | a contact is masked iff its listing is not in the reveal set |
| `CourseListComponent.CourseList.RegContact` | src/Components/courseList.ts:90-97 | reveals the given listing's contact and leaves every other listing's as it was |
| `CourseListComponent.CourseList.LoadData` | src/Components/courseList.ts:173-180 | requests the current page; an answer replaces the shown page and empties the reveal set, a failure changes nothing |
| `CourseListComponent.CourseList.NextPage` | src/Components/courseList.ts:100-128 | the page moves as `NextPageOf`, then a reload; pressed while Next is enabled (`page < ceil(count / limit)`) it moves exactly one page on and stays within the last page; on a failed reload the page has still moved |
| `CourseListComponent.CourseList.PrevPage` | src/Components/courseList.ts:105-122 | the page moves as `PrevPageOf`, never below 1, then a reload; pressed while Prev is enabled (`page != 1`) from a page at 1 or above it moves exactly one page back |
| `CourseListComponent.CourseList.HandleInput` | src/Components/courseList.ts:140-157 | `limit` sets the page size from the value, page 1, and reloads; `view` sets only the view; other names change nothing |
| `CourseListComponent.CourseList.GetCount` | src/Components/courseList.ts:162-169 | an answer sets `count` to the length of the full list; a failure keeps it |
| `CourseListComponent.CourseList.ConnectedCallback` | src/Components/courseList.ts:182-186 | mounting loads the current page, then counts the listings |

## Findings

| source | as written | input that shows it | evidently intended | confidence | as-written member | corrected member |
|---|---|---|---|---|---|---|
| src/Components/submit.ts:37-48 | the options print `year % 100` and its neighbours with `toString()`, unpadded | November 2099 gives `100SS`; January 2100 gives `-1WS`; May 2005 gives `5SS`; the option can be selected, but the semester pattern rejects all three, so choosing it marks the semester invalid and the form can never be submitted with it | two-digit, zero-padded years taken modulo 100, so both options always pass the pattern | high: it follows directly from the code; it affects only dates before 2011 or from November 2099 on; not executed | `SubmitComponent.UnpaddedOptionsFail` | `SubmitComponent.PaddedOptionsAlwaysMatch` |

## Left out

- All HTTP: `fetch`, building the URL and its query, `response.json()`, the
  base URL from the environment, and the answer to the form's POST
  (navigation to `/` on success, a log line on failure). Answers are inputs.
- `getAll` does not check the HTTP status, so an error answer whose body parses
  would be counted; the model only distinguishes a parsed list from a failure.
- Rendering: templates, styles, the help table, `classMap`, the masked-contact
  text of `formatContact`, and `requestUpdate`.
- The DOM part of the form's Reset (clearing the inputs and the select) and
  the Return button; only the `clear(this.data)` call is modelled.
- `Date`: the semester options take the month index and the full year, and
  `submit` takes the current time as a parameter.
- `async`/`await`: each handler is one sequential step; mounting loads the page
  and then the count.
- `Utils.IsLetter`: `\p{L}` is exact only up to U+00FF (ASCII and Latin-1
  letters); letters of other scripts are treated as non-letters.
- `CourseListComponent.CourseList.HandleInput`: requires a positive decimal
  string for `limit`, since the select offers only 10, 20 and 50; `Number()` of
  other strings (`NaN`, 0) is not modelled.
- The routing table (src/router.ts) is a thin wrapper over a routing library and
  is not part of this model.
- The form's imports of `APP_URL` and `valid`, which utils.ts does not export,
  are not modelled; `createdAt`, which the `Item` interface lacks, is a field of
  `Item` here because the draft and the server's listings carry it.
