# spendlog — a Dafny model of its core

spendlog is a small Next.js expense tracker. A user types free-form notes
("spent $15 on lunch"). `POST /api/parse` asks a language model to turn them
into expense records and cleans the reply before `JSON.parse`. The dashboard
holds the list of expenses and derives three views from it:

- a day-streak badge;
- a 28-day activity grid;
- a Need/Want pie chart.

A "roast" button posts the whole list to `POST /api/roast`, which hands a
summary of the first twenty expenses to the language model; the button then
shows the sarcastic review that comes back, with `*emphasis*` rendered in bold.
A login page turns a callsign into an e-mail address, gates sign-up behind an
invite code and replaces "already registered" errors with one of five jokes.

This project models that core in Dafny and proves what each piece promises.
There is one module per source file:

| module | file |
|---|---|
| `Expenses` | `expense_table.dfy` |
| `ParseRoute` | `parse_route.dfy` |
| `StreakCounter` | `streak_counter.dfy` |
| `ActivityGraph` | `activity_graph.dfy` |
| `SpendingChart` | `spending_chart.dfy` |
| `MonthlyRoast` | `monthly_roast.dfy` |
| `RoastRoute` | `roast_route.dfy` |
| `DashboardContent` | `dashboard_content.dfy` |
| `ExpenseForm` | `expense_form.dfy` |
| `LoginPage` | `login_page.dfy` |

Three modules are shared:

- `Text` (in `text.dfy`): the JavaScript string primitives the code uses, namely `\s`/`trim`, `includes`, ASCII `toLowerCase` and `join`. Two more operations serve the model only. `IndexOf`, a first-occurrence search, is how the fence regex of the parse route is modelled. A one-character split states that the roast summary reads back line by line.
- `Optional` (in `text.dfy`): the option type.
- `Http` (in `http.dfy`): thrown values, awaited outcomes and JSON responses with their status codes.

Conventions:

- **Dates** are integer day numbers. The current day is a parameter `today`.
- **Amounts** are `real`.
- **Foreign calls** are parameters of the model:
  - the language model and `JSON.parse` are function-typed parameters returning `Returned(v)` or `Threw(e)`;
  - Supabase, `fetch` and the router become the outcome they deliver to the code.
- **The model call is observable.** A route handler's result records the text handed to the language model, or `None` when the model is never called.
- **State.** React state that a handler steps through becomes a class whose methods update its fields:
  - the dashboard's list;
  - the expense form's `notes`/`isLoading`;
  - the roast modal's `isOpen`/`isLoading`/`roast`;
  - the login page's `error`/`loading`/`shake`.

  The expense form and the roast modal split their handler at its `await`: one method runs before the request and one after its outcome. The login page's `handleSubmit` and the dashboard's load and delete are single methods that take the awaited outcome as a parameter.
- **The streak loop** is a method with a loop, proved equal to a specification function.

## Model

| member | source | states |
|---|---|---|
| Expenses.Dates | components/expense-table.tsx:3-10 | the `date` column of the list, position by position |
| Expenses.DatesAreDays | components/streak-counter.tsx:14-16 | a day occurs in the date column iff it is in the set of days the list covers (what `new Set(expenses.map(e => e.date))` keeps) |
| Expenses.DaysConcat | components/dashboard-content.tsx:35-37 | the days covered by a concatenation are the union of the days of its parts |
| Text.Trim | app/api/parse/route.ts:33 | `trim` leaves no white space at either end, and gives the empty string exactly when the input is all white space |
| Text.TrimUnique | app/api/parse/route.ts:40-42 | any white-space padding around a text without outer white space is exactly what `trim` removes |
| Text.TrimIdempotent | app/api/parse/route.ts:33 | trimming twice is trimming once |
| Text.TrimPadded | app/api/parse/route.ts:40 | trimming a text padded with white space on both sides equals trimming the text |
| Text.IndexOfFinds | app/api/parse/route.ts:37-38 | a search from `from` succeeds, at or before `k`, whenever the pattern occurs at `k` at or after `from` |
| Text.IndexOfFirst | app/api/parse/route.ts:37-38 | nothing occurs between `from` and the position found, nor anywhere from `from` on when the search fails |
| Text.IndexOfExact | app/api/parse/route.ts:37-38 | an occurrence with none before it is exactly what the search returns |
| Text.IndexOfShift | app/api/parse/route.ts:37-38 | searching behind a prefix gives the position in the suffix shifted by the prefix length |
| Text.ContainsAt | app/login/page.tsx:56 | `includes` holds whenever the pattern occurs at some index |
| Text.IndexOf | app/api/parse/route.ts:37-38 | a result is an occurrence of the pattern at or after `from` (first-ness in the lemmas below) |
| Text.Lower | app/login/page.tsx:25 | same length; no upper-case ASCII letter remains, and exactly the upper-case letters change |
| Text.Join | app/api/roast/route.ts:45 | `[].join` is empty; otherwise the text starts with the first part and ends with the last |
| Text.SplitJoin | app/api/roast/route.ts:43-45 | splitting a `join` on a separator that occurs in no part gives back the parts |
| ParseRoute.OpeningFence | app/api/parse/route.ts:37-38 | the leftmost opening fence of a match: a fence with another fence at least 3 characters later, and no fence before it |
| ParseRoute.OpeningFenceNone | app/api/parse/route.ts:37-39 | the fence pattern fails to match iff the text holds no fence followed by a later, non-overlapping fence |
| ParseRoute.CaptureStart | app/api/parse/route.ts:37 | the capture starts 3 characters after the opening fence, or 7 when a `json` tag in any letter case follows it; the closing fence searched for is the same either way |
| ParseRoute.StripCodeFences | app/api/parse/route.ts:36-43 | the cleaned reply has no leading or trailing white space |
| ParseRoute.StripCodeFencesPlain | app/api/parse/route.ts:42 | with no complete fence pair the result is the trimmed input |
| ParseRoute.StripCodeFencesNoPair | app/api/parse/route.ts:37-41 | the cleaned reply never holds a complete fence pair, because the lazy capture stops at the first closing fence |
| ParseRoute.StripCodeFencesIdempotent | app/api/parse/route.ts:36-43 | cleaning twice is cleaning once |
| ParseRoute.StripTagRule | app/api/parse/route.ts:37-40 | the capture skips a `json` tag in any letter case; any other tag stays in the result, which is the trimmed text up to the first closing fence |
| ParseRoute.StripFencedReply | app/api/parse/route.ts:37-41 | for a reply `prose + fence + tag + newline + payload + newline + fence + rest`, where the prose has no backquote, the tag is empty or `json` and the payload has no fence, the result is the trimmed payload |
| ParseRoute.ErrorMessage | app/api/parse/route.ts:74-75 | an `Error`'s message, otherwise 'Unknown error occurred.' |
| ParseRoute.Post | app/api/parse/route.ts:45-77 | a missing key gives 500 and no model call; an all-white-space body gives 400 and no model call; otherwise the model receives the trimmed, non-empty body; 200 iff both the model and `JSON.parse` of the cleaned reply return, and then it carries the parsed value; a model or `JSON.parse` error gives 500 with `ErrorMessage` of what was thrown |
| ParseRoute.KeyCheckedBeforeBody | app/api/parse/route.ts:46-52 | without a key the response does not depend on the body |
| StreakCounter.InsertDescending | components/streak-counter.tsx:14-16 | inserting into a strictly descending sequence keeps it strictly descending and adds exactly the new value |
| StreakCounter.UniqueDescending | components/streak-counter.tsx:14-16 | the distinct dates sorted descending: strictly descending, same elements as the input |
| StreakCounter.Latest | components/streak-counter.tsx:21 | the head of the sorted distinct dates: a day of the list, no earlier than any other |
| StreakCounter.Run | components/streak-counter.tsx:28-37 | the number of consecutive listed days ending at `d`: all of `d-n+1..d` are listed and `d-n` is not |
| StreakCounter.RunUnique | components/streak-counter.tsx:28-37 | any `n` with that property is the run length |
| StreakCounter.Streak | components/streak-counter.tsx:10-40 | 0 iff the list is empty or its latest day is more than one day before today |
| StreakCounter.CalculateStreak | components/streak-counter.tsx:10-40 | the de-duplicate, sort and count-while-consecutive loop returns exactly `Streak` |
| StreakCounter.SortedHead | components/streak-counter.tsx:21 | the first of the sorted distinct dates is the latest day |
| StreakCounter.SortedRun | components/streak-counter.tsx:28-37 | when the loop stops at index `i`, `i+1` is the run of consecutive days ending at the latest day |
| StreakCounter.StreakBadge | components/streak-counter.tsx:42-44 | nothing is shown iff the list is empty or the streak is dead; otherwise the streak, at least 1 |
| StreakCounter.DaysEndingAt | components/streak-counter.tsx:28-37 | the `n` consecutive days ending at `d`, a set of size `n` |
| StreakCounter.StreakBounds | components/streak-counter.tsx:27-39 | a live streak is at least 1 and at most the number of distinct days |
| StreakCounter.StreakOnlyDays | components/streak-counter.tsx:14-16 | the streak depends only on the set of days covered |
| StreakCounter.StreakDuplicateDay | components/streak-counter.tsx:14-16 | adding an expense on an already covered day leaves the streak unchanged |
| StreakCounter.StreakFutureAlive | components/streak-counter.tsx:24-25 | a latest day in the future still counts as alive |
| StreakCounter.StreakExamples | components/streak-counter.tsx:24-37 | today and yesterday give 2; today and three days ago give 1 |
| ActivityGraph.Window | components/activity-graph.tsx:11-14 | 28 days, day `i` being `today - (27 - i)` |
| ActivityGraph.WindowCovers | components/activity-graph.tsx:11-14 | the window holds exactly the days from 27 days ago to today, increasing, first 27 days ago and last today |
| ActivityGraph.OnDay | components/activity-graph.tsx:17 | the expenses of the list dated on the given day, and only those |
| ActivityGraph.Intensity | components/activity-graph.tsx:16-20 | 0 or 1, and 1 iff some expense is dated that day |
| ActivityGraph.Grid | components/activity-graph.tsx:11-25 | 28 cells; cell `i` is active iff some expense is dated `today - (27 - i)` |
| ActivityGraph.GridOnlyDays | components/activity-graph.tsx:18-19 | the grid depends only on the set of days covered, so several expenses on one day look like one |
| ActivityGraph.GridIgnoresOutside | components/activity-graph.tsx:11-20 | an expense dated before the window or after today changes no cell |
| ActivityGraph.GridGrows | components/activity-graph.tsx:17-19 | adding expenses, before or after, never turns an active cell inactive |
| ActivityGraph.GridTenDaysAgo | components/activity-graph.tsx:12-17 | a single expense dated ten days ago activates exactly cell 17 |
| SpendingChart.OfKind | components/spending-chart.tsx:14 | the expenses of the given type, and only those |
| SpendingChart.Sum | components/spending-chart.tsx:15 | the `reduce` sum: a single expense sums to its amount, and non-negative amounts give a non-negative sum |
| SpendingChart.Total | components/spending-chart.tsx:13-18 | a type without expenses totals 0; non-negative amounts give a non-negative total |
| SpendingChart.SumConcat | components/spending-chart.tsx:15 | the sum over a concatenation is the sum of the parts' sums |
| SpendingChart.OfKindConcat | components/spending-chart.tsx:13-18 | filtering distributes over concatenation |
| SpendingChart.TotalConcat | components/spending-chart.tsx:13-18 | a type's total distributes over concatenation |
| SpendingChart.TotalPermutation | components/spending-chart.tsx:13-18 | reordering the list leaves each type's total unchanged |
| SpendingChart.TotalsSplitSum | components/spending-chart.tsx:13-18 | the Need total plus the Want total is the sum of all amounts |
| SpendingChart.Distribution | components/spending-chart.tsx:12-28 | exactly the No Data bucket iff both totals are 0; otherwise exactly the Need bucket holding the Need total, then the Want bucket holding the Want total, whose values add up to the sum of all amounts |
| SpendingChart.DistributionPermutation | components/spending-chart.tsx:12-28 | reordering the list leaves the chart data unchanged |
| SpendingChart.HasData | components/spending-chart.tsx:30 | there is data iff the list covers at least one day, whatever the amounts |
| SpendingChart.ZeroAmountsNoData | components/spending-chart.tsx:20-30 | a non-empty list of zero amounts has `hasData` true yet gets the No Data bucket |
| MonthlyRoast.NextStar | components/monthly-roast.tsx:69 | the first `*` at or after `i`, or none |
| MonthlyRoast.EmphasisAt | components/monthly-roast.tsx:69 | a match of `\*[^*]+\*` starting at `p` |
| MonthlyRoast.EmphasisAtFinds | components/monthly-roast.tsx:69 | whenever a match starts at `p`, it is the one found |
| MonthlyRoast.SplitFrom | components/monthly-roast.tsx:69 | the capturing split: an odd number of segments, every odd-positioned one a match |
| MonthlyRoast.Segments | components/monthly-roast.tsx:69 | the segments of `split(/(\*[^*]+\*)/g)`, an odd number |
| MonthlyRoast.SegmentsConcat | components/monthly-roast.tsx:69 | concatenating the segments in order gives back the roast exactly |
| MonthlyRoast.SegmentsAlternate | components/monthly-roast.tsx:69 | odd-positioned segments are `*` + one or more non-`*` + `*`; even-positioned ones contain no such match, and no match starts at any position of an even-positioned segment (the leftmost scan of `split`) |
| MonthlyRoast.SegmentsUnique | components/monthly-roast.tsx:69 | any odd-length list of pieces that joins back to the roast, has a match at every odd position and lets no match start inside an even-positioned piece is exactly the segments, so those properties fix the split |
| MonthlyRoast.RenderPart | components/monthly-roast.tsx:70-77 | bold iff the segment starts and ends with `*`, its text the segment without first and last character; otherwise the segment verbatim |
| MonthlyRoast.Render | components/monthly-roast.tsx:69-78 | a null roast renders nothing; otherwise one piece per segment, in order |
| MonthlyRoast.RenderEmphasis | components/monthly-roast.tsx:69-73 | every captured segment renders bold with a non-empty, star-free text that the stars wrap back into the segment |
| MonthlyRoast.SegmentsLeftmost | components/monthly-roast.tsx:69 | in `*a*b*` the leftmost match `*a*` is captured and `b*` stays plain |
| MonthlyRoast.SegmentsDoubleStars | components/monthly-roast.tsx:69 | `**Warning**` splits into `*`, `*Warning*`, `*` |
| MonthlyRoast.RenderDoubleStars | components/monthly-roast.tsx:69-78 | `**Warning**` renders as an empty bold piece, a bold `Warning` and another empty bold piece |
| MonthlyRoast.ReplyOf | components/monthly-roast.tsx:20-29 | a reply counts iff the request returned with a 2xx status; its roast is the body's `roast` field, when there is one |
| MonthlyRoast.RoastModal.constructor | components/monthly-roast.tsx:10-12 | closed, not loading, no roast |
| MonthlyRoast.RoastModal.Shown | components/monthly-roast.tsx:48-80 | closed iff not open; the thinking view iff open and loading; otherwise the rendered roast, empty for a null roast |
| MonthlyRoast.RoastModal.StartRoast | components/monthly-roast.tsx:15-17 | open, loading, roast cleared; the modal shows the thinking view |
| MonthlyRoast.RoastModal.FinishRoast | components/monthly-roast.tsx:26-35 | loading off; the replied roast, or the fixed stunned text after any failure; an open modal shows its rendering |
| MonthlyRoast.RoastModal.Close | components/monthly-roast.tsx:84 | closed, nothing else changes |
| MonthlyRoast.HandleRoast | components/monthly-roast.tsx:14-36 | after a roast cycle the modal is open and not loading, and shows the replied roast or the stunned text |
| RoastRoute.Line | app/api/roast/route.ts:44 | a summary line holds no line break when its fields hold none |
| RoastRoute.Lines | app/api/roast/route.ts:43-44 | one line per entry, in order |
| RoastRoute.FirstEntries | app/api/roast/route.ts:43 | a prefix of at most 20 entries: the whole list when it is no longer, otherwise exactly its first 20 |
| RoastRoute.Summary | app/api/roast/route.ts:43-45 | the summary is empty iff there are no entries |
| RoastRoute.Entries | app/api/roast/route.ts:43-44 | readable elements give their entries, one per element, in order |
| RoastRoute.SummaryIgnoresTail | app/api/roast/route.ts:43 | entries after the twentieth never reach the summary |
| RoastRoute.SummaryLines | app/api/roast/route.ts:43-45 | split on line breaks, the summary gives back the first twenty entries' lines in order |
| RoastRoute.Post | app/api/roast/route.ts:7-74 | 401 without a user; then 500 without a key; 500 'Failed to generate roast.' for a body that fails to parse; 400 for a missing or non-array `expenses`; the ghost roast for an empty array; 500 'Failed to generate roast.' without a model call when one of the first 20 elements is `null` or `undefined`; the model is called, with the summary of the first 20 entries, iff every check passes; its text is the 200 roast, its failure a 500 |
| RoastRoute.PostIgnoresTail | app/api/roast/route.ts:43 | elements after the twentieth, even `null` ones, never change the reply |
| RoastRoute.PostStatuses | app/api/roast/route.ts:7-74 | the status is 200, 400, 401 or 500, and 200 only with a roast body |
| RoastRoute.AuthCheckedFirst | app/api/roast/route.ts:9-17 | without a user the response depends on neither the key nor the body |
| RoastRoute.KeyCheckedBeforeBody | app/api/roast/route.ts:19-25 | after auth passes, a missing key makes the response independent of the body |
| DashboardContent.WithoutId | components/dashboard-content.tsx:47 | keeps exactly the entries whose id differs from the given one |
| DashboardContent.WithoutIdConcat | components/dashboard-content.tsx:47 | the filter distributes over concatenation, so the kept entries stay in order |
| DashboardContent.WithoutAbsentId | components/dashboard-content.tsx:47 | deleting an id held by no entry leaves the list unchanged |
| DashboardContent.WithoutIdIdempotent | components/dashboard-content.tsx:47 | deleting the same id twice is deleting it once |
| DashboardContent.WithoutIdRemovesOnly | components/dashboard-content.tsx:47 | the kept entries and those carrying the id together make up the old list, as a multiset and in number |
| DashboardContent.Dashboard.constructor | components/dashboard-content.tsx:13 | the list starts empty |
| DashboardContent.Dashboard.LoadExpenses | components/dashboard-content.tsx:21-29 | rows delivered without error replace the list; an error or no rows leaves it unchanged |
| DashboardContent.Dashboard.ExpenseAdded | components/dashboard-content.tsx:35-37 | the new batch is prepended: lengths add up and every old entry stays |
| DashboardContent.Dashboard.DeleteExpense | components/dashboard-content.tsx:39-49 | a failed delete changes nothing; a successful one removes exactly the entries with that id; no entry is ever added |
| DashboardContent.AddFromForm | components/dashboard-content.tsx:35-37 | a form submission adds the parsed batch in front iff the notes were not blank and the parse succeeded; the form is not left loading |
| ExpenseForm.Form.constructor | components/expense-form.tsx:9-10 | empty notes, not loading |
| ExpenseForm.Form.CanSubmit | components/expense-form.tsx:59 | the button is enabled iff not loading and the notes are not blank |
| ExpenseForm.Form.Submit | components/expense-form.tsx:12-22 | blank notes: no request and no change; otherwise loading and the notes as typed, untrimmed, are the request body |
| ExpenseForm.Form.Settle | components/expense-form.tsx:24-35 | loading off; on success the parsed array goes to the dashboard unchanged and the notes are cleared; on failure nothing goes and the notes stay |
| LoginPage.RemoveSpaces | app/login/page.tsx:25 | no white space is left, and only characters of the input remain |
| LoginPage.RemoveSpacesConcat | app/login/page.tsx:25 | removing white space distributes over concatenation |
| LoginPage.RemoveSpacesAllSpace | app/login/page.tsx:25 | a run of white space disappears entirely |
| LoginPage.RemoveSpacesNone | app/login/page.tsx:25 | a text without white space is unchanged |
| LoginPage.Normalize | app/login/page.tsx:25 | the normalised callsign holds no white space and no upper-case letter |
| LoginPage.Email | app/login/page.tsx:25 | the address ends in '@spendlog.app', and the part before it holds no white space and no upper-case letter |
| LoginPage.NormalizeConcat | app/login/page.tsx:25 | normalising a concatenation normalises each part |
| LoginPage.NormalizeChar | app/login/page.tsx:25 | a white-space character disappears, any other character is lower-cased; with NormalizeConcat this fixes the local part on every callsign |
| LoginPage.NormalizeClean | app/login/page.tsx:25 | a callsign without white space or upper case is its own local part, so its address is the callsign followed by '@spendlog.app' |
| LoginPage.LowerConcat | app/login/page.tsx:25 | lower-casing distributes over concatenation |
| LoginPage.NormalizeIdempotent | app/login/page.tsx:25 | normalising twice is normalising once |
| LoginPage.EmailIgnoresCase | app/login/page.tsx:25 | callsigns that differ only in letter case get the same e-mail |
| LoginPage.EmailIgnoresSpaces | app/login/page.tsx:25 | inserting white space anywhere in a callsign leaves the e-mail unchanged |
| LoginPage.SarcasticMessages | app/login/page.tsx:58-64 | five messages |
| LoginPage.SarcasticNamesCallsign | app/login/page.tsx:58-64 | each of the five messages contains the callsign |
| LoginPage.ShownError | app/login/page.tsx:54-67 | a message containing 'already registered' or 'unique constraint' is replaced by one of the five messages, which names the callsign; any other message is shown verbatim |
| LoginPage.EmbedsCallsign | app/login/page.tsx:58-64 | a text built around the callsign contains it |
| LoginPage.MissingCharNotContained | app/login/page.tsx:56 | a text lacking one of a pattern's characters does not contain the pattern |
| LoginPage.InviteErrorNotTaken | app/login/page.tsx:28-56 | the invite-code error is not mistaken for a taken callsign |
| LoginPage.CallFor | app/login/page.tsx:25-50 | no auth call iff it is a sign-up with a wrong invite code; sign-in never checks it; the call carries the derived e-mail and the secret code |
| LoginPage.Login.constructor | app/login/page.tsx:13-15 | no error, not loading, shake 0, not navigated |
| LoginPage.Login.HandleSubmit | app/login/page.tsx:19-71 | the auth call is `CallFor`'s; loading ends false; success navigates and shows no error; a failure shows the mapped message and bumps the shake counter iff the callsign was taken |
| LoginPage.WrongInvite | app/login/page.tsx:28-30 | a sign-up with a wrong invite code makes no auth call, shows 'Invalid Invite Code' and does not shake |

## Left out

- The language model, Supabase (auth, select, delete), `fetch`, `alert`,
  `console` and the router are not modelled. The model receives only what they
  deliver: a returned value, a thrown error, an error flag or the rows.
- `JSON.parse` (parse route) and `req.json()` (roast route) are not modelled
  as parsers. The first is a function parameter that returns or throws. The
  second is an `Attempt` of the `expenses` field.
- The prompt wording in both routes is not modelled. Only the trimming of the
  expense text and the summary the roast prompt embeds are code.
- Rendering is not modelled: JSX, Tailwind classes, colours, framer-motion,
  recharts, the date tooltip and currency formatting. The roast modal's
  output is modelled only down to the list of bold and plain pieces.
- Dates are integer day numbers, and `new Date()` is the parameter `today`.
  Time zones and ISO-string parsing are not modelled.
- Amounts are `real`. Floating-point rounding in the chart's sums is not
  modelled.
- `Math.random` in the login error mapping is the parameter `pick`, one of
  0 to 4.
- Text.Lower: lower-cases the ASCII letters only; JavaScript's `toLowerCase`
  also maps other Unicode letters.
- StreakCounter.CalculateStreak: the second emptiness test
  (components/streak-counter.tsx:18) cannot fire once the list is non-empty,
  so the model has no branch for it.
- DashboardContent.Dashboard.LoadExpenses: the list is taken as the store
  delivers it. The store's ordering by date is not modelled.
- RoastRoute.Line: the template literal's conversion of a field to text is
  not modelled. The fields arrive already as strings, and the line's exact
  layout is stated only through its lack of line breaks.
- RoastRoute.Entries: a non-null element whose field throws while being turned into text is not modelled; every element other than `null` or `undefined` is readable.
- RoastRoute.Post: the roast summary reads `item_name`, but the `Expense`
  record calls that field `item`. The model takes whatever the request
  carries as the entry's name and does not join the two.
- ExpenseForm.Form.Settle: the parse route's 200 body is taken to be an array
  of well-formed `Expense` records. The code does not check this: the route
  returns whatever `JSON.parse` gives (app/api/parse/route.ts:70-72), the form
  forwards it unchanged (components/expense-form.tsx:28-29) and the dashboard
  spreads it in front of the list (components/dashboard-content.tsx:36). The
  route's prompt asks for `item_name`, `is_expense` and `funny_comment`, with
  a null `amount`, `type` and `date` for non-expenses, none of which the
  `Expense` datatype can hold. A record with a null `type` falls into neither
  chart slice, so `SpendingChart.TotalsSplitSum` says nothing about it, and a
  body that is not an array makes the spread throw; neither case is modelled.
- The textarea, callsign and code input handlers are not modelled. They
  only copy typed text into state. The roast modal's open/close buttons are
  the `StartRoast` and `Close` methods.
- `app/page.tsx` and `test-gemini.mjs` are not part of this model. The first
  repeats the dashboard's prepend; the second is a manual I/O script.
- `components/expense-table.tsx` only renders a table. Its `Expense` record
  is the `Expenses.Expense` datatype.
- LoginPage.Login.HandleSubmit: a thrown value without a `message` property
  is not modelled. Every failure carries a message string.
