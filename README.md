# Creative Dashboard: the project store, in Dafny

Creative Dashboard is a Kivy desktop app for tracking creative projects. Its
core is a small document of project records and settings, held by the
application object (`app_data`) and saved as JSON, plus the screens that
read and change it. This project models that core and proves what it does:

- **Due dates** (`dates.dfy`). The project screen accepts a due date only
  when it starts with `\d{4}-\d{2}-\d{2}` and `datetime.strptime(value,
  "%Y-%m-%d")` accepts the whole string. Otherwise the date becomes `""`.
  `Strptime` follows CPython's `%Y`, `%m` and `%d` patterns, including
  one-digit months and days and a space-padded day. The matcher takes the
  first alternative that matches, rejects input left over after the match,
  and rejects year 0. `\d` in a `str` pattern matches a decimal digit of
  any script (Unicode category Nd; `PyText.RunZero` holds the Unicode 15.0
  table of Python 3.12), and `int()` reads such digits, while the bracketed
  ranges of `%m` and `%d` are ASCII only. So a year or the second digit of
  a day may be written, say, in Arabic-Indic digits. The proofs show that
  an accepted string, with its digits rewritten in ASCII, is the canonical
  text of its date and an RFC 3339 full-date (section 5.6, with the
  day-of-month and leap-year limits of section 5.7) with a year of at
  least 1. Among strings whose digits are ASCII, the accepted ones are
  exactly those full-dates, and for them text order is date order. For
  other digits it is not: a 2024 date with an Arabic-Indic year sorts
  after a 2025 date.
- **Project mutations** (`project_screen.dfy`). The class
  `ProjectScreen.ProjectScreen` holds the screen's form fields and the
  application (`MainApp.MainApp`) whose document it changes:
  - `set_due_date` and `set_search_text`;
  - `add_project`, `delete_project` and `reset_projects`;
  - `save_project`, which trims the name, coerces the due date and appends
    one history entry.
- **The list query** (`project_list.dfy`). `update_project_list` filters
  with a comprehension and then applies Python's stable `list.sort` by
  lowercased name, by raw due-date string or by status rank. The model is
  an order-preserving filter followed by an insertion sort. The proofs show
  the result is sorted, is a permutation of the filtered list and is stable.
  An unknown status under the status sort raises inside the `try`, so the
  list shows nothing; `Query` returns `None` for that case.
- **Loading** (`main_app.dfy`). `load_data` normalises an already-parsed
  document:
  - dict entries with a `name` are backfilled with `setdefault`;
  - bare strings are promoted to full records;
  - every other entry is dropped;
  - missing settings get the defaults;
  - a missing or unreadable file gives the default document.
- **Saving** (`main_app.dfy`). `save_data` dumps the document, and loading
  it gives it back. An accepted edit makes that record's history contain
  itself; while the record stays in the document the dump fails and the
  next start loads the default document (see Findings). The application
  keeps the positions of the edited records, and delete and reset keep
  them up to date.
- **Notifications** (`main_app.dfy`). `schedule_notifications` returns the
  reminders it would send: one for each project 7, 2 or 0 days before its
  due date.
- **Statistics** (`stats.dfy`, `home.dfy`). These are the counts and
  streaks of the statistics screen and the completed/total line of the home
  screen.

The load-time emoji default in `main.py` is the mis-encoded text `ðŸ“Œ` (four
code points), not the pin emoji that `add_project` uses. `MainApp.LoadEmoji`
keeps it as written.

Python's `list.remove`, `len([... if ...])`, `str.strip`, `str.lower` and
`in` on strings are modelled in `pylist.dfy` and `text.dfy`.

## Model

| member | source | states |
|---|---|---|
| Dates.Strptime | creative_dashboard/screens/project.py:53 | a parsed date is always a real Gregorian date (month 1-12, day within the month, year at least 1) |
| PyText.AsciiDigitsValue | creative_dashboard/screens/project.py:53 | digits of any script rewritten in ASCII read as the same number `int()` gives the original |
| Dates.StrptimeOfFields | creative_dashboard/screens/project.py:53 | a four-digit year of any script, a month 01-12 and a two-character day token joined by dashes parse to the date of those three values exactly when that date exists |
| Dates.JanuaryFifteenth | creative_dashboard/screens/project.py:51-53 | January 15th of any year from 1 to 9999 written in four decimal digits of any script passes the test and parses to that date |
| Dates.AsciiJanuaryFifteenth | creative_dashboard/screens/project.py:51-53 | January 15th of a year from 1 upward written in four ASCII digits passes the test and parses to that date |
| Dates.ArabicIndicYearAccepted | creative_dashboard/screens/project.py:51-53 | 2024-01-15 with an Arabic-Indic year passes the test and parses to 15 January 2024, though it is no RFC 3339 full-date |
| Dates.ArabicIndicDayAccepted | creative_dashboard/screens/project.py:51-53 | January 15th with the day's second digit Arabic-Indic passes the test and parses to the 15th, for every four-digit year from 1 to 9999 in any script |
| Dates.CoerceDueDate | creative_dashboard/screens/project.py:245-250 | the stored date is either `""` or a valid due date; it equals the input exactly when the input is a valid, non-empty due date, and is `""` whenever the input fails the test |
| Dates.FormatThenParse | creative_dashboard/screens/project.py:51-53 | every real date written as `YYYY-MM-DD` passes both the prefix test and `strptime`, and parses back to itself |
| Dates.ValidDueDateFields | creative_dashboard/screens/project.py:51-53 | an accepted date is ten characters long: a year of four decimal digits of any script, a month of two ASCII digits and a day whose first digit is ASCII; it parses to the values of its three digit groups |
| Dates.FormatDateIsRfc3339 | creative_dashboard/screens/project.py:51-53 | the canonical text of every valid date is an RFC 3339 full-date with a non-zero year |
| Dates.ValidDueDateIsCanonical | creative_dashboard/screens/project.py:51-53 | an accepted date with its digits rewritten in ASCII is the canonical text of the date it parses to; one written in ASCII digits is that text itself |
| Dates.ValidDueDateIsRfc3339 | creative_dashboard/screens/project.py:51-53 | an accepted date with its digits rewritten in ASCII is an RFC 3339 full-date with a non-zero year; one written in ASCII digits is such a full-date itself |
| Dates.Rfc3339IsValidDueDate | creative_dashboard/screens/project.py:51-53 | every RFC 3339 full-date with a non-zero year is accepted, and its digits are ASCII |
| Dates.ValidDueDateIffRfc3339 | creative_dashboard/screens/project.py:51-53 | a string is accepted and has only ASCII digits exactly when it is an RFC 3339 full-date with a non-zero year, in both directions |
| Dates.FormatDateOrder | creative_dashboard/screens/project.py:139 | for canonical date texts, string order agrees with calendar order |
| Dates.ValidDueDateOrder | creative_dashboard/screens/project.py:139 | for accepted due dates written in ASCII digits, string order agrees with calendar order, in both directions |
| Dates.ArabicIndicYearSortsLate | creative_dashboard/screens/project.py:139 | an example for `ProjectList.DateSortOutOfOrder`: January 15th of any year written in ASCII digits sorts strictly before 2024-01-15 written with an Arabic-Indic year |
| Dates.DayNumberOrder | creative_dashboard/main.py:82 | the day count behind `(due - today).days` is strictly monotone in the calendar order and injective |
| PyText.Strip | creative_dashboard/screens/project.py:83 | the result is the input with whitespace cut from both ends and no whitespace left at either end |
| PyText.StripUnique | creative_dashboard/screens/project.py:83 | only one string is a strip of a given input |
| PyText.StripEmptyIff | creative_dashboard/screens/project.py:84 | the stripped name is empty exactly when every character is whitespace |
| PyText.StripIdempotent | creative_dashboard/screens/project.py:241 | stripping a stripped name changes nothing |
| PyText.Lower | creative_dashboard/screens/project.py:67 | lowercasing keeps the length and maps every character through the ASCII lowercase table |
| PyText.LowerIdempotent | creative_dashboard/screens/project.py:67 | lowercasing a lowercased text changes nothing |
| PyText.ContainsIff | creative_dashboard/screens/project.py:134 | the substring test holds exactly when the needle occurs at some position of the haystack |
| PyText.NatToString | creative_dashboard/screens/stats.py:28-30 | the decimal text of a count is all digits, reads back as the count, and has no leading zero |
| PyText.DigitsOrder | creative_dashboard/screens/project.py:139 | for digit strings of equal length, string order is numeric order |
| PyList.Count | creative_dashboard/screens/stats.py:15 | a comprehension count is at most the length of the list |
| PyList.RemoveFirstCounts | creative_dashboard/screens/project.py:111 | `list.remove` takes away one occurrence of the argument and leaves every other element as often as before |
| PyList.RemoveFirstAbsent | creative_dashboard/screens/project.py:110 | when no element equals the argument, nothing is removed |
| PyList.RemoveFirstPosition | creative_dashboard/screens/project.py:111 | exactly the first equal element is removed; what comes before and after it stays in order |
| Records.CompletedCount | creative_dashboard/screens/home.py:14 | the completed count is at most the total |
| ProjectList.FilterKeepsShown | creative_dashboard/screens/project.py:128-135 | the filtered list is an order-preserving subsequence, and it holds each shown project as often as the input and each hidden one not at all |
| ProjectList.FilterNothing | creative_dashboard/screens/project.py:130-134 | with all filters at "All" and no search text, every project is shown in its order |
| ProjectList.FilterUnknownStatus | creative_dashboard/screens/project.py:130-132 | a status filter other than All, Active or Completed shows nothing |
| ProjectList.FilterIdempotent | creative_dashboard/screens/project.py:128-135 | filtering a filtered list again changes nothing |
| ProjectList.ActiveAndCompletedSplitAll | creative_dashboard/screens/project.py:130-132 | when every status is one of the three, Active plus Completed shows as many projects as All |
| ProjectList.KeyLeTotal | creative_dashboard/screens/project.py:136-141 | any two sort keys are comparable |
| ProjectList.KeyLeTransitive | creative_dashboard/screens/project.py:136-141 | the key order is transitive |
| ProjectList.KeyLeAntisymmetric | creative_dashboard/screens/project.py:136-141 | keys that compare both ways are equal |
| ProjectList.InsertPermutes | creative_dashboard/screens/project.py:136-141 | one insertion step adds exactly the inserted project |
| ProjectList.StableSortPermutes | creative_dashboard/screens/project.py:136-141 | the sort output is a permutation of its input |
| ProjectList.InsertSorted | creative_dashboard/screens/project.py:136-141 | inserting into a sorted list keeps it sorted |
| ProjectList.StableSortSorted | creative_dashboard/screens/project.py:136-141 | the sort output is ordered by the chosen key |
| ProjectList.StableSortStable | creative_dashboard/screens/project.py:136-141 | projects with equal keys keep their relative order |
| ProjectList.Query | creative_dashboard/screens/project.py:123-141 | the list shows nothing exactly when sorting by status meets a status outside the three ranks |
| ProjectList.QueryResult | creative_dashboard/screens/project.py:128-141 | the shown list is a permutation of the filtered list. For an unknown sort field it is the filtered list itself; otherwise it is sorted and stable |
| ProjectList.EmptyDueDatesFirst | creative_dashboard/screens/project.py:139 | sorted by date, projects without a due date come before every dated one |
| ProjectList.StatusSortOrder | creative_dashboard/screens/project.py:141 | sorted by status, Not Started projects come first and Completed ones last |
| ProjectList.DateSortChronological | creative_dashboard/screens/project.py:139 | sorted by date, valid due dates written in ASCII digits appear in calendar order |
| ProjectList.DateSortOutOfOrder | creative_dashboard/screens/project.py:139 | for every year after 2024 written in ASCII digits, its January 15th and 2024-01-15 with an Arabic-Indic year both pass the test, and the date sort puts the later date first and only that order |
| MainApp.NormalisedAppend | creative_dashboard/main.py:115-136 | normalisation works entry by entry: normalising a concatenation concatenates the results |
| MainApp.NormalisedLength | creative_dashboard/main.py:113-136 | the normalised list has one record per kept entry (a named dict or a string), so it is no longer than the input |
| MainApp.BackfillKeepsValues | creative_dashboard/main.py:116-122 | backfilling never overwrites a value already present, fills absent keys with the defaults, and adds no category |
| MainApp.EntryKinds | creative_dashboard/main.py:116-135 | an entry is kept exactly when it is an object with a name or a string; a string becomes a record with category General, status Not Started, recurrence None, no due date and no history |
| MainApp.NormaliseProjects | creative_dashboard/main.py:114-136 | the loop builds exactly the normalised list: named dicts backfilled, strings promoted, other entries dropped, in order |
| MainApp.LoadData | creative_dashboard/main.py:107-149 | the loaded document: projects normalised only when present and non-empty, default settings when absent, the full default document for a missing or unreadable file |
| MainApp.LoadedSettings | creative_dashboard/main.py:137-138 | settings that are present are kept untouched; absent ones become the three defaults |
| MainApp.RawEntries | creative_dashboard/main.py:151-156 | saving writes one JSON entry per project |
| MainApp.ToRawRoundTrip | creative_dashboard/main.py:116-122 | a saved project record loads back unchanged |
| MainApp.RawEntriesRoundTrip | creative_dashboard/main.py:113-136 | a saved project list loads back unchanged |
| MainApp.SaveThenLoad | creative_dashboard/main.py:107-156 | loading a saved document gives back that document, for a document in which no history list shares itself (see Findings: as written, a document saved after an accepted `save_project` and before the edited record leaves it is lost) |
| MainApp.LoadIdempotent | creative_dashboard/main.py:107-149 | loading, saving and loading again gives the first load: normalisation is idempotent |
| MainApp.WrittenFile | creative_dashboard/main.py:151-156 | while a record edited in this session is still in the document, the file left behind loads as the default document; otherwise it loads as the saved document |
| MainApp.SharedAfterRemovalIff | creative_dashboard/screens/project.py:107-114 | after the record at one position is removed, a position is marked as edited exactly when the record now there was marked before |
| MainApp.Reminder | creative_dashboard/main.py:77-103 | a project gets a reminder exactly when its due date is non-empty, parses and is 7, 2 or 0 days away; the reminder carries the project name, the number of days from today to the due date and the text for that number |
| MainApp.ReminderTexts | creative_dashboard/main.py:83-103 | there is a text for exactly 7, 2 and 0 days left: the quoted name, "is due in 1 week", "is due in 2 days" or "is due today", and the due date as entered in parentheses |
| MainApp.DueRemindersAppend | creative_dashboard/main.py:76-105 | the reminders of a list are the reminders of its parts, in order |
| MainApp.UnparsableSkipped | creative_dashboard/main.py:77-79 | an empty or unparsable due date drops only that project; the check goes on with the projects after it |
| MainApp.DueRemindersBounds | creative_dashboard/main.py:83-103 | at most one reminder per project, each at 7, 2 or 0 days left |
| MainApp.ReminderDate | creative_dashboard/main.py:82-103 | zero days left means the due date is today, and the week and two-day reminders are for later dates |
| MainApp.MainApp.constructor | creative_dashboard/main.py:107-149 | the application starts with the loaded document, in which no record has been edited, so no history list shares itself |
| MainApp.MainApp.SaveData | creative_dashboard/main.py:151-156 | the file left is `WrittenFile` of the current document and edited positions: the next start loads the current document when no record of it was edited in this session, and the default document otherwise |
| MainApp.MainApp.ScheduleNotifications | creative_dashboard/main.py:72-105 | with notifications switched off (absent counts as on) nothing is sent; otherwise the loop sends exactly the reminders of the project list, in order |
| ProjectScreen.AddedAtEnd | creative_dashboard/screens/project.py:98 | adding puts exactly one record at the end; the others keep their order and values, and the settings are untouched |
| ProjectScreen.WellFormedAdded | creative_dashboard/screens/project.py:98 | adding a record whose due date is empty or valid keeps every due date in the document empty or valid |
| ProjectScreen.WellFormedEdited | creative_dashboard/screens/project.py:245-250 | a save keeps every due date in the list empty or valid |
| ProjectScreen.EditedFields | creative_dashboard/screens/project.py:240-256 | a save stores the trimmed name, the chosen category, recurrence and status, and the coerced due date; it keeps the emoji and appends one history entry holding the fields before and after the edit |
| ProjectScreen.EditedKeepsChain | creative_dashboard/screens/project.py:252-256 | after a save the history is still a chain: each entry starts where the previous one ended, and the last ends at the current fields |
| ProjectScreen.ApplyEditsHistory | creative_dashboard/screens/project.py:234-256 | over a run of saves, the history grows by one entry per accepted save, keeps its old entries and stays a chain; for a new project its first entry starts at the creation fields |
| ProjectScreen.ProjectScreen.constructor | creative_dashboard/screens/project.py:31-37 | the screen starts with category General, no due date, recurrence None, no search text, sort by Name and both filters at All |
| ProjectScreen.ProjectScreen.SetDueDate | creative_dashboard/screens/project.py:50-61 | the due date is kept only when it passes the prefix test and `strptime`; otherwise it and its input box become `""` |
| ProjectScreen.ProjectScreen.SetSearchText | creative_dashboard/screens/project.py:66-67 | the search text is stored lowercased |
| ProjectScreen.ProjectScreen.AddProject | creative_dashboard/screens/project.py:82-104 | an empty trimmed name changes nothing. Otherwise exactly one record is appended: trimmed name, current category, Not Started, the pin emoji, the current due date and recurrence, no history. Then the name box and due date are cleared and recurrence is reset to None |
| ProjectScreen.ProjectScreen.DeleteProject | creative_dashboard/screens/project.py:107-114 | only the first equal record is removed, and the edited marks move down with the records after it and drop with the removed one; with no equal record nothing changes |
| ProjectScreen.ProjectScreen.ResetProjects | creative_dashboard/screens/project.py:116-118 | the project list becomes empty, no edited record is left, the settings are untouched, and the next start loads exactly that document |
| ProjectScreen.ProjectScreen.SaveProject | creative_dashboard/screens/project.py:234-256 | an empty trimmed name changes nothing; otherwise only the edited record changes, in place, the list keeps its length, and that record's history shares itself until the record leaves the document |
| ProjectScreen.DeleteTracksSharing | creative_dashboard/screens/project.py:107-114 | deleting moves every later record one place down and leaves every edited mark on the record it marked before |
| ProjectScreen.DeleteEditedThenRestart | creative_dashboard/screens/project.py:107-114 | once the only edited record is deleted no history shares itself, and the next start loads the document as left |
| ProjectScreen.FirstOfTwoShared | creative_dashboard/main.py:151-156 | with two records the first of which shares its history, the next start has no projects; after deleting that record it has the second |
| ProjectScreen.EditThenRestartLosesProjects | creative_dashboard/screens/project.py:240-256 | an example: after editing the first of two records the next start has no projects, and after deleting the edited record it has the other one |
| Stats.RecentFromCounts | creative_dashboard/screens/stats.py:17-20 | the recent count fails exactly when some non-empty due date does not parse; otherwise it counts the projects dated on or after the bound, and it is at most the total |
| Stats.FutureCounted | creative_dashboard/screens/stats.py:16-19 | a project due today or later is counted as recent, so there is no upper bound |
| Stats.StreakKeysMembers | creative_dashboard/screens/stats.py:21-25 | a (name, recurrence) key is in the streak dictionary exactly when some completed recurring project has it, and no key appears twice |
| Stats.StreakTotal | creative_dashboard/screens/stats.py:21-25 | the streak counts add up to the number of completed recurring projects |
| Stats.StreaksWithinCompleted | creative_dashboard/screens/stats.py:15-25 | the streak counts add up to at most the completed count |
| Stats.ComputeStreaks | creative_dashboard/screens/stats.py:21-25 | the loop builds the dictionary's keys in insertion order, and for each key the number of completed recurring projects with that name and recurrence |
| Stats.StreakTextEmptyIff | creative_dashboard/screens/stats.py:26 | the streak text is "No streaks yet 📉" exactly when there are no streaks |
| Stats.StatsErrorIff | creative_dashboard/screens/stats.py:16-36 | the summary is the error text exactly when a week before today is not a date or some non-empty due date does not parse |
| Stats.StatsFigures | creative_dashboard/screens/stats.py:14-33 | otherwise the summary shows the total, the completed count (at most the total), the recent count (at most the total) and the streak text |
| Stats.StatsScreen.OnEnter | creative_dashboard/screens/stats.py:10-36 | entering the screen sets the summary to the statistics of the current project list |
| Home.HomeEmptyIff | creative_dashboard/screens/home.py:15 | the summary is "No projects yet! 📋" exactly when there are no projects |
| Home.CompletedMatchesFilter | creative_dashboard/screens/home.py:14 | the completed count equals the number of projects the project screen's Completed filter shows |
| Home.HomeScreen.OnPreEnter | creative_dashboard/screens/home.py:12-15 | entering the screen sets the summary from the current project list and changes nothing else |

## Left out

- Kivy widgets, popups, spinners, the text-input canvas drawing, `Clock` scheduling and the label layout of `update_project_list` are UI work. The model keeps only the form values the methods read and write: the name box, the due-date box and the recurrence spinner.
- `on_window_resize` is left out: its font and window scaling is float arithmetic for the UI only.
- `set_category` and `set_recurrence` only assign their field; no refresh is bound to either. `set_sort_by`, `set_filter_status` and `set_filter_recurrence` assign their field and then refresh the list. None of the five is modelled as a method; the list the last three refresh is `ProjectList.Query` over a `ListView`.
- JSON file I/O is left out. `load_data` is modelled on a `Source`: a missing file, an unreadable or unparsable file, or a parsed document. `save_data` is modelled by `Dump`, the document it writes.
- Parsed JSON values are simplified. A dict entry's fields and the settings are strings and options. A `projects` value that is not a list, non-string field values, and keys the app never reads are not modelled.
- PyText.Lower: `str.lower()` is modelled for ASCII letters only; other characters are kept as they are.
- `datetime.now()` is a parameter. `today` is passed to the notification check and to the statistics screen, and the history timestamp is an opaque string passed to `SaveProject`. The content of the `isoformat` string is not modelled.
- `plyer.notification.notify` is left out as a side effect. `ScheduleNotifications` returns the `(name, days_left, message)` records it would send.
- `save_project` takes shallow `project.copy()` copies as the history entry's "old" and "new" values, and both share the live `history` list, so the history ends up containing itself. The model's history entries hold the scalar fields as values (`Snapshot`), which is the evidently intended behaviour; the consequence of the aliasing is modelled by `MainApp.WrittenFile` and by the positions of the edited records that `MainApp.MainApp.selfSharing` tracks through delete and reset (see Findings), not the aliasing itself. The cycle lasts until the edited record leaves the document, by `delete_project` or `reset_projects`.
- ProjectScreen.ProjectScreen.DeleteProject: records are compared as values. Python's `in` and `list.remove` compare by identity first and then with `==`, which on two distinct records that both contain themselves may recurse until it raises; that case is not modelled.
- `save_project` receives the project dict itself; the model names it by its position in the list. Two equal records at different positions are therefore distinct in the model.
- The `"9999-12-31"` default in the date sort key and the `"Not Started"` default in the status key apply only to a record without that key. Every loaded or created record has both, so these defaults are not modelled.
- The error branches of the home screen, of `update_project_list` (apart from the unknown status under the status sort) and of `save_project` cannot be reached with the typed records of the model, so they are not modelled. The statistics abort is modelled (`Stats.StatsErrorIff`).
- `print` logging is left out.
- The settings screen (theme lookup in the Windows registry, theme colours, export and import) is UI and file work. Import replaces the whole document without normalising it. `utils/data_manager.py` is an unused loader with only I/O. Neither is part of this model.
- `MainApp.MainApp.ScheduleNotifications` models one daily check; the daily repetition through `Clock` is left out.
- PyText.RunZero: the decimal-digit table is that of Unicode 15.0, which Python 3.12 uses; other Python versions have other tables.
- MainApp.MainApp.SaveData: the exact truncated text left in the file is not modelled, only that it no longer parses.

## Findings

| source | as written | input that shows it | evidently intended | confidence | as-written member | corrected member |
|---|---|---|---|---|---|---|
| creative_dashboard/screens/project.py:240-256 | the history entry holds shallow copies that share the record's history list, so after one edit the document contains itself until that record is deleted or the list reset; `save_data` (creative_dashboard/main.py:151-156) then truncates the data file and fails with "Circular reference detected", and the next `load_data` falls back to the empty default document | any accepted `save_project`, then quitting and restarting the app without deleting the edited record | the history entry records the fields before and after the edit as values, and saving then loading gives the document back | high, not executed | ProjectScreen.EditThenRestartLosesProjects | MainApp.SaveThenLoad |
