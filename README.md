# Jamaat Jottings calendar — a Dafny model

Jamaat Jottings is a React calendar for the West Midlands jamaat. It lists upcoming events by auxiliary
(Atfal, Khuddam, Lajna, Ansar) and scope (Local, Regional, National), and shows this or next weekend's
events. It shows the day's and the week's prayer times (namaz), and exports an event as an iCalendar file
or a Google Calendar link. Behind a sign-in gate, the app has admin screens for editing events and
prayer timings.

This project models the rules of that app with the JSX stripped away:

- the records of `src/types/events.ts` (module `Events`);
- the event filters and the sort of the list and the weekend section (`EventsList`, `WeekendSection`);
- the filter bar (`FilterBar`);
- the prayer-time widget (`NamazWidget`);
- the iCalendar and Google Calendar export (`EventDetailModal`);
- the prayer-timing edit buffer (`AdminNamaz`);
- the event form mapping and handlers (`AdminEvents`);
- the sign-in and sign-up page (`AuthPage`) and the admin gate (`AdminPage`);
- the colour maps (`AuxiliaryColors`).

Two infrastructure modules support them:

- `Dates` holds a proleptic Gregorian calendar on day numbers counted from 1970-01-01. The weekday is
  a function of the day number. It also has `Date.prototype.toISOString` on millisecond instants, and
  the parsing of local `YYYY-MM-DDTHH:MM:SS` strings.
- `Strings` holds code-point string comparison, the UTF-16 length JavaScript reports, decimal digits, padding, `join`/`split` on CR LF, and the
  character maps of the file-name slug.

`MockData` holds the fixtures of `src/data/mockData.ts` and worked examples on them.

Conventions of the model:

- The clock becomes a parameter: `nowMs`, milliseconds since the epoch.
- The time zone becomes a fixed offset: `offsetMs`, where local time is UTC plus the offset.
- A TypeScript optional field is an `Option`. JavaScript's `x || d` on an optional string is
  `Events.OrElse`, and `if (x)` is `Events.Truthy`.
- Mutation results (`mutateAsync`, `signIn`, `signUp`) become inputs: a `resolves` flag, or an optional
  error message.
- `confirm()` is a boolean input, and the Supabase session is an optional user id.
- State that a component updates in place becomes a class with `modifies` clauses: the prayer-timing
  editor, the event manager's dialogs, the auth page's loading flag and toasts, and the widget's
  `expanded` flag.
- A Dafny string is a sequence of Unicode code points. Where the app counts UTF-16 code units, the model
  says so with `Strings.Utf16Length`.
- `Events.Qiadat` and the event's `qiadat` field are not declared in `src/types/events.ts`, though the
  admin form imports the type from there. The values are the form's options
  (`AdminEventManagement.tsx:296-302`); the field is what the form writes (line 49) and the admin list
  shows (line 164).
- The week loop of the prayer widget and the branchy window start of the weekend section are methods
  with loops or branches, each proved against a specification function.

Three behaviours of the source are modelled exactly as written:

- `FilterState` has no `qiadat` field. So the clause at `EventsList.tsx:22` and `WeekendSection.tsx:42`
  drops every event that carries a qiadat when the Local scope is selected. See `EventsList.QiadatClause`.
- On a Sunday, `getDay() >= 5` is false. The weekend section then shows the *next* Friday to Sunday,
  while its title says "This Weekend". See `WeekendSection.TitleAndWindow`.
- The admin gate shows the full panel to a signed-in user whose profile is missing. See `AdminPage.View`.

## Model

| member | source | states |
|---|---|---|
| Events.ParseAuxiliary | src/types/events.ts:1 | a tag names an auxiliary iff it is one of the four database tags Atfal, Khuddam, Lajna, Ansar; the parse inverts `AuxiliaryName` |
| Events.ParseScope | src/types/events.ts:2 | a tag names a scope iff it is Local, Regional or National; the parse inverts `ScopeName` |
| Events.ParseAdminRole | src/types/events.ts:3 | a tag names an admin role iff it is one of the four role tags; the parse inverts `AdminRoleName` |
| Events.NamesInjective | src/types/events.ts:1-3 | distinct enumeration values (auxiliary, scope, role, and the admin form's qiadat) have distinct tags |
| Events.OrElse | src/components/calendar/EventsList.tsx:36-37 | `x \|\| d` is the string when it is present and non-empty, and the fallback otherwise |
| Strings.Compare | src/components/calendar/EventsList.tsx:33 | the comparison is -1, 0 or 1, and 0 exactly on equal strings |
| Strings.CompareFlip | src/components/calendar/EventsList.tsx:33 | swapping the operands negates the comparison |
| Strings.CompareTrans | src/components/calendar/EventsList.tsx:31-39 | the order is transitive, and strictly so when one step is strict |
| Strings.Utf16Length | src/components/calendar/EventDetailModal.tsx:74 | the UTF-16 length is at least the number of code points, and equal to it iff every character is in the Basic Multilingual Plane |
| Strings.Utf16LengthConcat | src/components/calendar/EventDetailModal.tsx:74 | the UTF-16 length of a concatenation is the sum of the lengths |
| Strings.CompareTotal | src/components/calendar/EventsList.tsx:31-39 | any two strings are ordered one way or the other |
| Dates.CivilOf | src/components/calendar/NamazWidget.tsx:14-19 | every day number is the day number of exactly the valid civil date returned |
| Dates.CivilOfDayNumber | src/components/calendar/NamazWidget.tsx:14-19 | converting a valid civil date to its day number and back gives the same date |
| Dates.DayNumberOrder | src/components/calendar/WeekendSection.tsx:30-31 | day numbers order civil dates chronologically, and equal day numbers mean equal dates |
| Dates.WeekdayShift | src/components/calendar/NamazWidget.tsx:26-27 | moving k days on moves the weekday k places round the week |
| Dates.IsoDatePart | src/components/calendar/EventsList.tsx:13 | `toISOString().split('T')[0]` is defined exactly on valid instants, and is the date key of the instant's UTC day |
| Dates.KeyOrder | src/components/calendar/EventsList.tsx:29 | for four-digit years, date keys compare as strings exactly as their days compare in time |
| Dates.KeyLength | src/components/calendar/EventsList.tsx:13 | for four-digit years a date key has ten characters |
| Dates.ParseIsoDateOfKey | src/components/calendar/EventDetailModal.tsx:46 | the date part of a local date-time string reads back the civil date whose key it is |
| Dates.KeyOfParseIsoDate | src/components/calendar/EventDetailModal.tsx:46 | any date string that parses is the key of the date it parses to |
| Dates.ParseClock | src/components/calendar/EventDetailModal.tsx:46 | an 'HH:MM' time that reads gives a minute count from 0 to 24 hours |
| Dates.EndOfDayClock | src/components/calendar/EventDetailModal.tsx:46 | '24:00' reads as the end of the day, and '24:01' does not read |
| Dates.LocalDateTimeOf | src/components/calendar/EventDetailModal.tsx:46-48 | a ten-character date, 'T', a five-character time and ':00' read as the local instant of that date and time, and as nothing when either part does not read |
| Dates.LocalInstant | src/components/calendar/EventDetailModal.tsx:46 | a local date and time is local midnight plus the time of day, and is a valid instant when defined |
| EventsList.KeepEventIff | src/components/calendar/EventsList.tsx:16-30 | the filter callback keeps an event iff it matches the auxiliary, scope, qiadat and sports selections and does not start before today |
| EventsList.QiadatClause | src/components/calendar/EventsList.tsx:22-24 | the qiadat clause matters only under the Local scope; there it rejects every event with a qiadat and admits one without |
| EventsList.InitialPassesAll | src/components/calendar/EventsList.tsx:18-26 | the initial selections (All, All, not sports only) reject no event |
| EventsList.FilterEvents | src/components/calendar/EventsList.tsx:15-30 | every kept event passes the callback, and the result holds each passing input event as often as the input does and no other |
| EventsList.FilterEventsMembers | src/components/calendar/EventsList.tsx:15-30 | an event is in the result iff it is in the input and passes the callback |
| EventsList.CompareEvents | src/components/calendar/EventsList.tsx:31-39 | the comparator orders by start date, and on equal dates by start time with '00:00' for a missing time; it is 0 iff both agree |
| EventsList.CompareEventsFlip | src/components/calendar/EventsList.tsx:31-39 | the comparator is antisymmetric |
| EventsList.CompareEventsTrans | src/components/calendar/EventsList.tsx:31-39 | the comparator is transitive |
| EventsList.SameDateByTime | src/components/calendar/EventsList.tsx:36-38 | on one start date, events compare by their start times with '00:00' standing for a missing time |
| EventsList.Insert | src/components/calendar/EventsList.tsx:31-39 | inserting into an ascending list gives an ascending list with exactly one more occurrence of the event |
| EventsList.SortByStart | src/components/calendar/EventsList.tsx:31-39 | the sort yields a permutation of its input that is ascending under the comparator |
| EventsList.Today | src/components/calendar/EventsList.tsx:12-13 | today is the date key of the current instant's UTC day |
| EventsList.GetFilteredEvents | src/components/calendar/EventsList.tsx:11-40 | the list is a permutation of exactly the events that match the selections and start today or later, sorted by start date and time |
| EventsList.ListedIff | src/components/calendar/EventsList.tsx:11-40 | an event is listed iff it is an input event that matches the selections and does not start before today |
| EventsList.CutoffIsChronological | src/components/calendar/EventsList.tsx:29 | for four-digit years the string cutoff `start_date >= today` holds iff the event's day is today or later |
| WeekendSection.WindowStart | src/components/calendar/WeekendSection.tsx:17-28 | the window starts on a Friday: today on Friday, yesterday on Saturday, and otherwise the first Friday from today, which is five days on for a Sunday |
| WeekendSection.WindowStartDay | src/components/calendar/WeekendSection.tsx:17-28 | the specification of the window start always gives a Friday |
| WeekendSection.WindowStartDayIsStart | src/components/calendar/WeekendSection.tsx:17-28 | the Friday rule of the branches (yesterday on Saturday, else the first Friday from today) determines the start uniquely |
| WeekendSection.WindowEnd | src/components/calendar/WeekendSection.tsx:30-31 | the window ends two days after it starts, on the Sunday after a Friday start |
| WeekendSection.WindowKey | src/components/calendar/WeekendSection.tsx:33-34 | the key of a local day is defined iff its local midnight is a valid instant |
| WeekendSection.WindowKeyDay | src/components/calendar/WeekendSection.tsx:33-34 | the key of a local day is that day's date key west of or at UTC, and the previous day's key east of UTC |
| WeekendSection.WindowEvents | src/components/calendar/WeekendSection.tsx:36-50 | every returned event matches the selections and starts between the two keys, and each such input event is kept as often as it occurs |
| WeekendSection.WindowEventsConcat | src/components/calendar/WeekendSection.tsx:36-50 | the filter keeps input order: filtering a concatenation concatenates the filtered parts |
| WeekendSection.WindowEventsAll | src/components/calendar/WeekendSection.tsx:36-50 | a list whose events all fall in the window comes back unchanged |
| WeekendSection.GetWeekendEvents | src/components/calendar/WeekendSection.tsx:12-51 | there is a result iff both window keys are defined, and then it is exactly the window events for the Friday rule applied to the local day |
| WeekendSection.TitleAndWindow | src/components/calendar/WeekendSection.tsx:18-55 | on Friday and Saturday "This Weekend" and the window agree; on Sunday the title says this weekend but the window starts after today; on other days the window is ahead |
| WeekendSection.WindowChronological | src/components/calendar/WeekendSection.tsx:49 | at or west of UTC, an event is in the window iff it matches and its day falls from Friday to Sunday |
| WeekendSection.WindowShiftedEast | src/components/calendar/WeekendSection.tsx:33-49 | east of UTC the keys are a day early, so the window covers Thursday to Saturday |
| FilterBar.UpdateFilter | src/components/calendar/FilterBar.tsx:14-16 | the updated state holds the value at the key and keeps every other field |
| FilterBar.FieldsDetermine | src/components/calendar/FilterBar.tsx:14-16 | two filter states with equal fields are equal |
| FilterBar.UpdateFilterLaws | src/components/calendar/FilterBar.tsx:14-16 | writing a field's own value changes nothing, and the last of two writes to a key wins |
| FilterBar.ResetFilters | src/components/calendar/FilterBar.tsx:18-20 | reset yields the initial state, under which no filter is active |
| FilterBar.ActiveIffNotInitial | src/components/calendar/FilterBar.tsx:22 | a filter is active exactly when the state differs from the initial one |
| FilterBar.ToggleSports | src/components/calendar/FilterBar.tsx:73 | the sports button negates sports only and keeps the other selections |
| FilterBar.ToggleSportsTwice | src/components/calendar/FilterBar.tsx:73 | two presses of the sports button restore the state |
| FilterBar.OptionsComplete | src/components/calendar/FilterBar.tsx:10-11 | every auxiliary and scope selection is offered, each once |
| NamazWidget.LocalKeyIsIsoDate | src/components/calendar/NamazWidget.tsx:14-19 | for four-digit years the local key is the ten-character zero-padded `YYYY-MM-DD` form, and it reads back as its date |
| NamazWidget.LocalKeyInjective | src/components/calendar/NamazWidget.tsx:14-19 | for four-digit years, two days have the same local key iff they are the same day |
| NamazWidget.FirstIndex | src/components/calendar/NamazWidget.tsx:22 | the index is that of the first record with the key, or the length when there is none |
| NamazWidget.FindByDate | src/components/calendar/NamazWidget.tsx:22 | `find` gives nothing iff no record has the key, and otherwise the first record with it |
| NamazWidget.Placeholder | src/components/calendar/NamazWidget.tsx:38-45 | the placeholder carries the slot's date, '--:--' for all five prayers and no jumuah or notes |
| NamazWidget.Slot | src/components/calendar/NamazWidget.tsx:37-46 | a week slot holds the first record with its date, or else the placeholder for that date |
| NamazWidget.MondayOf | src/components/calendar/NamazWidget.tsx:25-28 | the anchor is a Monday at most six days before today, so a Sunday anchors six days back |
| NamazWidget.WeekRows | src/components/calendar/NamazWidget.tsx:24-47 | the week has exactly seven slots |
| NamazWidget.GetWeekTimings | src/components/calendar/NamazWidget.tsx:24-47 | the loop yields the week rows, slot i keyed by the i-th day from Monday, and today's slot keyed by today |
| NamazWidget.TodayInWeek | src/components/calendar/NamazWidget.tsx:22-35 | today's slot is among the seven, and today's record, when there is one, is shown in the week |
| NamazWidget.RowDate | src/components/calendar/NamazWidget.tsx:31-38 | row i of the week carries the key of the i-th day from Monday |
| NamazWidget.WeekDatesDistinct | src/components/calendar/NamazWidget.tsx:30-35 | the seven rows carry seven distinct dates |
| NamazWidget.FormatTime | src/components/calendar/NamazWidget.tsx:49-59 | '--:--' passes through unchanged, and any other time goes to the locale formatter |
| NamazWidget.PlaceholderRendersBlank | src/components/calendar/NamazWidget.tsx:37-50 | a placeholder slot renders '--:--' for all five prayers |
| NamazWidget.WidgetView | src/components/calendar/NamazWidget.tsx:71-177 | the no-timings card shows iff there is no record for today and the view is collapsed; today's view iff there is one and it is collapsed, and then it shows the first record with today's key; the week iff expanded, and then it shows the seven week rows; in today's view the jumuah block shows iff today is a Friday and the record has a first jumuah time, and the second time iff the block shows and the record has one; the week view shows neither |
| NamazWidget.FridayShowsJumuah | src/components/calendar/NamazWidget.tsx:169 | on a Friday with a first jumuah time, the collapsed widget shows the jumuah block |
| NamazWidget.WidgetState.Toggle | src/components/calendar/NamazWidget.tsx:95 | the toggle negates `expanded` |
| EventDetailModal.DisplayLocation | src/components/calendar/EventDetailModal.tsx:38-43 | National events show their own location, Local and Regional events the mosque's address |
| EventDetailModal.StartInstant | src/components/calendar/EventDetailModal.tsx:46 | the start is a valid instant when the date string is valid |
| EventDetailModal.StartInstantOf | src/components/calendar/EventDetailModal.tsx:46 | the start is the local instant of the start date at the start time, midnight when there is none |
| EventDetailModal.EndInstant | src/components/calendar/EventDetailModal.tsx:47-49 | with both an end date and an end time, the end is the reading of that local date and time; without both, the end is 24 hours after the start for all-day events and 1 hour otherwise, so it lies after the start; it is invalid when the start is |
| EventDetailModal.EndInstantOf | src/components/calendar/EventDetailModal.tsx:47-48 | with both an end date and an end time, the end is the local instant of that date at that time, and nothing when either does not read |
| EventDetailModal.FormatIcsDate | src/components/calendar/EventDetailModal.tsx:51-53 | a stamp exists exactly for valid instants |
| EventDetailModal.UtcStamp | src/components/calendar/EventDetailModal.tsx:51-53 | the stamp has the 16 characters of the UTC form of RFC 5545 section 3.3.5 and no CR |
| EventDetailModal.IcsStampShape | src/components/calendar/EventDetailModal.tsx:51-53 | for four-digit years, stripping '-' and ':' from `toISOString` and cutting the fraction gives the `YYYYMMDDTHHMMSSZ` stamp of the instant's UTC day and time |
| EventDetailModal.IcsLines | src/components/calendar/EventDetailModal.tsx:55-67 | twelve lines: BEGIN:VCALENDAR, VERSION:2.0, the mosque's PRODID, BEGIN:VEVENT; UID from the id and the mosque domain; DTSTART, DTEND, SUMMARY, DESCRIPTION (empty when absent) and LOCATION (the display location); END:VEVENT, END:VCALENDAR; in that order |
| EventDetailModal.Stamps | src/components/calendar/EventDetailModal.tsx:46-53 | both stamps exist iff both instants are valid |
| EventDetailModal.IcsContent | src/components/calendar/EventDetailModal.tsx:55-68 | the file text exists iff both stamps do |
| EventDetailModal.IcsFraming | src/components/calendar/EventDetailModal.tsx:55-68 | the joined text starts with BEGIN:VCALENDAR and ends with END:VCALENDAR, with no trailing CR LF |
| EventDetailModal.JoinedLinesRecovered | src/components/calendar/EventDetailModal.tsx:68 | joining CR-free lines with CR LF and splitting again gives back the lines |
| EventDetailModal.IcsLinesRecovered | src/components/calendar/EventDetailModal.tsx:55-68 | when the event's texts hold no CR, the file text splits back into exactly its twelve lines |
| EventDetailModal.IcsContentLines | src/components/calendar/EventDetailModal.tsx:45-68 | the file is the twelve lines with the UTC stamps of start and end, joined by CR LF, and splits back into them |
| EventDetailModal.SplitsAtCrlf | src/components/calendar/EventDetailModal.tsx:68 | a text holding a CR LF splits into at least two pieces |
| EventDetailModal.DescriptionBreaksLines | src/components/calendar/EventDetailModal.tsx:64-68 | an unescaped description holding CR LF makes the file split into more than twelve lines |
| EventDetailModal.ReplaceNonAlnum | src/components/calendar/EventDetailModal.tsx:74 | the replacement has the title's UTF-16 length and only ASCII letters, digits and '_'; in a title inside the Basic Multilingual Plane each letter or digit is kept in place and every other character becomes '_' |
| EventDetailModal.ReplaceNonAlnumConcat | src/components/calendar/EventDetailModal.tsx:74 | the replacement works character by character: it maps a concatenation to the concatenation of the replaced parts |
| EventDetailModal.FileNameShape | src/components/calendar/EventDetailModal.tsx:74 | the file name has the title's UTF-16 length plus four, ends in '.ics', and before that holds only lower-case letters, digits and '_'; in a title inside the Basic Multilingual Plane position i is '_' iff title character i is not an ASCII letter or digit, and is otherwise that character lower-cased |
| EventDetailModal.AstralTitleFileName | src/components/calendar/EventDetailModal.tsx:74 | a title of one emoji outside the Basic Multilingual Plane gives '__.ics', one '_' per UTF-16 code unit |
| EventDetailModal.GoogleParams | src/components/calendar/EventDetailModal.tsx:79-94 | the parameters are action=TEMPLATE, text, dates as the two stamps joined by '/', details (empty when absent) and location, in that order; none for an invalid date |
| EventDetailModal.GoogleDatesMatchIcs | src/components/calendar/EventDetailModal.tsx:61-92 | the link's dates are the stamps of the file's DTSTART and DTEND lines |
| AuxiliaryColors.BadgeVariant | src/utils/auxiliaryColors.ts:3-16 | the badge variant is the auxiliary's name in lower case, never the 'auxiliary' default |
| AuxiliaryColors.BadgeVariantInjective | src/utils/auxiliaryColors.ts:3-12 | distinct auxiliaries get distinct badge variants |
| AuxiliaryColors.FilterColor | src/utils/auxiliaryColors.ts:18-32 | inactive chips share one class list; an active chip names its auxiliary's own background and border classes |
| AuxiliaryColors.FilterColorDistinguishes | src/utils/auxiliaryColors.ts:19-29 | active chips of distinct auxiliaries differ, and inactive chips are all alike |
| AdminNamaz.WithField | src/components/admin/AdminNamazManagement.tsx:35 | the patched row holds the value in the field and keeps every other field |
| AdminNamaz.FieldsDetermine | src/components/admin/AdminNamazManagement.tsx:35 | two rows with equal fields are equal |
| AdminNamaz.WithFieldLaws | src/components/admin/AdminNamazManagement.tsx:33-37 | the last write to a field wins, and writes to different fields commute |
| AdminNamaz.NewTimingRow | src/components/admin/AdminNamazManagement.tsx:44-54 | a new row has the given date, prayer times 06:00, 12:30, 15:00, 17:30 and 19:00, jumuah 13:00 and 13:45, and empty notes |
| AdminNamaz.DayOfShift | src/components/admin/AdminNamazManagement.tsx:41 | adding k whole days to an instant moves its UTC day k on |
| AdminNamaz.RowsShown | src/components/admin/AdminNamazManagement.tsx:142 | the table shows the buffer while editing and the stored timings otherwise |
| AdminNamaz.EmptyStateOrTable | src/components/admin/AdminNamazManagement.tsx:120-142 | the empty message shows iff editing is off and there are no rows to show |
| AdminNamaz.NamazEditor.constructor | src/components/admin/AdminNamazManagement.tsx:15-16 | the editor starts with an empty buffer, not editing |
| AdminNamaz.NamazEditor.StartEditing | src/components/admin/AdminNamazManagement.tsx:18-21 | the buffer becomes a copy of the stored timings and editing is on |
| AdminNamaz.NamazEditor.CancelEditing | src/components/admin/AdminNamazManagement.tsx:28-31 | the buffer is emptied and editing is off |
| AdminNamaz.NamazEditor.SaveChanges | src/components/admin/AdminNamazManagement.tsx:23-26 | the whole buffer goes to the upsert, the buffer is kept, and editing ends only when the save resolves |
| AdminNamaz.NamazEditor.UpdateTiming | src/components/admin/AdminNamazManagement.tsx:33-37 | the length is kept, row i gets the value in the field and keeps its other fields, and every other row is unchanged |
| AdminNamaz.NamazEditor.AddNewTimingRow | src/components/admin/AdminNamazManagement.tsx:39-57 | exactly one default row is appended after the old rows, dated the UTC date of now plus one day per existing row; nothing changes where that instant is invalid |
| AdminEvents.OptionalText | src/components/admin/AdminEventManagement.tsx:52-58 | `value \|\| undefined` is present iff the form text is present and non-empty, and is then that text |
| AdminEvents.PayloadOf | src/components/admin/AdminEventManagement.tsx:44-89 | the payload has a qiadat only for the Local scope, and then the form's; each switch is true iff it posted 'on'; each optional text is the form's text when that is present and non-empty, and absent otherwise; the other fields are copied |
| AdminEvents.PayloadHasNoEmptyOptionals | src/components/admin/AdminEventManagement.tsx:52-88 | no optional text of a payload is the empty string |
| AdminEvents.EditFormRoundTrip | src/components/admin/AdminEventManagement.tsx:74-393 | submitting an untouched edit form writes the event back, apart from empty optional texts becoming absent and a qiadat kept only for Local events |
| AdminEvents.RoleOptionsVersusRoles | src/components/admin/AdminEventManagement.tsx:314-319 | of the six role options, exactly 'Local Nazim', 'Sadar Jamaat' and 'Other' are not admin roles, and 'Sadr' is never offered |
| AdminEvents.QiadatOptionsComplete | src/components/admin/AdminEventManagement.tsx:296-302 | the seven qiadat options list every qiadat once |
| AdminEvents.HandleDeleteEvent | src/components/admin/AdminEventManagement.tsx:96-100 | the delete is sent, for the given id, iff the user confirms |
| AdminEvents.EventManager.constructor | src/components/admin/AdminEventManagement.tsx:25-27 | no event is selected and both dialogs are closed |
| AdminEvents.EventManager.EditClicked | src/components/admin/AdminEventManagement.tsx:187 | the clicked event is selected and the edit dialog opens; the create dialog is untouched |
| AdminEvents.EventManager.SetCreateDialogOpen | src/components/admin/AdminEventManagement.tsx:27 | only the create dialog's flag changes |
| AdminEvents.EventManager.SetEditDialogOpen | src/components/admin/AdminEventManagement.tsx:27 | only the edit dialog's flag changes |
| AdminEvents.EventManager.HandleCreateEvent | src/components/admin/AdminEventManagement.tsx:29-65 | without a session there is an error and no request; with one, the request carries the payload, the session user and the form's role; the dialog closes only when the create resolves |
| AdminEvents.EventManager.HandleUpdateEvent | src/components/admin/AdminEventManagement.tsx:67-94 | without a selected event nothing happens; otherwise the request carries the selected id and the payload, and a resolved update closes the dialog and clears the selection |
| AuthPage.MatchesDigitRunIff | src/pages/Auth.tsx:62 | the reading of `^\d{n}$` holds iff the string is exactly n decimal digits |
| AuthPage.AimsIdAcceptedIff | src/pages/Auth.tsx:62 | an AIMS ID is accepted iff it is absent, empty or exactly five decimal digits |
| AuthPage.AimsIdExamples | src/pages/Auth.tsx:62 | '12345' passes; '1234', '123456' and '12a45' fail |
| AuthPage.Screen | src/pages/Auth.tsx:19-98 | a signed-in user is redirected before anything else; otherwise the spinner shows iff auth is loading, and the forms iff not |
| AuthPage.SignInToast | src/pages/Auth.tsx:33-44 | the toast is destructive iff there is an error, and then carries the error message verbatim |
| AuthPage.SignUpToast | src/pages/Auth.tsx:74-85 | the toast is destructive iff there is an error, and then carries the error message verbatim |
| AuthPage.AuthForms.constructor | src/pages/Auth.tsx:15 | the page starts not loading, with no toasts |
| AuthPage.AuthForms.HandleSignIn | src/pages/Auth.tsx:23-47 | the email and password go to `signIn` as read from the form; the page is busy while waiting, ends not loading, and adds the one toast the result calls for |
| AuthPage.AuthForms.HandleSignUp | src/pages/Auth.tsx:49-88 | the sign-up request is sent, with the form's fields, iff the AIMS ID is accepted; otherwise the invalid-ID toast; every path ends not loading |
| AdminPage.View | src/pages/Admin.tsx:17-76 | loading wins; then no user redirects to /auth; then a present unapproved profile gives the pending screen; everything else, a missing profile included, gives the panel |
| MockData.FilterEventsConcat | src/components/calendar/EventsList.tsx:15-30 | filtering a concatenation concatenates the filtered parts |
| MockData.KhuddamKept | src/data/mockData.ts:3-102 | up to 2025-09-27, the Khuddam selection keeps EVT-001 and EVT-004 of the fixtures, in that order |
| MockData.KhuddamUpcoming | src/data/mockData.ts:3-102 | up to 2025-09-27, the list under the Khuddam selection is EVT-001 then EVT-004 |
| MockData.CalendarCalibration | src/data/mockData.ts:132 | 2025-09-26 is day 20357 after the epoch and a Friday |

## Left out

- Locale formatting is not modelled: `toLocaleDateString`, `toLocaleTimeString` and date-fns `format`.
  `NamazWidget.FormatTime` takes the formatter as a function parameter; only the '--:--' pass-through is
  the app's own rule.
- Browser I/O is not modelled: Blob, `URL.createObjectURL`, the anchor click, `window.open` and
  `navigator.share`. The model stops at the file text, the file name and the link's parameter list.
- The percent-encoding that `URLSearchParams` applies to the Google link is not modelled.
- The Supabase transport is not part of this model: src/hooks/useSupabaseData.tsx, react-query caching,
  the hook-level toasts and the database's upsert semantics. Mutations become a `resolves` flag or an
  optional error message.
- A rejected await is modelled as the handler stopping there. The statements after it do not run.
- src/components/admin/AdminUserManagement.tsx is not part of this model. Its hooks are not in the
  repository; what remains is confirm-gated calls and rendering.
- src/components/calendar/EventCard.tsx, src/components/ui/badge.tsx, src/pages/Index.tsx, the JSX and
  the styling are not part of this model.
- Daylight saving time is not modelled. Local time is UTC plus a fixed `offsetMs`.
  The clock is the parameter `nowMs`.
- Separate `new Date()` and `getDay()` readings within one render are treated as one reading of the clock.
- `localeCompare` and the string operators are modelled as code-point lexicographic order. That equals
  locale order on the ASCII digit-and-dash keys being compared.
- Strings.Compare: orders by code point, while JavaScript's `<` compares UTF-16 code units. The two
  orders differ only between a character from U+E000 to U+FFFF and one outside the Basic Multilingual
  Plane; the app compares only ASCII date and time keys.
- EventDetailModal.FileNameShape: a lone surrogate code unit cannot occur in a Dafny string, so titles
  holding one are not modelled. The positional clauses are stated for titles inside the Basic
  Multilingual Plane; other titles get the length, suffix and alphabet clauses.
- Dates.LocalDateTimeOf and EventDetailModal.EndInstantOf: stated for ten-character dates and
  five-character times, the shapes the date and time inputs produce. For other lengths only the
  definition of `Dates.ParseLocalDateTime` speaks.
- EventsList.SortByStart: stability of `Array.prototype.sort` is not stated. Ties are events with equal
  date and time.
- FilterBar.UpdateFilter: requires that the value fits the key. The source types the value as `any`,
  and every call site passes a fitting value (FilterBar.tsx:33, 55, 73).
- AdminNamaz.NamazEditor.UpdateTiming: requires an index inside the buffer. Every call site passes the
  index of a row the table is showing (AdminNamazManagement.tsx:149-244). Only string fields are written.
- AdminNamaz.NamazEditor.AddNewTimingRow: states the new date as `toISOString().split('T')[0]` of now
  plus the old length in days. A date key of the shifted day follows with `AdminNamaz.DayOfShift` and
  `Dates.IsoDatePart`.
- NamazWidget.GetWeekTimings: takes the day-to-key function as a parameter, and specialised to the local
  key by `NamazWidget.LocalKeyInjective`. The week lemmas are stated for any key function.
- A time of the form 'HH:MM:SS' in an event makes `new Date(...)` invalid, and the model returns None.
  It does not model the `RangeError` that `toISOString` then throws.
- `recurrence_rule` is stored and passed through, never expanded.
- iCalendar text escaping (RFC 5545 section 3.3.11) and line folding (RFC 5545 section 3.1) are not
  done by the app and are not added. `EventDetailModal.DescriptionBreaksLines` shows the consequence.
- AdminEvents.EditFormOf assumes how a browser posts the edit form. Text inputs post their default
  value. A switch posts 'on' only when checked. The qiadat select exists only for Local events.
- `confirm()` and the Supabase session become a boolean and an optional user id.
- The user-menu actions and sign-out of the admin page are not part of this model.
