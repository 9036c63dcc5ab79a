# Gym membership core, modelled in Dafny

This project models the core of a gym-membership admin tool, which has an Express/Mongoose server and a React dashboard. The model covers:

- **Member record** (`MemberModel`). The schema's validators are modelled: a ten-digit number, one of three plans, and an expiry later than now. So are the `membershipStatus` virtual, `isMembershipValid`, the daily check-in/check-out attendance marker and the date-range filter over the log.
- **Member endpoints** (`MemberRoutes`). The class `Store` holds the records by id and the ids in creation order. Its invariant says ids, numbers and days are unique and every record is valid. It has create with its ordered checks, and list with its conjunctive filter, `createdAt`-descending sort, skip/limit slice, total and page count. It also has read, update with its truthy-field patch, and soft delete.
- **Attendance endpoints** (`AttendanceRoutes`). These mark a member by path or by body and read one log. They also flatten the logs of all active members into one report with two nested loops.
- **Client state** (`MemberContext`). The pure `reducer` works over a member list and a date → member → present table. The module also covers how the client takes the member list out of the list reply. That part is wrong as written; see Findings.
- **Dashboard views**:
  - the member card's status and expiry text (`MemberCardView`);
  - the stats page's buckets (`StatsList`);
  - the dashboard's stat counts (`Dashboard`);
  - the member page, with its search, nine cards per page, the page buttons and the add-member form checks (`MemberPage`);
  - the attendance page, with present-today, the last present date, the status label and the local "marked" flags (`AttendancePage`).
- **Small form state machines**. These are the plan list manager (`Plans`), with the add step it shares with the add-membership form, the add-membership form itself (`AddMembership`), and the two-step forgot-password flow (`ForgotPassword`).

Time is an integer number of milliseconds. "Now" is always passed in as a parameter. A calendar day is `Day(t) = t - t % DayMs`, the midnight at or before `t`. Client members are `ClientMember.Card` values: the JSON the server sends for a record, as the pages read it. `CardOf` builds the card the server would send for a stored member.

Behaviour of the code worth noting:

- **Duplicate number on create.** The route answers 400, not a separate conflict error.
- **Duplicate number on update.** The clash is caught by the unique index, not by a check in the route. MongoDB's duplicate-key error is not a `ValidationError`, so the route answers 500 (`MemberRoutes.UpdateOutcome`).
- **The stats page's 'inactive' bucket.** It tests the field `status`, which the server never sends; the virtual is called `membershipStatus`. Over cards the server sends, that bucket is always empty (`StatsList.InactiveEmptyOnServerCards`).
- **Names are trimmed.** The schema trims the name before it validates it, so a name of only spaces passes the route's presence check and is then refused by the required validator with 400. A name sent as " Bob " is stored as "Bob", on create and update alike (`MemberRoutes.CreateSpacesRefused`, `MemberRoutes.CreateBobTrimmed`).
- **Expiry exactly at now.** The dashboard's expiring-in-3-days count includes it, but the stats page lists it in no bucket (`Dashboard.ExpiringBoundaryDiffers`).

## Model

| member | source | states |
|---|---|---|
| Common.Day | backend/models/Member.js:93-94 | the day of an instant is a multiple of a day, at or before the instant and less than a day earlier |
| Common.DayIdempotent | backend/models/Member.js:93-94 | truncating an already truncated day changes nothing |
| Common.SameDay | backend/models/Member.js:96-100 | two instants share a day exactly when the second lies within a day after the first one's midnight |
| Common.Contains | fgms/src/Pages/Member/member.jsx:31 | `includes` is true exactly when the query occurs at some position of the text |
| Common.Lower | fgms/src/Pages/Member/member.jsx:31 | lower-casing keeps the length and maps each ASCII capital to its lower-case letter, leaving other characters alone |
| Common.LexTotal | fgms/src/Pages/Dashboard/dashboard.jsx:97 | the code-unit order a bare `sort()` uses relates any two strings |
| Common.LexTransitive | fgms/src/Pages/Dashboard/dashboard.jsx:97 | that order is transitive |
| Common.LexAntisymmetric | fgms/src/Pages/Dashboard/dashboard.jsx:97 | that order is antisymmetric, hence the last element after sorting is unique |
| Common.FilterMembers | fgms/src/Pages/Member/statsList.jsx:6-34 | `filter` keeps every element meeting the predicate and only elements of the input |
| Common.FilterIsSubsequence | fgms/src/Pages/Member/statsList.jsx:6-34 | `filter` keeps the input's order |
| Common.FilterSnoc | fgms/src/Pages/Dashboard/dashboard.jsx:104-108 | filtering a list extended by one element extends the result by that element exactly when it passes |
| Common.LeadingSpace | backend/models/Member.js:8 | the length of the whitespace run a string starts with: all whitespace up to it, and no whitespace right after it |
| Common.TrailingSpace | backend/models/Member.js:8 | the length of the whitespace run a string ends with: all whitespace from it on, and no whitespace right before it |
| Common.Trim | backend/models/Member.js:8 | the trim setter: the result is empty exactly when the text is all whitespace, and otherwise starts and ends with a character that is not whitespace |
| Common.TrimIsMiddle | backend/models/Member.js:8 | trimming removes whitespace at both ends and nothing else: the result is the text between two runs of whitespace |
| Common.TrimFixesTrimmed | backend/models/Member.js:8 | a trimmed text has no whitespace at either end, and trimming leaves a text unchanged exactly when it has none |
| Common.TrimIdempotent | backend/models/Member.js:8 | trimming twice is trimming once |
| Common.TrimExamples | backend/models/Member.js:8 | three spaces trim to nothing and " Bob " trims to "Bob" |
| Paging.CeilDiv | backend/routes/members.js:178 | `Math.ceil(n / d)`: the least count of pages of `d` items that holds `n` items |
| Paging.Window | backend/routes/members.js:163-164 | `skip(k).limit(n)` returns the items at positions `k`, `k+1`, … of the input, at most `n`, and none past its end |
| Paging.PageContents | fgms/src/Pages/Member/member.jsx:33 | page `p` holds at most `size` items, the items at positions `(p-1)*size` to below `p*size` |
| Paging.PagesDisjoint | fgms/src/Pages/Member/member.jsx:33 | two different pages draw on disjoint ranges of positions |
| Paging.PagesCover | fgms/src/Pages/Member/member.jsx:32-33 | pages 1 to `ceil(n / size)` concatenate to the whole list |
| Paging.PageBeyondLast | backend/routes/members.js:161-164 | a page past the last one is empty |
| MemberModel.RecordValidMeans | backend/models/Member.js:5-38 | a record validates exactly when its name is non-empty, its number is ten ASCII digits, its plan is Monthly, Quarterly or Yearly and its expiry is later than now; once the setter has trimmed the name, the name passes exactly when the text sent holds a character that is not whitespace |
| MemberModel.MembershipStatus | backend/models/Member.js:78-83 | inactive whenever not active, whatever the expiry; otherwise expired exactly when now is past the expiry, and active at or before it |
| MemberModel.ValidIffActiveStatus | backend/models/Member.js:86-89 | `isMembershipValid` holds exactly when the status is active |
| MemberModel.StatusLifecycle | backend/models/Member.js:78-83 | the status changes from active to expired with the clock alone, and a deactivated member is inactive at any time |
| MemberModel.FindDay | backend/models/Member.js:96-100 | the lookup returns the first entry on the day, or none when no entry is on it |
| MemberModel.MarkAttendance | backend/models/Member.js:92-121 | the search loop and the three branches compute the marked log |
| MemberModel.MarkNewDay | backend/models/Member.js:109-115 | the first mark of a day appends exactly one open entry for that day with the check-in, and leaves the old entries unchanged |
| MemberModel.MarkCheckOut | backend/models/Member.js:102-105 | the second mark of a day sets that entry's check-out; the length, the entry's day and check-in, and every other entry stay |
| MemberModel.MarkClosedDay | backend/models/Member.js:106-108 | a mark on a day already checked out leaves the log as it was, with no error |
| MemberModel.MarkPreservesOnePerDay | backend/models/Member.js:96-115 | marking keeps at most one entry per day, and the log grows by at most one |
| MemberModel.ThreeMarksOneDay | backend/models/Member.js:92-121 | three marks on one day leave a single entry: the first mark as check-in, the second as check-out |
| MemberModel.DateRangeIsOrderedSelection | backend/models/Member.js:124-129 | the range query returns, in log order, exactly the entries dated within the range, both ends included |
| MemberRoutes.CreateMissingFieldFirst | backend/routes/members.js:30-60 | a missing field gets a 400 naming the first one missing, in the order name, number, plan, expiry, whatever the store holds |
| MemberRoutes.CreateBadNumberBeforeLookup | backend/routes/members.js:63-70 | a number that is not ten digits gets its 400 before any duplicate lookup |
| MemberRoutes.CreateDuplicateNumber | backend/routes/members.js:74-81 | a number held by any member, active or not, gets a 400 |
| MemberRoutes.CreateSuccess | backend/routes/members.js:92-109 | a created record is valid and active, with an empty log, joined and created now, with the request's name trimmed (so with no whitespace at either end), the request's other fields and the default picture when none is given, and has a number nobody holds |
| MemberRoutes.CreateSucceedsIff | backend/routes/members.js:27-129 | a create succeeds exactly when every field is given, the name holds a character that is not whitespace, the number is ten digits and free, the plan is known and the expiry is later than now |
| MemberRoutes.CreateBlankName | backend/routes/members.js:92-129 | a name of whitespace only passes the route's checks but is trimmed to nothing, so the save refuses it with 400 |
| MemberRoutes.CreateSpacesRefused | backend/routes/members.js:92-129 | three spaces as the name get 400 |
| MemberRoutes.CreateBobTrimmed | backend/routes/members.js:92-109 | " Bob " as the name is stored as "Bob" |
| MemberRoutes.SortSpec | backend/routes/members.js:162 | the sort returns the same members, newest `createdAt` first |
| MemberRoutes.FilterSelects | backend/routes/members.js:146-158 | the filter keeps exactly the members meeting every given condition: the active flag, the plan, and `joined` within the inclusive bounds; an absent parameter imposes nothing |
| MemberRoutes.MatchingSpec | backend/routes/members.js:161-162 | the sorted matches are the filtered members, each once, newest first |
| MemberRoutes.SliceIsPage | backend/routes/members.js:163-178 | for a positive page and limit the slice is page `page`, and the page count is `ceil(total / limit)` |
| MemberRoutes.ListPageOfMatches | backend/routes/members.js:161-181 | the reply is page `page` of the matches sorted newest first; `total` counts every match, `pages` is `ceil(total / limit)`, and every listed member is stored and meets the filter |
| MemberRoutes.ListPastLastPage | backend/routes/members.js:161-181 | a page past the last is empty and still reports the full total |
| MemberRoutes.ListPagesCoverMatches | backend/routes/members.js:161-178 | pages 1 to `pages` of one query concatenate to all its matches |
| MemberRoutes.ListZeroLimit | backend/routes/members.js:163-178 | a zero limit lists every match and reports no page count, since `ceil(count / 0)` is not a number |
| MemberRoutes.UpdateTouchesOnlyPatch | backend/routes/members.js:236-254 | an update changes exactly the patched fields, a patched name trimmed; the id, join date, creation time and log never change |
| MemberRoutes.UpdateUnknownId | backend/routes/members.js:256-262 | an unknown id gets 404 once the patch passes the validators (a patched name must not trim to nothing), and 400 otherwise |
| MemberRoutes.UpdateKeepsRecordValid | backend/routes/members.js:247-254 | an updated record is still valid with a trimmed name, keeps its log and holds a number no other record holds |
| MemberRoutes.PatchOf | backend/routes/members.js:236-244 | the patch holds each text field exactly when the body's is truthy, and then with the body's value; the expiry as given, and `isActive` whenever it is defined |
| MemberRoutes.Deactivated | backend/routes/members.js:294-298 | a soft delete makes that record inactive and keeps its other fields, every other record and the set of ids |
| MemberRoutes.DeleteIdempotent | backend/routes/members.js:294-298 | a second delete of a known id finds it again and leaves the records exactly as the first left them |
| MemberRoutes.DeactivatedKeepsInv | backend/routes/members.js:294-298 | a soft delete keeps the store's invariant |
| MemberRoutes.AddKeepsInv | backend/routes/members.js:92-103 | saving a new valid record with a free number under the next id keeps the store's invariant |
| MemberRoutes.ReplaceKeepsInv | backend/routes/members.js:247-254 | replacing a record by a valid one whose number no other record holds keeps the invariant |
| MemberRoutes.RecordsOf | backend/routes/members.js:161 | the stored records listed in the given order of ids |
| MemberRoutes.Store.constructor | backend/routes/members.js:92-103 | the store starts empty and valid |
| MemberRoutes.Store.Members | backend/routes/members.js:161 | the members in creation order, one per id of `order` |
| MemberRoutes.Store.Create | backend/routes/members.js:22-131 | the reply is the create outcome for the numbers in use (so with the name trimmed); only a success stores anything, adding one record at the end of the order; the invariant, trimmed names included, is kept |
| MemberRoutes.Store.List | backend/routes/members.js:134-195 | the route over the stored members in creation order gives the declarative list outcome: filter, sort newest first, slice, total and page count |
| MemberRoutes.ListOver | backend/routes/members.js:146-181 | the route's steps (a failing date, the query, a negative skip, then find, sort and slice) give the declarative list outcome |
| MemberRoutes.BuildQuery | backend/routes/members.js:146-158 | the query built field by field holds the active flag when it is given, the plan when it is truthy, and each date bound when it is given |
| MemberRoutes.QuerySelects | backend/routes/members.js:146-161 | filtering by the route's query keeps the same members, in the same order, as the declarative selection |
| MemberRoutes.Store.Get | backend/routes/members.js:198-229 | the stored record, or 404 |
| MemberRoutes.Store.Update | backend/routes/members.js:232-288 | the reply is the update outcome (so a patched name is trimmed and must not trim to nothing); only a success writes, and it writes that one record; the order and the invariant are kept |
| MemberRoutes.Store.Delete | backend/routes/members.js:291-326 | a known id succeeds and the records become the soft-deleted ones; an unknown id gets 404 and nothing changes; the order and the invariant are kept |
| AttendanceRoutes.AfterMark | backend/routes/attendance.js:19-21 | a mark changes the log, to the marked log, and no other field |
| AttendanceRoutes.OwnNumber | backend/routes/attendance.js:20-21 | a stored member's number is held by no other record, so saving it back is allowed |
| AttendanceRoutes.MarkById | backend/routes/attendance.js:7-40 | an unknown id gets 404 and changes nothing; otherwise the mark is applied now, whatever the active flag or expiry, to that record only |
| AttendanceRoutes.LegacyMark | backend/routes/attendance.js:43-82 | a missing id gets 400 and an unknown one gets 404, both changing nothing; otherwise it behaves as the mark by path |
| AttendanceRoutes.GetAttendance | backend/routes/attendance.js:85-98 | the stored log unchanged, or 404 |
| AttendanceRoutes.RowsOf | backend/routes/attendance.js:114-122 | one row per log entry, in log order, each with the member's id and name |
| AttendanceRoutes.AllAttendance | backend/routes/attendance.js:108-128 | the report is the flattening of the active members' logs in store order |
| AttendanceRoutes.CollectRows | backend/routes/attendance.js:113-123 | the two nested loops build exactly the flattening |
| AttendanceRoutes.FlattenCount | backend/routes/attendance.js:113-123 | the report has exactly as many rows as the logs have entries |
| AttendanceRoutes.FlattenAt | backend/routes/attendance.js:113-123 | entry `j` of member `i` sits after all rows of the members before it, with that member's id and name: member order, then log order |
| AttendanceRoutes.ReportOnlyActive | backend/routes/attendance.js:110 | every reported row belongs to an active stored member |
| AttendanceRoutes.RowSource | backend/routes/attendance.js:113-123 | every row comes from one entry of one member |
| MemberContext.Merge | fgms/src/contexts/MemberContext.jsx:26 | the spread merge takes every field of the data, keeps the entry's other fields and has exactly the union of keys |
| MemberContext.SetMembersSpec | fgms/src/contexts/MemberContext.jsx:18-21 | an array payload becomes the list, any other payload the empty list; loading ends, the error clears, the table is kept |
| MemberContext.AddMemberSpec | fgms/src/contexts/MemberContext.jsx:30-32 | the new entry goes in front of the unchanged list, and nothing else changes |
| MemberContext.UpdateMemberSpec | fgms/src/contexts/MemberContext.jsx:24-29 | length and order are kept; a matching entry takes the data's fields and keeps its others; every other entry is kept as it was |
| MemberContext.ReplaceMemberSpec | fgms/src/contexts/MemberContext.jsx:39-45 | length and order are kept; the replacement takes the place of every entry with its `_id`, and the others are kept |
| MemberContext.KeepOthersSpec | fgms/src/contexts/MemberContext.jsx:36 | the filter keeps, in order, every entry without that `_id` and none with it |
| MemberContext.DeleteMemberSpec | fgms/src/contexts/MemberContext.jsx:33-38 | delete removes every entry with that `_id` and keeps all the others in their relative order |
| MemberContext.DeleteAbsentIsNoop | fgms/src/contexts/MemberContext.jsx:33-38 | deleting an id nobody has gives back the same state |
| MemberContext.UpdateAttendanceSpec | fgms/src/contexts/MemberContext.jsx:46-57 | the one cell is set to the given value; every other date/member cell and every other field is unchanged |
| MemberContext.LoadingAndErrorSpec | fgms/src/contexts/MemberContext.jsx:14-17 | `SET_LOADING` changes only `loading`; `SET_ERROR` sets the error and turns loading off, keeping the list and the table |
| MemberContext.OtherIsIdentity | fgms/src/contexts/MemberContext.jsx:58-59 | an unknown action type returns the state unchanged |
| MemberContext.ListReplyLosesMembers | fgms/src/contexts/MemberContext.jsx:111 | as written, the list kept from any list reply is empty |
| MemberContext.ListReplyLosesOneMember | fgms/src/contexts/MemberContext.jsx:111 | a reply listing one member leaves the client with none |
| MemberContext.AddFailureMessage | fgms/src/contexts/MemberContext.jsx:135-139 | a refused create throws the body's `error` text, else its `message` text, else 'Failed to add member'; never an empty message |
| MemberContext.LoadMembersKeepsList | fgms/src/contexts/MemberContext.jsx:107-113 | with the corrected payload every listed member reaches the state in the server's order, the other two reply shapes still work, loading ends and the error clears |
| ClientMember.DatesOf | backend/models/Member.js:51-63 | the dates of a log, one per entry, in order |
| ClientMember.CardOf | backend/models/Member.js:64-83 | the JSON sent for a member carries the status virtual at sending time and no `status` field, with the record's flag, dates and one date per log entry |
| ClientMember.SearchSpec | fgms/src/Pages/Member/member.jsx:31 | the search keeps, in order, exactly the members whose lower-cased name contains the lower-cased query or whose number contains the query |
| ClientMember.EmptySearchKeepsAll | fgms/src/Pages/Member/member.jsx:31 | an empty query keeps everyone |
| MemberCardView.CardStatus | fgms/src/Pages/MemberCard/memberCard.jsx:6-13 | a falsy active flag gives 'Inactive' whatever the expiry; otherwise 'Expired' exactly when now is past the expiry and 'Active' at or before it; an unparseable expiry leaves 'Active' |
| MemberCardView.UpperChar | fgms/src/Pages/MemberCard/memberCard.jsx:10-12 | ASCII upper-casing of one character |
| MemberCardView.CardAgreesWithServer | fgms/src/Pages/MemberCard/memberCard.jsx:6-13 | on a card sent by the server the card rule equals the server's status at every instant, capitalised: same priority, same boundary |
| MemberCardView.CapitalizedNames | fgms/src/Pages/MemberCard/memberCard.jsx:10-12 | the three status names capitalise to the card's three words |
| MemberCardView.FormatExpiryDate | fgms/src/Pages/MemberCard/memberCard.jsx:16-20 | 'N/A' for a missing or empty value, 'Invalid Date' for text that does not parse, the locale rendering otherwise |
| StatsList.FilterByTypeSpec | fgms/src/Pages/Member/statsList.jsx:6-34 | every result keeps the input's order; a known type keeps exactly its bucket's members; any other type returns the input |
| StatsList.ExpiryBucketsDisjoint | fgms/src/Pages/Member/statsList.jsx:12-28 | the expiring-3, expiring-4-7 and expired buckets never overlap, and an expiry exactly at now is in none of them |
| StatsList.InactiveEmptyOnServerCards | fgms/src/Pages/Member/statsList.jsx:29-30 | over cards without a `status` field, as the server sends them, the inactive bucket is empty |
| StatsList.SubsequenceRefl | fgms/src/Pages/Member/statsList.jsx:31-32 | the default branch's unchanged list is an ordered selection of itself |
| Dashboard.MembersList | fgms/src/Pages/Dashboard/dashboard.jsx:71 | a value that is not an array is read as the empty list |
| Dashboard.KeyDeterminesNameAndNumber | fgms/src/Pages/Dashboard/dashboard.jsx:84 | with ten-character numbers, equal keys mean the same name and number |
| Dashboard.MonthlyJoined | fgms/src/Pages/Dashboard/dashboard.jsx:80-90 | the filter with its growing set of seen keys counts the distinct name+number keys among the members joined since the month began |
| Dashboard.JoinedKeysStep | fgms/src/Pages/Dashboard/dashboard.jsx:85-86 | one more member adds its key exactly when it joined this month |
| Dashboard.JoinedKeysBound | fgms/src/Pages/Dashboard/dashboard.jsx:80-90 | the monthly count is at most the number of members joined this month, and so at most the list length |
| Dashboard.LexMax | fgms/src/Pages/Dashboard/dashboard.jsx:97-99 | the last element after sorting is an element of the set, and no element comes after it |
| Dashboard.LastPresentDate | fgms/src/Pages/Dashboard/dashboard.jsx:93-101 | null exactly when no date has a truthy cell for the member; otherwise such a date, and the greatest one in string order |
| Dashboard.GreatestIsLast | fgms/src/Pages/Dashboard/dashboard.jsx:93-101 | the greatest present date over all the keys is the last present date |
| Dashboard.LastPresentOf | fgms/src/Pages/Dashboard/dashboard.jsx:93-101 | the loop over the date keys, keeping the greatest present date so far, returns that last present date |
| Dashboard.DifferenceInDays | fgms/src/Pages/Dashboard/dashboard.jsx:107 | whole days between two instants, truncated toward zero |
| Dashboard.TenDaysMeans | fgms/src/Pages/Dashboard/dashboard.jsx:107 | ten days or more apart is exactly ten times 86400000 milliseconds or more |
| Dashboard.NeverPresentNotUnseen | fgms/src/Pages/Dashboard/dashboard.jsx:104-108 | a member never marked present is not counted inactive |
| Dashboard.InactiveCount | fgms/src/Pages/Dashboard/dashboard.jsx:104-108 | the inactive count is at most the list length |
| Dashboard.InactiveCounted | fgms/src/Pages/Dashboard/dashboard.jsx:104-108 | it counts exactly the listed members whose last present date parses and is ten days or more before now |
| Dashboard.CountInactive | fgms/src/Pages/Dashboard/dashboard.jsx:104-108 | the loop over the members, looking up each one's last present date, counts the members the inactive filter keeps |
| Dashboard.ExpiringBoundaryDiffers | fgms/src/Pages/Dashboard/dashboard.jsx:117-122 | the dashboard's expiring-3 test is the stats page's plus an expiry exactly at now |
| Dashboard.DashBucketsDisjoint | fgms/src/Pages/Dashboard/dashboard.jsx:111-131 | the expired, expiring-3 and expiring-4-7 counts never overlap |
| Dashboard.DisjointCounts | fgms/src/Pages/Dashboard/dashboard.jsx:111-131 | three pairwise disjoint filters together keep at most the whole list |
| Dashboard.ComputeStats | fgms/src/Pages/Dashboard/dashboard.jsx:71-131 | the five stat cards are the distinct joined keys, the inactive count, and the sizes of the three expiry filters, over the guarded list |
| Dashboard.StatsBounded | fgms/src/Pages/Dashboard/dashboard.jsx:71-131 | every count is at most the list length, the three expiry counts add up to at most it, and every count is zero when the members are not an array |
| MemberPage.NextPage | fgms/src/Pages/Member/member.jsx:39-41 | the new page is at least 1, at most the page count when there are pages, 1 when there are none, and `p + dir` whenever that is in range |
| MemberPage.SearchPages | fgms/src/Pages/Member/member.jsx:31-33 | a page of the search result has at most nine members, at positions `(p-1)*9` on; the pages concatenate to the result; a page past the last is empty |
| MemberPage.MemberList.constructor | fgms/src/Pages/Member/member.jsx:23 | the page starts at 1 with an empty search |
| MemberPage.MemberList.TotalPages | fgms/src/Pages/Member/member.jsx:32 | the least number of nine-card pages that holds the search result |
| MemberPage.MemberList.PageChange | fgms/src/Pages/Member/member.jsx:39-41 | the page becomes the clamped next page; the members and search are kept |
| MemberPage.MemberList.SetSearch | fgms/src/Pages/Member/member.jsx:35 | a changed search resets the page to 1; the same text keeps it |
| MemberPage.MemberList.SetMembers | fgms/src/Pages/Member/member.jsx:35 | a change of the member count resets the page to 1 |
| MemberPage.JoinedToday | fgms/src/Pages/Member/member.jsx:47-49 | the payload is the form with `joined` set to the first ten characters of the ISO time, the `YYYY-MM-DD` date |
| MemberPage.FormErrorSpec | fgms/src/Pages/Member/member.jsx:193-216 | a missing field is reported first, then a bad number, then an expiry day before today; the form passes exactly when no check fails, so an expiry today is accepted |
| MemberPage.AddMemberForm.constructor | fgms/src/Pages/Member/member.jsx:221 | the form starts empty with no message |
| MemberPage.ShownFailure | fgms/src/Pages/Member/member.jsx:223-224 | the thrown message, or the form's fallback when it is empty; never empty |
| MemberPage.RefusalShowsServerText | fgms/src/Pages/Member/member.jsx:223-224 | a create the server refuses shows the server's `error` text, else its `message` text, unchanged |
| MemberPage.AddMemberForm.Submit | fgms/src/Pages/Member/member.jsx:185-225 | a failed check shows its message, keeps the form and calls nothing; otherwise the form is handed on; when the add returns the form is cleared with no message, and when it throws its message is shown and the form kept |
| MemberPage.HandleAddMember | fgms/src/Pages/Member/member.jsx:47-52 | the payload carries today's date as `joined`; the list returns to page 1 only when the add returns, and keeps its page when it throws |
| AttendancePage.PresentTodayIffLogged | fgms/src/Pages/Attendance/attendance.jsx:49-60 | on a card the server sent, the member was present today exactly when the log has an entry for today's day |
| AttendancePage.PresentAfterMark | fgms/src/Pages/Attendance/attendance.jsx:49-60 | after the server records a mark now, the member's card is present today |
| AttendancePage.Latest | fgms/src/Pages/Attendance/attendance.jsx:66-71 | the first date after sorting latest first is a date of the log, and no date is later |
| AttendancePage.LastPresent | fgms/src/Pages/Attendance/attendance.jsx:63-73 | null for a missing or empty log; otherwise the latest entry date |
| AttendancePage.StatusLabel | fgms/src/Pages/Attendance/attendance.jsx:138 | the server's status, or 'active' when it is missing or empty |
| AttendancePage.LabelIsServerStatus | fgms/src/Pages/Attendance/attendance.jsx:138 | on a card the server sent, the label is the server's status name |
| AttendancePage.AttendanceMarks.constructor | fgms/src/Pages/Attendance/attendance.jsx:18 | no member is flagged at first |
| AttendancePage.AttendanceMarks.Row | fgms/src/Pages/Attendance/attendance.jsx:113-150 | a row is checked exactly when it is disabled, exactly when the member was present today or is flagged |
| AttendancePage.AttendanceMarks.HandleMark | fgms/src/Pages/Attendance/attendance.jsx:32-46 | unticking does nothing; a successful mark flags that member and no other key; a failed one changes nothing |
| AttendancePage.MarkedRowLocked | fgms/src/Pages/Attendance/attendance.jsx:38-41 | after a successful mark the member's row is present, and every other row is as before |
| AttendancePage.PresentStaysPresent | fgms/src/Pages/Attendance/attendance.jsx:113-114 | a row shown present stays present after any later mark |
| Plans.DefaultPlans | fgms/src/Components/Addmembership/MembershipManager.jsx:3-12 | eight plans for 1, 2, 3, 4, 6, 8, 10 and 12 months, each labelled "<m> Month Plan" with the given price |
| Plans.DefaultsUnique | fgms/src/Components/Addmembership/MembershipManager.jsx:3-12 | the default plans' values are distinct |
| Plans.AddPlanSpec | fgms/src/Components/Addmembership/MembershipManager.jsx:20-33 | empty months or price, then a value already present, are each rejected with their message; the add succeeds exactly otherwise, appends exactly one plan at the end and keeps values unique |
| Plans.DeletePlanSpec | fgms/src/Components/Addmembership/MembershipManager.jsx:39-41 | delete keeps, in order, every plan with another value and none with that value; an absent value changes nothing; values stay unique |
| Plans.SubsequenceKeepsUnique | fgms/src/Components/Addmembership/MembershipManager.jsx:40 | leaving plans out keeps the values unique |
| Plans.SubsequenceMembers | fgms/src/Components/Addmembership/MembershipManager.jsx:40 | an ordered selection holds only elements of its source |
| Plans.MembershipManager.constructor | fgms/src/Components/Addmembership/MembershipManager.jsx:15-18 | the default plans with empty prices, empty inputs and no error |
| Plans.MembershipManager.SetMonths | fgms/src/Components/Addmembership/MembershipManager.jsx:16 | typing the months changes only that input |
| Plans.MembershipManager.SetPrice | fgms/src/Components/Addmembership/MembershipManager.jsx:17 | typing the price changes only that input |
| Plans.MembershipManager.AddPlan | fgms/src/Components/Addmembership/MembershipManager.jsx:20-37 | a rejection sets its message and keeps the list and the inputs; a success appends the plan and clears the error and both inputs; values stay unique |
| Plans.MembershipManager.DeletePlan | fgms/src/Components/Addmembership/MembershipManager.jsx:39-41 | the list becomes the delete result, and the inputs and error are kept |
| AddMembership.SetField | fgms/src/Components/Addmembership/addmemberShip.jsx:62 | the named field takes the value and every other field is kept |
| AddMembership.FindPlan | fgms/src/Components/Addmembership/addmemberShip.jsx:98 | the found plan is the first in the list with that value; nothing is found exactly when no plan has it |
| AddMembership.WithPlanPrice | fgms/src/Components/Addmembership/addmemberShip.jsx:97-102 | only the price can change, and only to the non-empty price of a plan with the selected value |
| AddMembership.WithPlanPriceCopies | fgms/src/Components/Addmembership/addmemberShip.jsx:97-102 | with unique plan values, a selected plan's non-empty price is put in the form, and a value with no such plan leaves the form as it is |
| AddMembership.DefaultPlanKeepsPrice | fgms/src/Components/Addmembership/addmemberShip.jsx:5-14 | the default plans carry no price, so selecting one leaves the form as it is |
| AddMembership.AddMembershipForm.constructor | fgms/src/Components/Addmembership/addmemberShip.jsx:17-31 | a blank form, the default plans, empty inputs and no errors |
| AddMembership.AddMembershipForm.Change | fgms/src/Components/Addmembership/addmemberShip.jsx:61-64 | the field is set and the error cleared; a changed plan then takes the plan's price; the plans and the plan inputs are kept |
| AddMembership.AddMembershipForm.SetMonths | fgms/src/Components/Addmembership/addmemberShip.jsx:28 | typing the months changes only that input |
| AddMembership.AddMembershipForm.SetPrice | fgms/src/Components/Addmembership/addmemberShip.jsx:29 | typing the price changes only that input |
| AddMembership.AddMembershipForm.AddPlan | fgms/src/Components/Addmembership/addmemberShip.jsx:67-84 | the same checks and append as the plan manager; the new list re-runs the price effect; values stay unique |
| AddMembership.AddMembershipForm.Submit | fgms/src/Components/Addmembership/addmemberShip.jsx:86-94 | an incomplete form sets 'Please fill all fields.' and calls nothing; a complete one calls `onAdd(form)` and then `onClose` |
| ForgotPassword.ResetErrorSpec | fgms/src/Components/forgotPassword/forgot.jsx:28-48 | a reset passes exactly when all fields are filled, the code matches, the password has six characters or more and is confirmed; each message appears only when the checks before it pass |
| ForgotPassword.ForgotFlow.constructor | fgms/src/Components/forgotPassword/forgot.jsx:4-12 | step 1, nothing entered, no success and no error |
| ForgotPassword.ForgotFlow.Edit | fgms/src/Components/forgotPassword/forgot.jsx:5-10 | typing changes only the four inputs |
| ForgotPassword.ForgotFlow.SendOtp | fgms/src/Components/forgotPassword/forgot.jsx:15-25 | an empty email sets its message and stays put; otherwise the code '123456' is stored, the flow moves to step 2 and the error clears |
| ForgotPassword.ForgotFlow.ResetPassword | fgms/src/Components/forgotPassword/forgot.jsx:28-48 | the first failing check sets its message and leaves success; when all pass, success is set and the error clears |
| ForgotPassword.ForgotFlow.Submit | fgms/src/Components/forgotPassword/forgot.jsx:53 | submit dispatches on the step; it never returns to step 1 nor clears success, and success comes exactly from a passing reset |

## Left out

- Authentication middleware: every route is modelled as already authenticated.
- Logging, response bodies beyond the status and the record, and Mongoose's error-message formatting. A validation failure is just `ValidationFailed` (400).
- Storage failures: any other exception of the store (a 500) is not modelled. Only the cases the code distinguishes are.
- Invalid dates sent to the routes: an unparseable date in a create or an update is taken to reach Mongoose as a validation error (400). In a list query it is taken as a query failure (500).
- Non-numeric `page` and `limit` (`parseInt` gives NaN): the model takes them as already parsed integers or absent.
- Ties in the `createdAt` sort: MongoDB leaves their order open. The model's sort puts the earlier-listed record first.
- Time zones: `Day` is UTC midnight, since `setHours(0,0,0,0)` truncates to local midnight and the zone is an environment setting. The month start is a parameter (`monthStart`).
- Date parsing and rendering: `new Date(text)`, `toLocaleDateString`, date-fns `format` and the ISO string are parameters or absent. Card dates are already parsed instants (`None` for an invalid date), the dashboard's date keys are parsed by a `parse` parameter, and `FormatExpiryDate` takes the renderer.
- Network calls: the client's mark and add calls, and the context's fetch helpers, become outcome parameters (`markOk`, `addOk` with the thrown message) or returned call lists (`Call`, `sent`).
- Cloudinary picture uploads and the add-membership form's file branch: these are network calls with progress callbacks.
- Re-validation of the whole document on `save()` after a mark: Mongoose may re-check `expiry > now` on an expired member. The route states no such check, and the model follows the route.
- Concurrent requests and store atomicity: the model is sequential.
- MemberModel.MarkAttendance: the document update is modelled on values. The method returns the new log and the store writes the record back, so in-place aliasing of the document is not modelled.
- Dashboard.LastPresentDate, Dashboard.JoinedKeys, Dashboard.InactiveCount: these are ghost definitions, because the greatest element of a set and a set comprehension are most simply stated that way. `LastPresentOf`, `CountInactive` and `MonthlyJoined` are the executable counterparts that `ComputeStats` runs.
- Common.Trim: the whitespace set is the ECMAScript WhiteSpace and LineTerminator code points listed in `IsSpace`. UTF-16 surrogate pairs are not modelled.
- MemberContext.AddFailureMessage: the error body's `error` and `message` are taken as text. A non-text truthy value, which `new Error` would turn into text, is not modelled, and neither is a reply body that is not JSON.
- Common.Lower: only ASCII letters are lower-cased, not the full Unicode `toLowerCase`.
- ForgotPassword.ResetError: the password length is counted in Dafny characters, while `newPassword.length` counts UTF-16 code units. So a password of three characters outside the Basic Multilingual Plane passes the six-unit check in the browser but fails it in the model.
- MemberRoutes.PatchOf: `isActive` is taken as an already-cast boolean. The route passes any value other than `undefined` (`null`, a string) to Mongoose's Boolean cast, and that cast and its cast error are not modelled.
- MemberRoutes.Store.Get, MemberRoutes.Store.Update, MemberRoutes.Store.Delete, AttendanceRoutes.MarkById, AttendanceRoutes.LegacyMark, AttendanceRoutes.GetAttendance: ids are natural numbers, so every id is well formed and an unknown one gives 404. A path id that is not an ObjectId makes `findById` or `findByIdAndUpdate` throw a CastError, and the route's catch then answers 500. That reply is not modelled.
- The member page's picture preview, modal visibility and loading flags: these are UI only. So is the context's `SET_LOADING` and `SET_ERROR` dispatch around the add call.
- The add-member form accepts an expiry on today's date, which the server then refuses when it is earlier than the moment of saving. See `MemberPage.FormErrorSpec` and `MemberRoutes.CreateSucceedsIff`.

## Findings

| source | as written | input that shows it | evidently intended | confidence | as-written member | corrected member |
|---|---|---|---|---|---|---|
| fgms/src/contexts/MemberContext.jsx:111 | `data.data`, falling back to `data`, is dispatched to `SET_MEMBERS`, but the list endpoint replies `{success, data: {members, pagination}}` (backend/routes/members.js:171-181). `data.data` is an object, not an array, so the reducer stores `[]` | a reply listing one member `{_id: "a1"}`: the client keeps no member | dispatch the `members` array inside `data` (still accepting `{data: [...]}` and a bare array) | not executed | MemberContext.ListReplyLosesMembers | MemberContext.LoadMembersKeepsList |
