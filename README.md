# Admin panel, SlopTex, presence, symbol palette and theme toggles — a Dafny model

This project models the logic underneath an Overleaf fork's web additions, with every database, Redis, HTTP and DOM result passed in as a plain value:

- **Admin user list, server side** (`UserListController`): auth-flag bits, the inactive and deleted status, the filter precedence, the sort validation and the per-line storage total.
- **Admin user list, client side**: the filter table and filter keys, search, the paging window and the selected-id set (`UserListContext`), the comparators and the sort (`SortUsers`, `UseSort`), the record updates after admin actions (`UserActions`) and the batch action loop (`UsersActionModal`).
- **Announcements**: the active window, dismissal annotation and the create/update/delete/dismiss handlers (`AnnouncementController`), and the client's index and modal state machine (`AnnouncementContext`).
- **Presence** (`ActiveUsersManager`): the Redis key scan, project-id extraction, online ordering and count.
- **SlopTex assistant**: input sanitising and prompt building (`SloptexService`), request validation and error mapping (`SloptexController`), the action table (`SloptexActions`), the editor helpers (`SloptexUtils`), the selection bubble's menus and diff view (`SloptexSelectionOverlay`) and the action bar's handlers (`SloptexActionBar`).
- **Symbol palette**: the categories and symbol buckets, with code-point decoding (`Categories`), and keyboard navigation over the items (`SymbolPaletteItems`).
- **Theme handling**: the `overleaf_theme` cookie and its two readers (`Cookies`), the shared theme vocabulary (`Themes`), the marketing-page toggle (`ThemeTogglePage`), the React toggle (`ThemeToggle`) and the editor's dark-mode context (`EditorDarkMode`).

Shared modules hold the string operations of JavaScript (`Text`), sequence helpers (`Seqs`), a stable insertion sort standing for lodash `orderBy` and `Array.prototype.sort` (`StableSort`), the document-size sum used by two files (`DocStorage`), the user record of the admin front end (`UserApi`) and `Option`/`Result` (`Wrappers`).

Code that computes values is modelled by functions and lemmas. Handlers that update state step by step are methods of classes whose fields are that state, and each is proved against the functions that specify it.

## Model

| member | source | states |
|---|---|---|
| DocStorage.LinesSizeIsTextLength | services/web/modules/admin-panel/app/src/UserListController.mjs:342-344 | the line-length reducer (length plus one per line) gives the length of the document text with every line newline-terminated |
| DocStorage.ProjectsSizeAppend | services/web/modules/admin-panel/app/src/UserListController.mjs:326-353 | the storage total is additive over the list of projects |
| DocStorage.FailedProjectsAddNothing | services/web/modules/admin-panel/app/src/UserListController.mjs:348-353 | projects whose docs query fails add nothing to the total |
| DocStorage.SumStorage | services/web/modules/admin-panel/app/src/UserListController.mjs:315-360 | the nested loop over projects and docs computes the storage total of the query results, line lengths in code points (0 when the projects query fails or finds none) |
| Seqs.Filter | services/web/modules/admin-panel/app/src/UserListController.mjs:216 | `Array.filter`: keeps exactly the elements meeting the predicate, no more than the input, and everything when all pass |
| Seqs.FilterIsSubsequence | services/web/modules/admin-panel/app/src/UserListController.mjs:216 | a filtered list is an order-preserving subsequence of its input |
| Seqs.Count | services/web/app/src/Features/ServerAdmin/ActiveUsersManager.mjs:58 | a count by predicate is the length of the filtered list |
| Seqs.Reverse | services/web/modules/admin-panel/app/src/UserListController.mjs:108-109 | `reverse` puts element i at position length-1-i and keeps the multiset |
| Seqs.ReverseInvolutive | services/web/modules/admin-panel/app/src/UserListController.mjs:108-109 | reversing twice gives the original |
| StableSort.Insert | services/web/modules/admin-panel/app/src/UserListController.mjs:226-230 | insertion adds exactly one element to the multiset |
| StableSort.Sort | services/web/modules/admin-panel/app/src/UserListController.mjs:226-230 | the sort that stands for lodash `orderBy` returns a permutation of its input |
| StableSort.InsertSorted | services/web/modules/admin-panel/app/src/UserListController.mjs:226-230 | inserting into a sorted list under a total preorder keeps it sorted |
| StableSort.SortSorted | services/web/modules/admin-panel/app/src/UserListController.mjs:226-230 | the result is sorted under any total preorder |
| StableSort.InsertStable | services/web/modules/admin-panel/app/src/UserListController.mjs:226-230 | insertion keeps the order of the elements tied with any key |
| StableSort.SortStable | services/web/modules/admin-panel/app/src/UserListController.mjs:226-230 | the sort is stable: the elements tied with any key appear in their input order |
| StableSort.SortOfSorted | services/web/modules/admin-panel/app/src/UserListController.mjs:226-230 | a list already sorted comes back unchanged |
| Text.IndexFrom | services/web/modules/admin-panel/app/src/UserListController.mjs:265-267 | the first occurrence at or after the start position, or none at all |
| Text.IndexOf | services/web/modules/admin-panel/app/src/UserListController.mjs:265-267 | `indexOf` is defined iff the substring occurs, and then gives the first occurrence |
| Text.Split | services/web/modules/admin-panel/app/src/UserListController.mjs:106-107 | `split` with a non-empty separator always yields at least one piece |
| Text.JoinSplit | services/web/modules/admin-panel/app/src/UserListController.mjs:106-110 | joining the pieces of a split with the separator gives back the string |
| Text.SplitPiecesFree | services/web/modules/admin-panel/app/src/UserListController.mjs:106-107 | no piece of a split contains the separator |
| Text.SplitNoSeparator | services/web/modules/admin-panel/app/src/UserListController.mjs:106-107 | a string without the separator splits into itself alone |
| Text.TrimStart | services/web/app/src/Features/Sloptex/SloptexService.mjs:49 | the longest suffix not starting with white space, only white space cut |
| Text.TrimEnd | services/web/app/src/Features/Sloptex/SloptexService.mjs:49 | the longest prefix not ending with white space, only white space cut |
| Text.Trim | services/web/app/src/Features/Sloptex/SloptexService.mjs:49 | `trim` is a slice with white space only cut away and none left at either end |
| Text.TrimEmptyIff | services/web/app/src/Features/Sloptex/SloptexController.mjs:39 | trimming gives the empty string iff the input is all white space |
| Text.ToLower | services/web/modules/admin-panel/frontend/js/user-list/context/user-list-context.tsx:198-202 | `toLowerCase` maps every character and keeps the length (ASCII letters) |
| Text.CompareStrings | services/web/modules/admin-panel/frontend/js/user-list/util/sort-users.ts:15 | the comparison is -1, 0 or 1, and 0 iff the strings are equal |
| Text.CompareAntisymmetric | services/web/modules/admin-panel/frontend/js/user-list/util/sort-users.ts:15 | swapping the operands negates the comparison |
| Text.CompareTransitive | services/web/modules/admin-panel/frontend/js/user-list/util/sort-users.ts:15 | the comparison is transitive, so it orders strings totally |
| UserListController.ServerAuthTypes | services/web/modules/admin-panel/app/src/UserListController.mjs:28-31 | LOCAL is always advertised; LDAP, SAML and OIDC exactly when the EXTERNAL_AUTH setting contains their name |
| UserListController.AuthFlagsOf | services/web/modules/admin-panel/app/src/UserListController.mjs:237-242 | LOCAL iff a password hash, SAML iff SAML identifiers, OIDC iff third-party identifiers; LDAP iff none of these and the login count is not 0, and then LDAP is the only bit |
| UserListController.FormatUserInfo | services/web/modules/admin-panel/app/src/UserListController.mjs:236-260 | fails (the TypeError) exactly when an identifier array is missing; otherwise the row carries the user's auth bits, its fields copied, inactive iff no last-active date or one before the cut-off, deleted iff a deletedId is present, and no storage yet |
| UserListController.LdapExclusive | services/web/modules/admin-panel/app/src/UserListController.mjs:238-242 | LDAP never co-occurs with another auth bit in a formatted row |
| UserListController.GetUserStorageUsed | services/web/modules/admin-panel/app/src/UserListController.mjs:302-365 | 0 for a user with neither id nor deletedId; otherwise the sum over the user's projects' docs of line lengths (in code points) plus one per line, failed projects adding nothing |
| UserListController.FormatUsers | services/web/modules/admin-panel/app/src/UserListController.mjs:185-210 | the loop yields FormattedRows: one row per stored user in order with its storage figure, 0 for deleted users, or a failure when any user's identifier arrays are missing |
| UserListController.FormattedRows | services/web/modules/admin-panel/app/src/UserListController.mjs:185-210 | fails exactly when some user lacks an identifier array; otherwise one row per stored user |
| UserListController.DeletedUsersUseNoStorage | services/web/modules/admin-panel/app/src/UserListController.mjs:194-206 | a deleted user's row shows no storage |
| UserListController.MatchesFiltersIffAdmitted | services/web/modules/admin-panel/app/src/UserListController.mjs:262-280 | the step-by-step filter equals the closed form: search gate, then deleted / all / admin precedence, then the conjunction of inactive, suspended and the auth-bit filters |
| UserListController.SearchRejectsFirst | services/web/modules/admin-panel/app/src/UserListController.mjs:263-268 | a non-empty search missing email, first and last name case-insensitively rejects the user whatever the other filters |
| UserListController.DeletedOnlyWithDeletedFilter | services/web/modules/admin-panel/app/src/UserListController.mjs:269-270 | past the search, a deleted user passes iff the deleted filter is set |
| UserListController.AdminIgnoresRest | services/web/modules/admin-panel/app/src/UserListController.mjs:271-272 | with the admin filter on (and not all), flipping any of the later flags changes nothing |
| UserListController.ApplyFilters | services/web/modules/admin-panel/app/src/UserListController.mjs:282-295 | with no active filter the input itself; otherwise an order-preserving subsequence holding exactly the matching users |
| UserListController.NoFilterListsDeleted | services/web/modules/admin-panel/app/src/UserListController.mjs:212-215 | with no filter active, deleted users are listed |
| UserListController.CompareAscendingAntisymmetric | services/web/modules/admin-panel/app/src/UserListController.mjs:226-230 | the ascending comparison on each sort field is antisymmetric |
| UserListController.CompareAscendingTransitive | services/web/modules/admin-panel/app/src/UserListController.mjs:226-230 | the ascending comparison on each sort field is transitive |
| UserListController.OrderComparatorIsTotalPreorder | services/web/modules/admin-panel/app/src/UserListController.mjs:226-230 | every field/direction comparator is a total preorder, so the stable sort is well defined |
| UserListController.SortAndPaginate | services/web/modules/admin-panel/app/src/UserListController.mjs:219-233 | fails iff the key or order is not one of the allowed values; otherwise a permutation of the input sorted by the key (default signUpDate) and order (default desc) |
| UserListController.SortAndPaginateStable | services/web/modules/admin-panel/app/src/UserListController.mjs:226-230 | users that tie under the comparator keep their relative order |
| UserListController.SortByNameKeepsOrder | services/web/modules/admin-panel/app/src/UserListController.mjs:221-230 | sorting by "name" returns the list unchanged, since formatted rows have no name property |
| UserListController.GetUsers | services/web/modules/admin-panel/app/src/UserListController.mjs:140-183 | fails iff a row cannot be formatted or the sort request is invalid; otherwise the users are the sorted filtered formatted rows of the active then deleted users, and the total size is the filtered count; a deleted user is listed only with no active filter or the deleted filter |
| UserListController.ReversedHostname | services/web/modules/admin-panel/app/src/UserListController.mjs:106-110 | defined iff the address contains '@' (otherwise the handler throws) |
| UserListController.ReversedHostnameOfAddress | services/web/modules/admin-panel/app/src/UserListController.mjs:106-110 | for `local@host` with no other '@', the host written backwards |
| UserListController.RegisterNewUser | services/web/modules/admin-panel/app/src/UserListController.mjs:63-132 | 422 iff the email is missing or empty; 409 for EmailAlreadyRegistered; 400 for invalid email or password; 500 for other registration errors; a throw iff the follow-up fails or the email has no '@'; created exactly otherwise, with the registered id, names, dates and suspension, the requested email and admin flag, inactive, not deleted, auth flags LOCAL unless external and none for external users, the update setting admin flag, email and reversed hostname, unsetting the password and sending no activation mail exactly for external users |
| ActiveUsersManager.IsUserOnline | services/web/app/src/Features/ServerAdmin/ActiveUsersManager.mjs:75-120 | online iff the session set was read and is non-empty; a missing client, a timeout or an error all mean offline |
| ActiveUsersManager.ScanRedisKeys | services/web/app/src/Features/ServerAdmin/ActiveUsersManager.mjs:198-230 | the keys are the pages read until the cursor returns to "0", at least 1000 keys are gathered (checked after each page) or a SCAN fails, keeping the keys read before the failure; they are the keys ScanKeys gives |
| ActiveUsersManager.MatchAt | services/web/app/src/Features/ServerAdmin/ActiveUsersManager.mjs:144 | a match of `ConnectedUser:{…}:` captures a non-empty id without `}` |
| ActiveUsersManager.ExtractProjectIdOfKey | services/web/app/src/Features/ServerAdmin/ActiveUsersManager.mjs:143-146 | a key `ConnectedUser:{id}:client` yields exactly that project id |
| ActiveUsersManager.NoPrefixNoProject | services/web/app/src/Features/ServerAdmin/ActiveUsersManager.mjs:144-145 | a key without the `ConnectedUser:{` prefix yields no project id |
| ActiveUsersManager.GetUserCurrentProject | services/web/app/src/Features/ServerAdmin/ActiveUsersManager.mjs:128-189 | the scanned keys, and the project FirstQualifying finds in them |
| ActiveUsersManager.FirstQualifyingIsFirst | services/web/app/src/Features/ServerAdmin/ActiveUsersManager.mjs:139-180 | the search finds a project exactly when some key's hash names the user and its project exists, and then it is the first such key's project (named "Untitled" when it has no name); keys whose lookups fail are skipped |
| ActiveUsersManager.StatusLeTotal | services/web/app/src/Features/ServerAdmin/ActiveUsersManager.mjs:51-56 | the comparator (online first, then email) relates every two entries |
| ActiveUsersManager.StatusLeTransitive | services/web/app/src/Features/ServerAdmin/ActiveUsersManager.mjs:51-56 | the comparator is transitive |
| ActiveUsersManager.StatusCompareIsTotalPreorder | services/web/app/src/Features/ServerAdmin/ActiveUsersManager.mjs:51-56 | the three-way comparator handed to `.sort` is a total preorder, so the stable sort is well defined |
| ActiveUsersManager.StatusTiedIff | services/web/app/src/Features/ServerAdmin/ActiveUsersManager.mjs:51-56 | the comparator ties two entries exactly when their status and email agree |
| ActiveUsersManager.SortStatuses | services/web/app/src/Features/ServerAdmin/ActiveUsersManager.mjs:51-56 | the in-place sort leaves the array sorted by the comparator and a permutation of what it held, and entries the comparator ties keep their order, as the stable `Array.prototype.sort` keeps them |
| ActiveUsersManager.UserStatusOf | services/web/app/src/Features/ServerAdmin/ActiveUsersManager.mjs:32-47 | one entry per user: fields defaulted to "", online status from the session check, no project when offline and, when online, the project of the first qualifying scanned key; storage from the docs sum |
| ActiveUsersManager.SortedOnlineFirst | services/web/app/src/Features/ServerAdmin/ActiveUsersManager.mjs:51-56 | in the sorted list every online user precedes every offline one and each group is in email order |
| ActiveUsersManager.GetAllUsersWithStatus | services/web/app/src/Features/ServerAdmin/ActiveUsersManager.mjs:14-63 | the result is sorted, a permutation of the per-user entries built in user order, and keeps that order among tied entries (same status and email); the online count is the number of online entries |
| ActiveUsersManager.EveryUserListed | services/web/app/src/Features/ServerAdmin/ActiveUsersManager.mjs:32-58 | every user appears with its entry, the list is as long as the user list, and no offline user has a current project |
| AnnouncementController.IsValidObjectId | services/web/modules/admin-panel/app/src/AnnouncementController.mjs:53 | a valid id is 12 or 24 characters long, every 12-character string is valid, and a 24-character one with a character that is not a hex digit is invalid |
| AnnouncementController.DayStart | services/web/modules/admin-panel/app/src/AnnouncementController.mjs:215 | local midnight of a timestamp: at or before it, less than a day before, on the same day |
| AnnouncementController.NewAnnouncement | services/web/modules/admin-panel/app/src/AnnouncementController.mjs:86-105 | rejected iff title or content is empty; otherwise template defaults to "general", priority to "normal", active to true, created and updated at the same instant, title, content and dates copied |
| AnnouncementController.CreateDefaults | services/web/modules/admin-panel/app/src/AnnouncementController.mjs:93-105 | a body with only title and content gives the announcement with every default filled in |
| AnnouncementController.BuildUpdate | services/web/modules/admin-panel/app/src/AnnouncementController.mjs:141-152 | the update sets updatedAt to now and exactly the fields present in the body |
| AnnouncementController.SetFields | services/web/modules/admin-panel/app/src/AnnouncementController.mjs:154-157 | `$set` keeps id and creation data, takes every field the update carries and keeps the others |
| AnnouncementController.SetFieldsIdempotent | services/web/modules/admin-panel/app/src/AnnouncementController.mjs:154-157 | applying the same update twice equals applying it once |
| AnnouncementController.EmptyUpdateOnlyTouches | services/web/modules/admin-panel/app/src/AnnouncementController.mjs:141-143 | an update with no fields changes only updatedAt |
| AnnouncementController.WithoutAnnouncement | services/web/modules/admin-panel/app/src/AnnouncementController.mjs:184-186 | deletion keeps exactly the announcements with another id |
| AnnouncementController.WithoutDismissalsOf | services/web/modules/admin-panel/app/src/AnnouncementController.mjs:193-195 | the dismissals of the deleted announcement go, all others stay |
| AnnouncementController.WithoutUnique | services/web/modules/admin-panel/app/src/AnnouncementController.mjs:184-189 | deleting a stored id removes exactly one announcement and keeps ids unique |
| AnnouncementController.WithoutAbsent | services/web/modules/admin-panel/app/src/AnnouncementController.mjs:184-189 | deleting an id that is not stored changes nothing |
| AnnouncementController.WithoutDismissalsUnique | services/web/modules/admin-panel/app/src/AnnouncementController.mjs:193-195 | removing dismissals keeps at most one per user and announcement |
| AnnouncementController.AnnouncementStore.constructor | services/web/modules/admin-panel/app/src/AnnouncementController.mjs:35-48 | the store starts empty and valid |
| AnnouncementController.AnnouncementStore.Create | services/web/modules/admin-panel/app/src/AnnouncementController.mjs:73-121 | 400 and no change iff title or content is empty; otherwise 200 and the new announcement appended |
| AnnouncementController.AnnouncementStore.Update | services/web/modules/admin-panel/app/src/AnnouncementController.mjs:123-175 | 400 for an invalid id, 404 for an unknown one, both changing nothing; otherwise 200 with the matching announcement updated and nothing else changed |
| AnnouncementController.AnnouncementStore.Delete | services/web/modules/admin-panel/app/src/AnnouncementController.mjs:177-205 | 400 for an invalid id, 404 for an unknown one; otherwise 200, the announcement and its dismissals removed |
| AnnouncementController.AnnouncementStore.Dismiss | services/web/modules/admin-panel/app/src/AnnouncementController.mjs:367-412 | 401 without a user, 400 for an invalid id, 404 for an unknown announcement; otherwise the user's dismissal of it is upserted and every other dismissal kept |
| AnnouncementController.EndedEarlierTodayStillActive | services/web/modules/admin-panel/app/src/AnnouncementController.mjs:236-241 | an announcement whose end date is earlier today is still active |
| AnnouncementController.ShouldAutoShowClosedForm | services/web/modules/admin-panel/app/src/AnnouncementController.mjs:284-354 | auto-show is off iff the user dismissed with "don't show again" and it is not a maintenance day they have not dismissed it on |
| AnnouncementController.Annotate | services/web/modules/admin-panel/app/src/AnnouncementController.mjs:277-282 | the row carries the announcement, dismissed iff a dismissal exists, don't-show-again iff that dismissal says so |
| AnnouncementController.LastDismissal | services/web/modules/admin-panel/app/src/AnnouncementController.mjs:265-268 | the dismissal the map keeps for an id is one of that id, and there is none iff no dismissal names it |
| AnnouncementController.DismissalMapFindsLast | services/web/modules/admin-panel/app/src/AnnouncementController.mjs:265-274 | looking an id up in the built map gives the last dismissal for it |
| AnnouncementController.LastDismissalIsTheOne | services/web/modules/admin-panel/app/src/AnnouncementController.mjs:261-268 | with one dismissal per announcement for the user, the map finds exactly that one |
| AnnouncementController.ActiveAt | services/web/modules/admin-panel/app/src/AnnouncementController.mjs:226-243 | the query keeps exactly the stored announcements inside their window, in order |
| AnnouncementController.BuildDismissalMap | services/web/modules/admin-panel/app/src/AnnouncementController.mjs:265-268 | the loop builds a map whose lookup is the last dismissal per id |
| AnnouncementController.GetActiveAnnouncements | services/web/modules/admin-panel/app/src/AnnouncementController.mjs:207-365 | nothing without a user; otherwise one annotated row per active announcement, in query order, with its dismissal |
| AnnouncementController.ActiveNeverDropped | services/web/modules/admin-panel/app/src/AnnouncementController.mjs:270-355 | every active announcement is listed, dismissed or not |
| AnnouncementContext.FirstAutoShow | services/web/frontend/js/shared/context/announcement-context.tsx:61-65 | the index of the first announcement whose auto-show flag is not false, or none when every one is off |
| AnnouncementContext.AnnouncementState.constructor | services/web/frontend/js/shared/context/announcement-context.tsx:44-47 | no announcements, index 0, loading, modal closed |
| AnnouncementContext.AnnouncementState.CurrentAnnouncement | services/web/frontend/js/shared/context/announcement-context.tsx:106 | the announcement at the current index, none when the index is past the end |
| AnnouncementContext.AnnouncementState.LoadAnnouncements | services/web/frontend/js/shared/context/announcement-context.tsx:49-89 | loading ends in every case; a failed request changes nothing else; a refresh resets the index and leaves the modal; an auto-show load opens the modal at the first auto-show announcement or closes it when there is none |
| AnnouncementContext.AnnouncementState.HandleDismiss | services/web/frontend/js/shared/context/announcement-context.tsx:108-129 | the current announcement's dismissal is sent; before the last announcement the index advances with the modal open; at the last one the modal closes, the index resets and the list is refreshed without auto-show |
| AnnouncementContext.AnnouncementState.OpenModal | services/web/frontend/js/shared/context/announcement-context.tsx:131-136 | with announcements, the modal opens on the first; otherwise nothing changes |
| AnnouncementContext.AnnouncementState.SetShowModal | services/web/frontend/js/shared/context/announcement-context.tsx:144 | the modal flag takes the given value |
| SloptexService.DefaultModel | services/web/app/src/Features/Sloptex/SloptexService.mjs:7 | the configured default model when set, otherwise a fixed non-empty model name |
| SloptexService.Sanitize | services/web/app/src/Features/Sloptex/SloptexService.mjs:48-50 | the trimmed input cut to at most 8000 code points (the source counts UTF-16 units): a prefix of the trimmed text, all of it when short enough, empty iff the input is all white space |
| SloptexService.PromptStartsWithBase | services/web/app/src/Features/Sloptex/SloptexService.mjs:52-111 | every prompt that is built starts with the base instructions |
| SloptexService.TextOperationPrompt | services/web/app/src/Features/Sloptex/SloptexService.mjs:65-107 | for the text operations, building fails iff the sanitized input is blank, with that operation's message, and the prompt otherwise ends with the instruction line followed by the input |
| SloptexService.AssistPrompt | services/web/app/src/Features/Sloptex/SloptexService.mjs:58-64 | "assist" asks the sanitized prompt option, or the sanitized text when there is none, and fails iff that is blank |
| SloptexService.UnknownOperationRejected | services/web/app/src/Features/Sloptex/SloptexService.mjs:108-110 | an operation outside the list fails with the message naming it |
| SloptexService.TextFallsBackToOptions | services/web/app/src/Features/Sloptex/SloptexService.mjs:53 | an empty text argument is replaced by the text option |
| SloptexService.TranslateDefault | services/web/app/src/Features/Sloptex/SloptexService.mjs:80 | an empty target language means English |
| SloptexService.StyleDefault | services/web/app/src/Features/Sloptex/SloptexService.mjs:85 | an empty style means scientific |
| SloptexService.EncryptApiKey | services/web/app/src/Features/Sloptex/SloptexService.mjs:34-37 | encryption succeeds iff an encryptor is configured |
| SloptexService.DecryptApiKey | services/web/app/src/Features/Sloptex/SloptexService.mjs:39-46 | nothing stored gives no key; a stored key without encryptor fails; a decrypted key is never empty |
| SloptexService.DecryptEncrypt | services/web/app/src/Features/Sloptex/SloptexService.mjs:34-46 | decrypting what was encrypted gives back the API key |
| SloptexService.GenerateResponse | services/web/app/src/Features/Sloptex/SloptexService.mjs:113-128 | "not enabled" when disabled, "missing key" without a key; a generation happens iff enabled, keyed, the prompt builds and the model answers, with the built prompt and the option model or the default |
| SloptexService.GetSloptexStatus | services/web/app/src/Features/Sloptex/SloptexService.mjs:130-136 | enabled iff enabled in the settings with an encryptor, hasApiKey iff a key is stored, and the default model |
| SloptexController.AssertFeatureEnabled | services/web/app/src/Features/Sloptex/SloptexController.mjs:14-20 | passes iff the feature is enabled; otherwise the 404 `{enabled: false}` answer |
| SloptexController.GetStatus | services/web/app/src/Features/Sloptex/SloptexController.mjs:22-33 | 404 when disabled; otherwise 200 with enabled status and hasApiKey iff the user has a stored key |
| SloptexController.SaveApiKey | services/web/app/src/Features/Sloptex/SloptexController.mjs:35-59 | 200 iff enabled and the key is present, not blank and at most 400 code points once trimmed (the source counts UTF-16 units); then the trimmed key is stored sealed with enabled set and the time; any other answer leaves the user unchanged |
| SloptexController.DeleteApiKey | services/web/app/src/Features/Sloptex/SloptexController.mjs:61-73 | 404 and no change when disabled; otherwise 200, the key removed, enabled cleared and the time set |
| SloptexController.ParseApiErrorMessage | services/web/app/src/Features/Sloptex/SloptexController.mjs:75-88 | the JSON error message when there is one, the overload message for code 503 without one, the raw message otherwise |
| SloptexController.GenerateStatus | services/web/app/src/Features/Sloptex/SloptexController.mjs:90-122 | 404 iff disabled; 400 for a missing operation or a missing key; 200 iff enabled with operation and key, the prompt builds and the model answers; 503 iff the model call fails with a message |
| SloptexController.DisabledAnswers404 | services/web/app/src/Features/Sloptex/SloptexController.mjs:14-20 | with the feature off every endpoint answers 404 and changes nothing |
| SloptexController.SavedKeyIsUsed | services/web/app/src/Features/Sloptex/SloptexController.mjs:42-54 | a key saved successfully decrypts to the trimmed key |
| SloptexController.DeletedKeyNotUsed | services/web/app/src/Features/Sloptex/SloptexController.mjs:65-68 | after deleting the key, generation answers 400 "Missing configured API key" |
| SloptexActions.Config | services/web/frontend/js/features/sloptex/actions.ts:39-117 | each entry of the table is keyed by its own id and writes somewhere (the label keys are stated by the lemma below) |
| SloptexActions.ConfigConsistent | services/web/frontend/js/features/sloptex/actions.ts:39-117 | each action's config carries its own id and the label key `sloptex_action_<id>`; selection is required exactly for replace actions, input exactly for insert actions; the insert actions are assist, title and abstract |
| SloptexActions.IdNameInjective | services/web/frontend/js/features/sloptex/actions.ts:3-14 | distinct actions have distinct ids |
| SloptexActions.SectionsListEachOnce | services/web/frontend/js/features/sloptex/actions.ts:119-123 | every action and settings appears exactly once across the sections, settings alone in the last |
| SloptexActions.OccurrencesDistinct | services/web/frontend/js/features/sloptex/actions.ts:119-123 | in a list without repeats an item occurs once if present and not at all otherwise |
| SloptexActions.BuildLabels | services/web/frontend/js/features/sloptex/actions.ts:125-141 | every action gets the translation of its config's label key |
| SloptexActions.AllActions | services/web/frontend/js/features/sloptex/actions.ts:39 | the config record covers every action id |
| SloptexUtils.EditorView.Dispatch | services/web/frontend/js/features/sloptex/utils.ts:41-45 | a change inside the document with a selection inside the new document is applied: the text spliced in and the selection set; anything else leaves the view as it was |
| SloptexUtils.EditorView.Focus | services/web/frontend/js/features/sloptex/utils.ts:46 | the view has focus |
| SloptexUtils.Splice | services/web/frontend/js/features/sloptex/utils.ts:22-40 | a change keeps the text before `from`, puts the inserted text next, then the text from `to` on |
| SloptexUtils.SpliceUndo | services/web/frontend/js/features/sloptex/utils.ts:22-40 | replacing the inserted text by the removed text restores the document |
| SloptexUtils.GetPrimarySelection | services/web/frontend/js/features/sloptex/utils.ts:4-13 | none without a view or with an empty selection; otherwise its ordered bounds and the text between them |
| SloptexUtils.ReplaceSelection | services/web/frontend/js/features/sloptex/utils.ts:15-47 | the selection (or, when inserting at the cursor, the empty range at the head) is replaced by the text, the cursor placed after it and the view focused; without a view nothing happens |
| SloptexUtils.InsertDeletesNothing | services/web/frontend/js/features/sloptex/utils.ts:23-31 | inserting at the cursor lengthens the document by the text and removes nothing |
| SloptexSelectionOverlay.SubmenuItems | services/web/frontend/js/features/sloptex/components/sloptex-selection-overlay.tsx:32-43 | ten language codes for translate, three styles otherwise, none of them empty |
| SloptexSelectionOverlay.MenuAction | services/web/frontend/js/features/sloptex/components/sloptex-selection-overlay.tsx:284-297 | a menu index names a submenu action exactly when it lies past the six inline actions |
| SloptexSelectionOverlay.NextIndex | services/web/frontend/js/features/sloptex/components/sloptex-selection-overlay.tsx:255-258 | ArrowDown moves to the next item and wraps from the last to the first, staying in range |
| SloptexSelectionOverlay.PrevIndex | services/web/frontend/js/features/sloptex/components/sloptex-selection-overlay.tsx:268-271 | ArrowUp moves to the previous item and wraps from the first (or from none) to the last |
| SloptexSelectionOverlay.UpDownInverse | services/web/frontend/js/features/sloptex/components/sloptex-selection-overlay.tsx:255-271 | from a focused item, ArrowDown then ArrowUp (and the reverse) return to it |
| SloptexSelectionOverlay.DownCycles | services/web/frontend/js/features/sloptex/components/sloptex-selection-overlay.tsx:255-258 | k presses of ArrowDown move k items on, modulo the number of items; a full cycle returns to the start |
| SloptexSelectionOverlay.SubmenuOptions | services/web/frontend/js/features/sloptex/components/sloptex-selection-overlay.tsx:153-161 | translate with an option sends it as `language`, style as `style`; otherwise no options |
| SloptexSelectionOverlay.Overlay.constructor | services/web/frontend/js/features/sloptex/components/sloptex-selection-overlay.tsx:76-79 | panel closed, ask box empty, nothing focused, no submenu |
| SloptexSelectionOverlay.Overlay.HandleActionClick | services/web/frontend/js/features/sloptex/components/sloptex-selection-overlay.tsx:138-151 | a submenu action opens its submenu at its first item; another action is sent without options and the panel reset |
| SloptexSelectionOverlay.Overlay.HandleSubmenuAction | services/web/frontend/js/features/sloptex/components/sloptex-selection-overlay.tsx:153-166 | the action is sent with its options and the submenu, panel and focus reset |
| SloptexSelectionOverlay.Overlay.FocusItem | services/web/frontend/js/features/sloptex/components/sloptex-selection-overlay.tsx:478-509 | hovering or focusing a menu item focuses it |
| SloptexSelectionOverlay.Overlay.FocusSubmenuItem | services/web/frontend/js/features/sloptex/components/sloptex-selection-overlay.tsx:571-578 | hovering or focusing a submenu item focuses it within the open submenu |
| SloptexSelectionOverlay.Overlay.FocusBack | services/web/frontend/js/features/sloptex/components/sloptex-selection-overlay.tsx:542-546 | focusing Back clears the submenu's focused item |
| SloptexSelectionOverlay.Overlay.HandleKeyDown | services/web/frontend/js/features/sloptex/components/sloptex-selection-overlay.tsx:169-308 | (through `KeyDownEffect`) every key's outcome in the submenu and in the main menu: closing, wrapping moves, choosing, opening a submenu, and untouched state with no preventDefault for other keys |
| SloptexSelectionOverlay.Overlay.HandleSearchSubmit | services/web/frontend/js/features/sloptex/components/sloptex-selection-overlay.tsx:346-366 | the trimmed question, or else the selected text, is sent to `assist` and the panel reset; with neither nothing happens |
| SloptexSelectionOverlay.Overlay.ToggleBubble | services/web/frontend/js/features/sloptex/components/sloptex-selection-overlay.tsx:384-390 | the bubble's button opens or closes the panel with nothing focused and no submenu |
| SloptexSelectionOverlay.Overlay.SetAskValue | services/web/frontend/js/features/sloptex/components/sloptex-selection-overlay.tsx:419 | typing replaces the ask box's value |
| SloptexSelectionOverlay.Overlay.AskKeyDown | services/web/frontend/js/features/sloptex/components/sloptex-selection-overlay.tsx:378-433 | Enter without Shift submits the question and stops there; every other key then reaches the panel's `handleKeyDown` with the state from before the keypress, so it has exactly `HandleKeyDown`'s effect (Escape closes the panel, ArrowUp focuses the last action, Shift+Enter runs the focused action or submenu item); ArrowDown is always prevented and ends on the next main-menu action, or with a submenu open moves the submenu's focus and focuses the first main action |
| SloptexSelectionOverlay.Sign | services/web/frontend/js/features/sloptex/components/sloptex-selection-overlay.tsx:322-339 | `+` exactly for added parts, `-` exactly for removed parts that are not added |
| SloptexSelectionOverlay.PartLines | services/web/frontend/js/features/sloptex/components/sloptex-selection-overlay.tsx:316-320 | the lines shown for a part hold no newline |
| SloptexSelectionOverlay.PartRows | services/web/frontend/js/features/sloptex/components/sloptex-selection-overlay.tsx:315-321 | one row per kept line, keyed by part and line index, carrying the part's sign |
| SloptexSelectionOverlay.DiffRows | services/web/frontend/js/features/sloptex/components/sloptex-selection-overlay.tsx:310-344 | the loop over parts and lines yields exactly the rows of every part in order |
| SloptexSelectionOverlay.PartRowsOf | services/web/frontend/js/features/sloptex/components/sloptex-selection-overlay.tsx:315-321 | the inner loop over one part's lines yields exactly that part's rows, skipping only an empty last line |
| SloptexSelectionOverlay.PartLinesRoundTrip | services/web/frontend/js/features/sloptex/components/sloptex-selection-overlay.tsx:316-320 | joining a part's lines with newlines gives its text back, up to the dropped final newline |
| SloptexActionBar.FailureMessage | services/web/frontend/js/features/sloptex/components/sloptex-action-bar.tsx:107-109 | the error's own message when it has one, otherwise the fixed non-empty failure text |
| SloptexActionBar.ActionBar.constructor | services/web/frontend/js/features/sloptex/components/sloptex-action-bar.tsx:32-42 | no action, no prompt, no result, no options, not running, no error, no proposed edit |
| SloptexActionBar.ActionBar.CheckMissingApiKey | services/web/frontend/js/features/sloptex/components/sloptex-action-bar.tsx:46-52 | reports a missing key exactly when none is stored, and then opens the settings |
| SloptexActionBar.ActionBar.StartAction | services/web/frontend/js/features/sloptex/components/sloptex-action-bar.tsx:54-80 | without a key only the settings open; an action needing a selection, with none and no non-blank override, sets the select-text error and clears the action; otherwise the action, its options and its starting text (override, else selection, else empty) are set and result and error cleared |
| SloptexActionBar.ActionBar.PromptAction | services/web/frontend/js/features/sloptex/components/sloptex-action-bar.tsx:298 | the overlay's ask box starts the action with the typed text, or fails with the select-text error when the text is blank, a selection is needed and there is none |
| SloptexActionBar.ActionBar.HandleRun | services/web/frontend/js/features/sloptex/components/sloptex-action-bar.tsx:82-120 | nothing without an action; settings without a key; the select-text error without a needed selection; otherwise one request with the prompt and options, then the reply replaces the selection, is inserted on its own lines at the cursor, or sets the failure message, and running ends |
| SloptexActionBar.ActionBar.TakeReply | services/web/frontend/js/features/sloptex/components/sloptex-action-bar.tsx:100-109 | a reply is stored and applied to the document according to the action's target; a failure leaves result and document and sets the message |
| SloptexActionBar.ActionBar.HandleInlineAction | services/web/frontend/js/features/sloptex/components/sloptex-action-bar.tsx:134-158 | without a key only settings; an action without selection starts in the panel; with an empty selection the select-text error; otherwise a loading proposed edit for the selected range and one request carrying just the text |
| SloptexActionBar.ActionBar.InlineAction | services/web/frontend/js/features/sloptex/components/sloptex-action-bar.tsx:299 | an inline call from the overlay sends at most one request, and never any options |
| SloptexActionBar.ActionBar.InlineSettled | services/web/frontend/js/features/sloptex/components/sloptex-action-bar.tsx:162-178 | a reply settles the proposed edit only when it is still the one the request started |
| SloptexActionBar.ActionBar.HandleInlineAccept | services/web/frontend/js/features/sloptex/components/sloptex-action-bar.tsx:184-200 | a ready, non-empty proposal replaces its range, selects the new text and is closed; otherwise nothing changes |
| SloptexActionBar.ActionBar.HandleInlineReject | services/web/frontend/js/features/sloptex/components/sloptex-action-bar.tsx:202-204 | the proposed edit is closed |
| SloptexActionBar.Settled | services/web/frontend/js/features/sloptex/components/sloptex-action-bar.tsx:163-178 | a reply makes the edit ready with its text and diff; a failure makes it errored with the failure message |
| SloptexActionBar.AcceptIsUndoable | services/web/frontend/js/features/sloptex/components/sloptex-action-bar.tsx:184-200 | putting the original text back over an accepted proposal restores the document |
| SloptexActionBar.ServiceOptions | services/web/app/src/Features/Sloptex/SloptexService.mjs:52-90 | the service reads the language from `targetLanguage` and the style from `style`; no options means none |
| SloptexActionBar.TranslateLanguageIgnored | services/web/frontend/js/features/sloptex/components/sloptex-selection-overlay.tsx:153-161 | a chosen language never reaches the prompt: the submenu names it `language` and the inline request drops it, so the translation is into English |
| SloptexActionBar.StyleChoiceDropped | services/web/frontend/js/features/sloptex/components/sloptex-selection-overlay.tsx:153-161 | a chosen style is named as the service expects, but the inline request drops it, so the style is scientific |
| SortUsers.Cmp | services/web/modules/admin-panel/frontend/js/user-list/util/sort-users.ts:10-16 | a three-way string comparison, zero exactly for equal strings, with the empty string after every other |
| SortUsers.CmpAntisymmetric | services/web/modules/admin-panel/frontend/js/user-list/util/sort-users.ts:10-16 | swapping the arguments negates the comparison |
| SortUsers.CmpTransitive | services/web/modules/admin-panel/frontend/js/user-list/util/sort-users.ts:10-16 | the comparison's ordering is transitive, empty-last rule included |
| SortUsers.UserNameComparator | services/web/modules/admin-panel/frontend/js/user-list/util/sort-users.ts:18-22 | users compare by last name, and by first name only when the last names agree; zero exactly when both names agree |
| SortUsers.DefaultComparator | services/web/modules/admin-panel/frontend/js/user-list/util/sort-users.ts:24-38 | users compare by the lower-cased value under the key; a missing value sorts first; zero exactly when the values agree |
| SortUsers.ComparatorOf | services/web/modules/admin-panel/frontend/js/user-list/util/sort-users.ts:40-66 | a comparator exactly for the four sortable keys `lastActive`, `signUpDate`, `email` and `name` |
| SortUsers.DefaultComparatorAntisymmetric | services/web/modules/admin-panel/frontend/js/user-list/util/sort-users.ts:24-38 | swapping the users negates the comparison |
| SortUsers.DefaultComparatorTransitive | services/web/modules/admin-panel/frontend/js/user-list/util/sort-users.ts:24-38 | the key comparison's ordering is transitive |
| SortUsers.NameTransitive | services/web/modules/admin-panel/frontend/js/user-list/util/sort-users.ts:18-22 | the name comparison's ordering is transitive |
| SortUsers.ComparatorIsTotalPreorder | services/web/modules/admin-panel/frontend/js/user-list/util/sort-users.ts:40-64 | every comparator a sort key selects is a total preorder, so the stable sort is well defined |
| SortUsers.SortAscending | services/web/modules/admin-panel/frontend/js/user-list/util/sort-users.ts:40-64 | the ascending pass is a permutation of the users |
| SortUsers.SortUsers | services/web/modules/admin-panel/frontend/js/user-list/util/sort-users.ts:40-67 | the result is a permutation of the users |
| SortUsers.AscendingIsStableSort | services/web/modules/admin-panel/frontend/js/user-list/util/sort-users.ts:40-66 | ascending with a known key: sorted by its comparator, and users tied under it keep their input order |
| SortUsers.DescendingReversesAscending | services/web/modules/admin-panel/frontend/js/user-list/util/sort-users.ts:5-7 | any order but "asc" gives the ascending result reversed |
| SortUsers.UnknownKeyKeepsOrder | services/web/modules/admin-panel/frontend/js/user-list/util/sort-users.ts:40-66 | a key without a comparator leaves the input order, reversed for descending |
| UseSort.ToggleSort | services/web/modules/admin-panel/frontend/js/user-list/hooks/use-sort.ts:5-7 | "desc" exactly after "asc", "asc" after anything else |
| UseSort.ToggleSortInvolution | services/web/modules/admin-panel/frontend/js/user-list/hooks/use-sort.ts:5-7 | toggling twice restores either order |
| UseSort.HandleSort | services/web/modules/admin-panel/frontend/js/user-list/hooks/use-sort.ts:12-17 | the clicked key becomes the sort key; the rendered order flips when the key was already the sort key and is kept otherwise |
| UseSort.ClickingTwiceRestores | services/web/modules/admin-panel/frontend/js/user-list/hooks/use-sort.ts:12-17 | one click on the current key flips the order, two restore the sort |
| UserActions.FlagOf | services/web/modules/admin-panel/frontend/js/user-list/util/user-actions.ts:32-48 | each of the four actions names exactly its flag update; any other action none |
| UserActions.ApplyFlag | services/web/modules/admin-panel/frontend/js/user-list/util/user-actions.ts:52-55 | the spread sets exactly the flag's field to its value and leaves every other field |
| UserActions.PerformDelete | services/web/modules/admin-panel/frontend/js/user-list/util/user-actions.ts:10-24 | a delete request that skips the email unless it is wanted; on a reply the user is deselected and shown deleted with the reply's data; without one nothing follows |
| UserActions.PerformFlag | services/web/modules/admin-panel/frontend/js/user-list/util/user-actions.ts:26-58 | an unknown action sends nothing; otherwise one flag request, and on success the user is deselected and shown with the flag applied |
| UserActions.PerformRestore | services/web/modules/admin-panel/frontend/js/user-list/util/user-actions.ts:60-75 | a restore request; on success the user is deselected and shown neither deleted nor suspended, without deletion data |
| UserActions.PerformPurge | services/web/modules/admin-panel/frontend/js/user-list/util/user-actions.ts:77-84 | a purge request; on success the user is removed from the view |
| UserActions.FlagChangesOnlyItsField | services/web/modules/admin-panel/frontend/js/user-list/util/user-actions.ts:32-55 | an admin action changes only `isAdmin`, a suspension action only `suspended`, to the value the action names |
| UserActions.FlagActionsUndo | services/web/modules/admin-panel/frontend/js/user-list/util/user-actions.ts:32-55 | resume after suspend, and unset after set admin, leave the flag off and the rest as it was |
| UserActions.SuccessDeselects | services/web/modules/admin-panel/frontend/js/user-list/util/user-actions.ts:16-66 | every successful delete, flag and restore first deselects the user |
| UserActions.RestoreAfterDelete | services/web/modules/admin-panel/frontend/js/user-list/util/user-actions.ts:65-73 | restoring a deleted user gives the original user, not deleted or suspended, with no deletion data |
| UserListContext.DeletedOnlyUnderDeleted | services/web/modules/admin-panel/frontend/js/user-list/context/user-list-context.tsx:39-78 | a deleted user matches the deleted filter and no other; every user matches either "all" or "deleted" |
| UserListContext.FilterMatches | services/web/modules/admin-panel/frontend/js/user-list/context/user-list-context.tsx:39-78 | a matching user is deleted exactly when the filter is the deleted one |
| UserListContext.FilterKeys | services/web/modules/admin-panel/frontend/js/user-list/context/user-list-context.tsx:141-148 | the four fixed filters first and "deleted" last; "local" exactly when the auth types are not local alone, and each external filter exactly when its type is configured as well; no filter twice |
| UserListContext.ExternalFilters | services/web/modules/admin-panel/frontend/js/user-list/context/user-list-context.tsx:142-147 | only auth filters, each at most once; "local" exactly when the auth types are not local alone, and each external filter exactly when its type is configured as well |
| UserListContext.Search | services/web/modules/admin-panel/frontend/js/user-list/context/user-list-context.tsx:197-204 | an empty search keeps every user; otherwise exactly the users whose e-mail, first or last name contains the lower-cased text, in their order |
| UserListContext.Hits | services/web/modules/admin-panel/frontend/js/user-list/context/user-list-context.tsx:199-203 | exactly the users the lower-cased search text occurs in, as an order-preserving subsequence of the input |
| UserListContext.SearchIgnoresCase | services/web/modules/admin-panel/frontend/js/user-list/context/user-list-context.tsx:197-203 | searching for the lower-cased text finds the same users |
| UserListContext.ApplyFilter | services/web/modules/admin-panel/frontend/js/user-list/context/user-list-context.tsx:206 | exactly the users the filter matches, in their order |
| UserListContext.Page | services/web/modules/admin-panel/frontend/js/user-list/context/user-list-context.tsx:214-235 | at most the limit of users from the front, the rest counted as hidden, and the next page the hidden count capped at ten |
| UserListContext.LoadMoreExtendsWindow | services/web/modules/admin-panel/frontend/js/user-list/context/user-list-context.tsx:259-261 | loading more shows exactly the next page, keeping the users already shown |
| UserListContext.ShowAllShowsEverything | services/web/modules/admin-panel/frontend/js/user-list/context/user-list-context.tsx:253-257 | showing all leaves every filtered user visible and nothing hidden |
| UserListContext.ReplaceById | services/web/modules/admin-panel/frontend/js/user-list/context/user-list-context.tsx:320-326 | each record with the new record's id is replaced by it, the others kept in place |
| UserListContext.ReplaceByIdIdempotent | services/web/modules/admin-panel/frontend/js/user-list/context/user-list-context.tsx:320-326 | writing the same record twice changes nothing more |
| UserListContext.RemoveById | services/web/modules/admin-panel/frontend/js/user-list/context/user-list-context.tsx:328-332 | exactly the records with another id remain, in their order |
| UserListContext.FilteredMembers | services/web/modules/admin-panel/frontend/js/user-list/context/user-list-context.tsx:194-212 | every listed user is loaded, matches the filter and, for a non-empty search, the search text |
| UserListContext.Resorted | services/web/modules/admin-panel/frontend/js/user-list/context/user-list-context.tsx:208-212 | sorting again yields a permutation |
| UserListContext.UserList.constructor | services/web/modules/admin-panel/frontend/js/user-list/context/user-list-context.tsx:116-163 | prefetched users loaded, ten per page, newest sign-ups first, the saved filter, no search, nothing selected |
| UserListContext.UserList.Refresh | services/web/modules/admin-panel/frontend/js/user-list/context/user-list-context.tsx:194-251 | the page is the searched, filtered and (after a sort change) re-sorted loaded list; the loaded list is re-sorted too; the sort counts as applied |
| UserListContext.UserList.ShowAllUsers | services/web/modules/admin-panel/frontend/js/user-list/context/user-list-context.tsx:253-257 | the window grows by the hidden count, which with the next page drops to zero |
| UserListContext.UserList.LoadMoreUsers | services/web/modules/admin-panel/frontend/js/user-list/context/user-list-context.tsx:259-261 | the window grows by the next page |
| UserListContext.UserList.ToggleSelectedUser | services/web/modules/admin-panel/frontend/js/user-list/context/user-list-context.tsx:267-284 | true selects, false deselects, no value flips the id; no other id changes |
| UserListContext.UserList.SelectedUsers | services/web/modules/admin-panel/frontend/js/user-list/context/user-list-context.tsx:286-288 | exactly the visible users whose id is selected, in their order |
| UserListContext.UserList.SelfVisibleCount | services/web/modules/admin-panel/frontend/js/user-list/context/user-list-context.tsx:245-247 | one exactly when the current user is on the page, else zero |
| UserListContext.UserList.ReceiveUsers | services/web/modules/admin-panel/frontend/js/user-list/context/user-list-context.tsx:176-188 | fetched users replace the list; a failed request leaves it |
| UserListContext.UserList.SelectOrUnselectAll | services/web/modules/admin-panel/frontend/js/user-list/context/user-list-context.tsx:290-309 | every visible id but the current user's takes the checked state, the current user ends unselected, other ids keep theirs |
| UserListContext.UserList.SelectFilter | services/web/modules/admin-panel/frontend/js/user-list/context/user-list-context.tsx:311-318 | the filter is set and no visible user stays selected |
| UserListContext.UserList.UpdateUserViewData | services/web/modules/admin-panel/frontend/js/user-list/context/user-list-context.tsx:320-326 | the loaded list with the record replaced by id |
| UserListContext.UserList.RemoveUserFromView | services/web/modules/admin-panel/frontend/js/user-list/context/user-list-context.tsx:328-332 | the loaded list without records of that id |
| UserListContext.UserList.AddUserToView | services/web/modules/admin-panel/frontend/js/user-list/context/user-list-context.tsx:190-192 | the new user joins the loaded list, which is sorted by the sort last applied |
| UsersActionModal.ButtonVariant | services/web/modules/admin-panel/frontend/js/user-list/components/modals/users-action-modal.tsx:44-48 | danger exactly for delete, purge, set admin and suspend; primary exactly for restore, resume and unset admin |
| UsersActionModal.Errored | services/web/modules/admin-panel/frontend/js/user-list/components/modals/users-action-modal.tsx:51-61 | as many errors as failed users, each carrying a failed user's e-mail and failure, none exactly when nobody failed |
| UsersActionModal.ErroredListsEachFailure | services/web/modules/admin-panel/frontend/js/user-list/components/modals/users-action-modal.tsx:54-60 | the error of every failed user is in the list, at the position counting the failures before it |
| UsersActionModal.FailureCountGrows | services/web/modules/admin-panel/frontend/js/user-list/components/modals/users-action-modal.tsx:54-60 | those positions increase with processing order, so each failed user is listed once and in the order processed |
| UsersActionModal.AllFailedListsEveryone | services/web/modules/admin-panel/frontend/js/user-list/components/modals/users-action-modal.tsx:55-61 | when every user fails, every user is listed, in order |
| UsersActionModal.Modal.constructor | services/web/modules/admin-panel/frontend/js/user-list/components/modals/users-action-modal.tsx:40-42 | no errors, not processing, open |
| UsersActionModal.Modal.ShownErrors | services/web/modules/admin-panel/frontend/js/user-list/components/modals/users-action-modal.tsx:96-106 | errors show only after the run ends, and then they are the stored ones |
| UsersActionModal.Modal.HandleActionForUsers | services/web/modules/admin-panel/frontend/js/user-list/components/modals/users-action-modal.tsx:50-72 | each user goes to the handler in order; the errors are the failed users'; the dialog closes exactly when none failed; processing ends only while still mounted |
| UsersActionModal.Modal.ProcessUsers | services/web/modules/admin-panel/frontend/js/user-list/components/modals/users-action-modal.tsx:55-61 | each user goes to the handler once, in order, and the collected errors are exactly the failed users' |
| Categories.FallbackLabelsAreIds | services/web/modules/symbol-palette/frontend/utils/categories.js:7-13 | each category's fallback label is its id |
| Categories.CreateCategories | services/web/modules/symbol-palette/frontend/utils/categories.js:15-63 | five categories with fixed ids in fixed order; labels are the translations when a translator gives every key, and the fallback labels otherwise |
| Categories.HexDigitValue | services/web/modules/symbol-palette/frontend/utils/categories.js:107 | a hexadecimal digit's value is below sixteen |
| Categories.HexPrefixLength | services/web/modules/symbol-palette/frontend/utils/categories.js:107 | the longest prefix of hexadecimal digits, which `parseInt` reads |
| Categories.ParseHexInt | services/web/modules/symbol-palette/frontend/utils/categories.js:107 | `parseInt(s, 16)` gives a number exactly when, after blanks, a sign and a `0x`, a hexadecimal digit follows |
| Categories.DropZeros | services/web/modules/symbol-palette/frontend/utils/categories.js:107 | the text without its leading zeros: a suffix that starts with no zero |
| Categories.StripCodepointPrefix | services/web/modules/symbol-palette/frontend/utils/categories.js:107 | `U+` and the zeros after it removed; the lemma below states it |
| Categories.StripCodepointPrefixCutsFront | services/web/modules/symbol-palette/frontend/utils/categories.js:107 | the replacement cuts only a front: with `U+` it takes two characters at least and leaves no leading zero, without `U+` it keeps the text |
| Categories.DecodeCodepoint | services/web/modules/symbol-palette/frontend/utils/categories.js:106-108 | a decoded code point never exceeds the largest Unicode code point |
| Categories.HexDigit | services/web/modules/symbol-palette/frontend/utils/categories.js:107 | the digit for a value below sixteen is a hexadecimal digit with that value |
| Categories.ToHex | services/web/modules/symbol-palette/frontend/utils/categories.js:107 | the hexadecimal digits of a number, without leading zero, read back as the number |
| Categories.Zeros | services/web/modules/symbol-palette/frontend/utils/categories.js:107 | k zeros |
| Categories.DropZerosOfPadding | services/web/modules/symbol-palette/frontend/utils/categories.js:107 | stripping leading zeros undoes zero padding |
| Categories.ZerosCons | services/web/modules/symbol-palette/frontend/utils/categories.js:107 | k zeros are one zero followed by k-1 zeros |
| Categories.StripFormat | services/web/modules/symbol-palette/frontend/utils/categories.js:107 | removing `U+` and zeros from a padded code point leaves its digits |
| Categories.ParseDigits | services/web/modules/symbol-palette/frontend/utils/categories.js:107 | hexadecimal digits without leading zero parse to their value |
| Categories.DecodeFormat | services/web/modules/symbol-palette/frontend/utils/categories.js:106-108 | every code point above zero, written `U+` and at least four digits, decodes back to itself |
| Categories.NullCodepointFails | services/web/modules/symbol-palette/frontend/utils/categories.js:106-112 | `U+0000` loses all its digits and fails to decode, so the symbol is skipped |
| Categories.SymbolItem.constructor | services/web/modules/symbol-palette/frontend/utils/categories.js:103-104 | a symbol record with its code point and category and no character yet |
| Categories.IdsOf | services/web/modules/symbol-palette/frontend/utils/categories.js:86-92 | the non-empty category ids |
| Categories.Bucket | services/web/modules/symbol-palette/frontend/utils/categories.js:103-113 | a category's symbols are at most all symbols |
| Categories.BucketMembers | services/web/modules/symbol-palette/frontend/utils/categories.js:103-113 | a category's bucket holds exactly the symbols of that category that decode |
| Categories.EmptyBuckets | services/web/modules/symbol-palette/frontend/utils/categories.js:84-92 | one empty list for each non-empty category id |
| Categories.FillBuckets | services/web/modules/symbol-palette/frontend/utils/categories.js:103-115 | each bucket ends with its category's decodable symbols in order; exactly those symbols gain their character |
| Categories.BucketSnoc | services/web/modules/symbol-palette/frontend/utils/categories.js:103-113 | one more symbol joins the end of its category's bucket when it decodes |
| Categories.Place | services/web/modules/symbol-palette/frontend/utils/categories.js:104-112 | a symbol of a known non-empty category that decodes gets its character and joins its bucket; otherwise nothing changes |
| Categories.BuildCategorisedSymbols | services/web/modules/symbol-palette/frontend/utils/categories.js:65-122 | no categories gives an empty map; otherwise one bucket per category id, each the category's decodable symbols, and exactly those symbols gain their character |
| Categories.CreatedCategoriesKeys | services/web/modules/symbol-palette/frontend/utils/categories.js:86-92 | the categories created give buckets for exactly the five fixed ids |
| SymbolPaletteItems.Abs | services/web/modules/symbol-palette/frontend/components/symbol-palette-items.js:76-82 | the absolute value |
| SymbolPaletteItems.ClosestUnique | services/web/modules/symbol-palette/frontend/components/symbol-palette-items.js:71-85 | at most one item is the first nearest candidate above or below |
| SymbolPaletteItems.ClosestVertical | services/web/modules/symbol-palette/frontend/components/symbol-palette-items.js:68-86 | none exactly when no other item lies in the column in that direction; otherwise the first nearest such item |
| SymbolPaletteItems.PrevItem | services/web/modules/symbol-palette/frontend/components/symbol-palette-items.js:62-64 | ArrowLeft moves to the previous item, wrapping from the first to the last |
| SymbolPaletteItems.NextItem | services/web/modules/symbol-palette/frontend/components/symbol-palette-items.js:65-67 | ArrowRight moves to the next item, wrapping from the last to the first |
| SymbolPaletteItems.LeftRightInverse | services/web/modules/symbol-palette/frontend/components/symbol-palette-items.js:62-67 | ArrowRight then ArrowLeft (and the reverse) return to the same item |
| SymbolPaletteItems.PaletteItems.constructor | services/web/modules/symbol-palette/frontend/components/symbol-palette-items.js:9-16 | the items given, the first focused, nothing selected |
| SymbolPaletteItems.PaletteItems.SetItems | services/web/modules/symbol-palette/frontend/components/symbol-palette-items.js:34-38 | a new list of items focuses the first |
| SymbolPaletteItems.PaletteItems.Click | services/web/modules/symbol-palette/frontend/components/symbol-palette-items.js:121-124 | a click hands that symbol to the editor and focuses it |
| SymbolPaletteItems.PaletteItems.HandleKeyDown | services/web/modules/symbol-palette/frontend/components/symbol-palette-items.js:45-113 | nothing with no items, a modifier or no box for the focused item; otherwise the arrows, Home and End move focus, Enter and space select and toggle the palette, Escape toggles it and focuses the editor, other keys go to the search box unhandled; the search box is asked for focus only on other keys and the editor only on Escape |
| Cookies.GetCookie | services/web/frontend/js/features/theme-toggle/index.ts:5-12 | a value only when the cookie's name marker occurs exactly once, and never the empty value |
| Cookies.FindFirst | services/web/frontend/js/features/ide-redesign/context/editor-dark-mode-context.tsx:15-16 | the first row with the prefix, no earlier row having it; none exactly when no row has it |
| Cookies.FirstCookie | services/web/frontend/js/features/ide-redesign/context/editor-dark-mode-context.tsx:14-17 | the first-match cookie reader (its properties are stated by the lemmas below) |
| Cookies.FirstCookieFromRow | services/web/frontend/js/features/ide-redesign/context/editor-dark-mode-context.tsx:14-17 | a value is found only in a row that starts with `name=`, and it holds no `=` |
| Cookies.Store | services/web/frontend/js/features/theme-toggle/index.ts:14-19 | a `path=/` write replaces the first cookie of that name or adds one at the end, so the jar grows by at most one; the jar holds only `path=/` cookies |
| Cookies.GetCookieReadsUnique | services/web/frontend/js/features/theme-toggle/index.ts:5-12 | a non-empty value under a name that occurs once is read back |
| Cookies.AbsentCookieUnread | services/web/frontend/js/features/theme-toggle/index.ts:5-12 | a name held by no cookie reads as nothing, even when another cookie's name ends with it |
| Cookies.EmptyValueUnread | services/web/frontend/js/features/theme-toggle/index.ts:9 | an empty value reads as nothing |
| Cookies.GetCookieRejectsDuplicates | services/web/frontend/js/features/theme-toggle/index.ts:7-11 | two cookies of the same name read as nothing |
| Cookies.SplitRows | services/web/frontend/js/features/ide-redesign/context/editor-dark-mode-context.tsx:14-15 | splitting the cookie string at `; ` gives the jar's entries one by one |
| Cookies.FirstCookieReadsFirst | services/web/frontend/js/features/ide-redesign/context/editor-dark-mode-context.tsx:14-17 | the first-match reader returns the value of the first cookie with that name |
| Cookies.StoreShape | services/web/frontend/js/features/theme-toggle/index.ts:18 | after a write the jar has exactly one cookie of that name before the rest, and none after it when there was at most one before |
| Cookies.StoreKeepsJar | services/web/frontend/js/features/theme-toggle/index.ts:18 | a write of a plain name and value keeps the jar well formed and keeps at most one cookie of the name |
| Cookies.StoreTwice | services/web/frontend/js/features/theme-toggle/index.ts:18 | the second of two writes to the same name decides |
| Cookies.StoredCookieReadsBack | services/web/frontend/js/features/theme-toggle/index.ts:5-19 | a non-empty value written under a name held at most once is read back by the exactly-once reader |
| Cookies.StoredCookieReadsFirst | services/web/frontend/js/features/ide-redesign/context/editor-dark-mode-context.tsx:14-17 | a value written under a name held at most once is read back by the first-match reader |
| Cookies.ReadersDisagreeOnDuplicates | services/web/frontend/js/features/theme-toggle/index.ts:5-12 | with two cookies of one name, the exactly-once reader finds nothing while the first-match reader finds the first |
| Themes.Opposite | services/web/frontend/js/features/theme-toggle/index.ts:61 | the other theme |
| Themes.WithClass | services/web/frontend/js/features/theme-toggle/index.ts:27-33 | the class is present exactly when added; every other class is kept |
| Themes.WithClassTwice | services/web/frontend/js/features/theme-toggle/index.ts:27-33 | of two updates to one class, the second decides |
| Themes.ThemeCookieOk | services/web/frontend/js/features/theme-toggle/index.ts:18 | both theme names are plain cookie values under a plain cookie name, and not empty |
| ThemeTogglePage.Flip | services/web/frontend/js/features/theme-toggle/index.ts:60-64 | a click shows the opposite theme and keeps every other class |
| ThemeTogglePage.FlipTwice | services/web/frontend/js/features/theme-toggle/index.ts:60-64 | two clicks restore the class list |
| ThemeTogglePage.Page.constructor | services/web/frontend/js/features/theme-toggle/index.ts:42-44 | the page's cookies, classes, icon and button, no handler yet |
| ThemeTogglePage.Page.SetCookie | services/web/frontend/js/features/theme-toggle/index.ts:14-19 | the jar with the cookie written |
| ThemeTogglePage.Page.ApplyTheme | services/web/frontend/js/features/theme-toggle/index.ts:27-33 | the dark class is present exactly for `dark` |
| ThemeTogglePage.Page.UpdateToggleIcon | services/web/frontend/js/features/theme-toggle/index.ts:35-40 | an existing icon offers the other theme; no icon stays none |
| ThemeTogglePage.Page.Init | services/web/frontend/js/features/theme-toggle/index.ts:42-57 | without a button nothing changes; otherwise the page shows the saved theme (any saved value but `dark` as light) or its own, the icon matches it, and the handler is attached; other classes are kept |
| ThemeTogglePage.StartTheme | services/web/frontend/js/features/theme-toggle/index.ts:47-53 | with a saved value, dark exactly when it is `dark`; without one, the theme the body class shows |
| ThemeTogglePage.Page.Click | services/web/frontend/js/features/theme-toggle/index.ts:59-71 | the class list flips, the new theme is written to the cookie and shown by the icon; with at most one theme cookie before, it is read back |
| ThemeTogglePage.TwoClicks | services/web/frontend/js/features/theme-toggle/index.ts:59-71 | two clicks restore the classes and leave the cookie as one write of the original theme |
| ThemeTogglePage.ClickSurvivesReload | services/web/frontend/js/features/theme-toggle/index.ts:47-71 | the next page load starts with the theme the click chose |
| ThemeTogglePage.DuplicateCookiesIgnored | services/web/frontend/js/features/theme-toggle/index.ts:5-12 | with two theme cookies the page keeps its own theme |
| ThemeToggle.ButtonLabel | services/web/frontend/js/shared/components/theme-toggle.tsx:63-68 | the label offers the other theme and the icon matches the marketing page's |
| ThemeToggle.ThemeToggleState.constructor | services/web/frontend/js/shared/components/theme-toggle.tsx:26-35 | the saved theme when it is `light` or `dark`, else the body's |
| ThemeToggle.InitialTheme | services/web/frontend/js/shared/components/theme-toggle.tsx:26-35 | the saved theme when it is exactly `light` or `dark`, otherwise the theme the body class shows |
| ThemeToggle.ThemeToggleState.ToggleTheme | services/web/frontend/js/shared/components/theme-toggle.tsx:37-48 | the theme becomes the opposite, is written to the cookie and to the body class; with at most one theme cookie before, it reads back |
| ThemeToggle.ThemeToggleState.SyncEffect | services/web/frontend/js/shared/components/theme-toggle.tsx:50-56 | the body class follows the theme |
| ThemeToggle.ToggleTwice | services/web/frontend/js/shared/components/theme-toggle.tsx:37-48 | two toggles restore the theme and the class and leave one write of the original theme |
| ThemeToggle.ToggleSurvivesReload | services/web/frontend/js/shared/components/theme-toggle.tsx:26-48 | the next mount starts with the theme the toggle wrote |
| ThemeToggle.OtherSavedValue | services/web/frontend/js/shared/components/theme-toggle.tsx:26-35 | a saved value other than the two names: the component keeps the body's theme while the marketing page shows light |
| EditorDarkMode.EditorDarkModeState.constructor | services/web/frontend/js/features/ide-redesign/context/editor-dark-mode-context.tsx:62-65 | the editor is dark exactly when the app-wide theme is |
| EditorDarkMode.EditorDarkModeState.SetAppWideTheme | services/web/frontend/js/features/ide-redesign/context/editor-dark-mode-context.tsx:28-48 | the cookie, the body's dark class, the root's preload class and any icon follow the theme; with at most one theme cookie before, the app then reads that theme |
| EditorDarkMode.EditorDarkModeState.CheckAppTheme | services/web/frontend/js/features/ide-redesign/context/editor-dark-mode-context.tsx:69-75 | afterwards the editor flag agrees with the app-wide theme, unchanged when it already did |
| EditorDarkMode.EditorDarkModeState.ClassEffect | services/web/frontend/js/features/ide-redesign/context/editor-dark-mode-context.tsx:97-106 | the editor class on root and body follows the flag |
| EditorDarkMode.EditorDarkModeState.ToggleEditorDarkMode | services/web/frontend/js/features/ide-redesign/context/editor-dark-mode-context.tsx:108-113 | the flag flips and the app-wide theme is set to match it; with at most one theme cookie before, the flag is then in step with the app-wide theme, so the next check keeps it |
| EditorDarkMode.AppWideTheme | services/web/frontend/js/features/ide-redesign/context/editor-dark-mode-context.tsx:12-25 | the theme the first theme cookie names when it names one, otherwise the theme the body class shows |
| EditorDarkMode.CookieOverridesClass | services/web/frontend/js/features/ide-redesign/context/editor-dark-mode-context.tsx:12-25 | the first theme cookie decides over the body class |
| EditorDarkMode.DuplicatesSplitThePages | services/web/frontend/js/features/ide-redesign/context/editor-dark-mode-context.tsx:12-25 | with two theme cookies the editor follows the first while the marketing page ignores both |

## Left out

- UserListContext.UserList.Refresh: the changed-sort test compares the two sort requests by value; the source compares the objects by identity, so setting an equal sort again re-sorts there and not here.
- Mongo, Redis, sessions, Express rendering and redirects, and every `fetch`: query results, scan pages, session sets and HTTP replies are inputs, and requests are recorded as values. The database-side sort of announcements is taken as given.
- Concurrency and timing: `Promise.race` timeouts, `Promise.all`, `promiseMapWithLimit`, the 200 ms focus `setTimeout`, the polling intervals, `MutationObserver` and React effect scheduling. Only their outcomes are modelled; an asynchronous handler is split into the step that sends the request and the step that takes the reply.
- Clocks: `Date.now` and the current date are parameters. Dates are integer timestamps; the one-year cut-off is an input; local-midnight truncation ignores time zones.
- Console and logger output, and event tracking.
- Foreign libraries: the Gemini client, `AccessTokenEncryptor` (a sealed value stands for its output) and `JSON.parse` (a parsed value or none is passed in); lodash `orderBy` is a stable sort; `localeCompare` is a code-point comparison, a total order; `toLowerCase` maps ASCII letters only.
- `diffLines`: the diff parts are an input of the inline-edit step; the line-by-line view of them is modelled.
- String lengths: a Dafny string is a sequence of Unicode code points, while JavaScript's `length`, `slice` and `split('')` count UTF-16 code units, so a character outside the Basic Multilingual Plane (an emoji, a mathematical letter) counts once here and twice there.
- SloptexService.Sanitize: keeps the first 8000 code points where `slice(0, 8000)` keeps 8000 UTF-16 units, so for text with astral characters it keeps more.
- SloptexController.SaveApiKey: the 400 limit counts code points where `trimmedKey.length` counts UTF-16 units, so a key of 201 astral characters is accepted here and rejected there.
- UserListController.GetUserStorageUsed: line lengths count code points where `line.length` counts UTF-16 units, so lines with astral characters report less storage here.
- DocStorage.SumStorage: the same; each line's length is in code points, not UTF-16 units.
- UserListController.ReversedHostname: reverses code points, where `split('').reverse()` reverses UTF-16 units and so breaks a surrogate pair apart.
- SloptexSelectionOverlay.Overlay.AskKeyDown: the browser's default action for a key left unprevented is not modelled; in particular Shift+Enter with no action focused and no submenu open reaches the form, whose implicit submission runs `handleSearchSubmit` in the browser but nothing here.
- AnnouncementController.IsValidObjectId: follows `ObjectId.isValid` of bson 4, which also accepts any 12-character string; bson 6 accepts only 24 hexadecimal digits. The version the repository installs is not part of this model.
- AnnouncementController.AnnouncementStore.Update, AnnouncementController.AnnouncementStore.Delete, AnnouncementController.AnnouncementStore.Dismiss: ids are compared as literal strings, standing for the lower-case hexadecimal the server emits. `new ObjectId(id)` ignores the case of hex digits and turns a 12-character string into the id of its bytes, so an upper-case spelling of a stored id is found there and answers 404 here.
- CodeMirror: a single selection range, and a document that is a string; coordinates, scrolling and multi-range mapping are not modelled.
- SymbolPaletteItems.ClosestVertical: item rectangles are exact reals, so floating-point rounding in the distance comparison is not modelled.
- `itemRefs` in the symbol palette is not modelled; the item rectangles are passed to the key handler.
- An identifier array's contents are not modelled, only whether it is present and its length.
- Cookie attributes: expiry, `path`, domain and `SameSite` are not modelled. Every write here uses `path=/`, and the jar is taken to hold only cookies of `path=/` on the page's own host; a browser keeps at most one such cookie per name, so a write replaces it or appends one. Cookie names and values are taken without `;` and `=`.
- Cookies.Store: a cookie of the same name set elsewhere under a longer path (say `/project`) is not modelled. The browser lists it before the `path=/` one and a `path=/` write does not replace it, so the first-match reader keeps returning it.
- Cookies.StoredCookieReadsFirst: the read-back is promised only when the jar held at most one cookie of the name, which a jar of `path=/` cookies always does.
- EditorDarkMode.EditorDarkModeState.SetAppWideTheme: the app reads the new theme back only when the jar held at most one theme cookie. With a longer-path theme cookie, which the model does not have, the old theme would still be read.
- EditorDarkMode.EditorDarkModeState.ToggleEditorDarkMode: in step afterwards only when the jar held at most one theme cookie. A longer-path theme cookie would let `checkAppTheme` flip the editor back.
- Categories.DecodeCodepoint: `String.fromCodePoint` is modelled as giving the code point; a symbol whose digits are all zeros (`U+0000`) fails to parse, as the code has it.
- `AUTH_TYPE`'s bit values are not part of this model: the flags are a set of auth types, so bitwise OR is union and a non-zero AND is membership.
- `reversedHostname` reverses the text between the first and the second `@`, as `split('@')[1]` gives, not everything after the first `@`.
- The overlay sends a chosen language as `language` while the service reads `targetLanguage`, and the inline path drops submenu options entirely; both are modelled as written, and SloptexActionBar.TranslateLanguageIgnored and SloptexActionBar.StyleChoiceDropped state the consequence.
- Render-only components (modals other than the batch action dialog, lists, cells, tooltips, navigation, the settings modal, the error boundary), the `api.ts` wrappers, `AdminController`, the routers and `formatStorage` are not part of this model.
